/**
 What runs of the key service amount to: which part of the history is in memory, what the
 file holds, and therefore what every key resolves to.
 */
module ApiKeyRuns {
  import opened ApiKeys
  import Text

  // ----- the history that survives ---------------------------------------------------------------

  /** The operation changes the store and its save succeeds. */
  predicate Writes(y: Sys, op: Op) {
    match op
    case Set(c, _, saved) => saved && Text.TrimSpace(c) != ""
    case Issue(c, _, _, saved) => saved && Text.TrimSpace(c) in y.mem
    case Revoke(c, id, saved) => saved && Revokes(y.mem, c, id)
    case Restart => false
  }

  /** The (index past the) last operation of a run that wrote the file, or 0. */
  function LastWrite(ops: seq<Op>): (n: nat)
    ensures n <= |ops|
  {
    if ops == [] then 0
    else
      var front := ops[..|ops| - 1];
      if Writes(Run(front), ops[|ops| - 1]) then |ops| else LastWrite(front)
  }

  /** The operations still in memory: a restart takes back everything since the last write before it. */
  function Surviving(ops: seq<Op>): seq<Op>
    decreases |ops|
  {
    if ops == [] then []
    else
      var front, op := ops[..|ops| - 1], ops[|ops| - 1];
      if op.Restart? then Surviving(front[..LastWrite(front)]) else Surviving(front) + [op]
  }

  lemma StepWrites(y: Sys, op: Op)
    ensures Step(y, op).disk == if Writes(y, op) then Step(y, op).mem else y.disk
  {
  }

  /** The file holds the memory of the moment it was last written. */
  lemma {:induction false} DiskIsLastWrite(ops: seq<Op>)
    ensures Run(ops).disk == Run(ops[..LastWrite(ops)]).mem
  {
    hide Writes, Step;
    if ops != [] {
      var front, op := ops[..|ops| - 1], ops[|ops| - 1];
      DiskIsLastWrite(front);
      StepWrites(Run(front), op);
      if Writes(Run(front), op) {
        assert ops[..|ops|] == ops;
      } else {
        assert ops[..LastWrite(front)] == front[..LastWrite(front)];
      }
    }
  }

  // ----- what the history says about one key ----------------------------------------------------------

  datatype Fate = Never | Live(customer: string, keyID: string) | Gone(customer: string, keyID: string)

  ghost predicate Known(hist: seq<Op>, c: string) {
    c != "" && exists k :: 0 <= k < |hist| && hist[k].Set? && Text.TrimSpace(hist[k].customer) == c
  }

  /** Whether the customer was last made active. */
  function ActiveIn(hist: seq<Op>, c: string): bool {
    if hist == [] then false
    else
      var op := hist[|hist| - 1];
      if op.Set? && Text.TrimSpace(op.customer) == c then op.active else ActiveIn(hist[..|hist| - 1], c)
  }

  /** A key comes to life when it is issued to a known customer, and is gone once that customer's key is revoked. */
  ghost function FateOf(hist: seq<Op>, hash: string): Fate {
    if hist == [] then Never
    else
      var front, op := hist[..|hist| - 1], hist[|hist| - 1];
      FateNext(FateOf(front, hash), front, op, hash)
  }

  ghost function FateNext(before: Fate, front: seq<Op>, op: Op, hash: string): Fate {
    match op
    case Issue(c, id, h, _) =>
      if before.Never? && h == hash && Known(front, Text.TrimSpace(c)) then Live(Text.TrimSpace(c), id) else before
    case Revoke(c, id, _) =>
      if before == Live(Text.TrimSpace(c), Text.TrimSpace(id)) then Gone(before.customer, before.keyID) else before
    case _ => before
  }

  /** Ids and hashes as they are generated. */
  ghost predicate Generated(ops: seq<Op>) {
    && Fresh(ops)
    && forall k :: 0 <= k < |ops| && ops[k].Issue? ==>
         ops[k].hash != "" && ops[k].keyID != "" && Text.TrimSpace(ops[k].keyID) == ops[k].keyID
  }

  // ----- the store says the same --------------------------------------------------------------------------

  ghost predicate Holds(s: Store, c: string, key: Key) {
    exists i: nat :: Has(s, c, i) && s[c].keys[i] == key
  }

  ghost predicate KeyAsIn(s: Store, hash: string, fate: Fate) {
    match fate
    case Never => forall c, i: nat :: Has(s, c, i) ==> s[c].keys[i].hash != hash
    case Live(c, id) => id != "" && Text.TrimSpace(id) == id && Holds(s, c, Key(id, hash, false))
    case Gone(c, id) => Holds(s, c, Key(id, hash, true))
  }

  ghost predicate CustomersAsIn(s: Store, hist: seq<Op>) {
    forall c :: (c in s <==> Known(hist, c)) && (c in s ==> s[c].active == ActiveIn(hist, c))
  }

  lemma KnownNext(hist: seq<Op>, op: Op, c: string)
    ensures Known(hist + [op], c) <==> Known(hist, c) || (c != "" && op.Set? && Text.TrimSpace(op.customer) == c)
    ensures ActiveIn(hist + [op], c) ==
      if op.Set? && Text.TrimSpace(op.customer) == c then op.active else ActiveIn(hist, c)
  {
    hide Text.TrimSpace;
    var more := hist + [op];
    assert more[..|hist|] == hist && more[|hist|] == op;
    if Known(hist, c) {
      var k :| 0 <= k < |hist| && hist[k].Set? && Text.TrimSpace(hist[k].customer) == c;
      assert more[k] == hist[k];
    }
  }

  lemma BlankIsUnknown(hist: seq<Op>)
    ensures !Known(hist, "")
  {
  }

  lemma CustomersNext(y: Sys, hist: seq<Op>, op: Op)
    requires CustomersAsIn(y.mem, hist) && !op.Restart?
    ensures CustomersAsIn(Step(y, op).mem, hist + [op])
  {
    hide Known, Text.TrimSpace;
    assert !Known(hist, "") by { BlankIsUnknown(hist); }
    forall c
      ensures c in Step(y, op).mem <==> Known(hist + [op], c)
      ensures c in Step(y, op).mem ==> Step(y, op).mem[c].active == ActiveIn(hist + [op], c)
    {
      KnownNext(hist, op, c);
    }
  }

  /** One operation does to a key what the history says. */
  lemma KeyNext(y: Sys, hist: seq<Op>, op: Op, hash: string, fate: Fate)
    requires Distinct(y.mem) && CustomersAsIn(y.mem, hist) && KeyAsIn(y.mem, hash, fate) && !op.Restart?
    requires op.Issue? ==> Unused(y.mem, op.keyID, op.hash) && op.keyID != "" && Text.TrimSpace(op.keyID) == op.keyID
    ensures KeyAsIn(Step(y, op).mem, hash, FateNext(fate, hist, op, hash))
  {
    hide Text.TrimSpace;
    match op
    case Set(_, _, _) => SetKeeps(y, op, hash, fate);
    case Issue(_, _, _, _) => IssueKeeps(y, hist, op, hash, fate);
    case Revoke(_, _, _) => RevokeKeeps(y, hist, op, hash, fate);
  }

  lemma SetKeeps(y: Sys, op: Op, hash: string, fate: Fate)
    requires op.Set? && KeyAsIn(y.mem, hash, fate)
    ensures KeyAsIn(Step(y, op).mem, hash, fate)
  {
    hide Text.TrimSpace;
    var s, u := y.mem, Step(y, op).mem;
    forall c, i: nat
      ensures Has(u, c, i) <==> Has(s, c, i)
      ensures Has(s, c, i) ==> u[c].keys[i] == s[c].keys[i]
    {
    }
    Carried(s, u, fate, hash);
  }

  lemma IssueKeeps(y: Sys, hist: seq<Op>, op: Op, hash: string, fate: Fate)
    requires op.Issue? && CustomersAsIn(y.mem, hist) && KeyAsIn(y.mem, hash, fate) && Unused(y.mem, op.keyID, op.hash)
    requires op.keyID != "" && Text.TrimSpace(op.keyID) == op.keyID
    ensures KeyAsIn(Step(y, op).mem, hash, FateNext(fate, hist, op, hash))
  {
    hide Text.TrimSpace, Known;
    var s, u, c := y.mem, Step(y, op).mem, Text.TrimSpace(op.customer);
    if c in s {
      var key := Key(op.keyID, op.hash, false);
      assert Has(u, c, |s[c].keys|) && u[c].keys[|s[c].keys|] == key;
      forall d, i: nat
        ensures Has(s, d, i) ==> Has(u, d, i) && u[d].keys[i] == s[d].keys[i]
        ensures Has(u, d, i) ==> Has(s, d, i) || u[d].keys[i] == key
      {
      }
      if !fate.Never? {
        Carried(s, u, fate, hash);
      }
    }
  }

  /** A key that is held stays held where nothing in its place changed. */
  lemma Carried(s: Store, u: Store, fate: Fate, hash: string)
    requires KeyAsIn(s, hash, fate)
    requires forall c, i: nat :: Has(s, c, i) ==> Has(u, c, i) && u[c].keys[i] == s[c].keys[i]
    requires fate.Never? ==> forall c, i: nat :: Has(u, c, i) ==> Has(s, c, i)
    ensures KeyAsIn(u, hash, fate)
  {
    hide Text.TrimSpace;
    if !fate.Never? {
      var c, key := fate.customer, Key(fate.keyID, hash, fate.Gone?);
      var i: nat :| Has(s, c, i) && s[c].keys[i] == key;
      assert Has(u, c, i) && u[c].keys[i] == key;
    }
  }

  lemma RevokeKeeps(y: Sys, hist: seq<Op>, op: Op, hash: string, fate: Fate)
    requires op.Revoke? && Distinct(y.mem) && CustomersAsIn(y.mem, hist) && KeyAsIn(y.mem, hash, fate)
    ensures KeyAsIn(Step(y, op).mem, hash, FateNext(fate, hist, op, hash))
  {
    hide Text.TrimSpace, Known, Distinct;
    BlankIsUnknown(hist);
    var s, u := y.mem, Step(y, op).mem;
    var c, id := Text.TrimSpace(op.customer), Text.TrimSpace(op.keyID);
    if fate.Never? {
      forall d, i: nat | Has(u, d, i)
        ensures u[d].keys[i].hash != hash
      {
        assert Has(s, d, i);
      }
    } else {
      var key := Key(fate.keyID, hash, fate.Gone?);
      var i: nat :| Has(s, fate.customer, i) && s[fate.customer].keys[i] == key;
      if Revokes(s, op.customer, op.keyID) {
        FoundIsOnly(s, c, id, fate.customer, i);
      } else if fate == Live(c, id) {
        FoundAtLeast(s[c].keys, id, i);
        FoundIsOnly(s, c, id, c, i);
      }
      assert Has(u, fate.customer, i);
    }
  }

  lemma {:induction false} FoundAtLeast(keys: seq<Key>, id: string, i: nat)
    requires i < |keys| && keys[i].id == id
    ensures FindID(keys, id) <= i
  {
    if keys[0].id != id { FoundAtLeast(keys[1..], id, i - 1); }
  }

  /** The key a revocation finds is the one with that id. */
  lemma FoundIsOnly(s: Store, c: string, id: string, d: string, i: nat)
    requires Distinct(s) && c in s && FindID(s[c].keys, id) < |s[c].keys| && Has(s, d, i)
    ensures s[d].keys[i].id == id <==> c == d && FindID(s[c].keys, id) == i
  {
    assert Has(s, c, FindID(s[c].keys, id));
  }

  // ----- whole runs --------------------------------------------------------------------------------------------

  /** In every reachable state each key, and each customer, is as the surviving history says. */
  lemma {:induction false} MemoryIsSurvivingHistory(ops: seq<Op>, hash: string)
    requires Generated(ops)
    ensures CustomersAsIn(Run(ops).mem, Surviving(ops))
    ensures KeyAsIn(Run(ops).mem, hash, FateOf(Surviving(ops), hash))
    decreases |ops|
  {
    hide Step, Distinct, FateNext, CustomersAsIn, KeyAsIn, Generated, Fresh, Text.TrimSpace;
    if ops == [] {
      NothingHeld(hash);
    } else {
      var front, op := ops[..|ops| - 1], ops[|ops| - 1];
      var y := Run(front);
      assert ops == front + [op];
      if op.Restart? {
        var n := LastWrite(front);
        DiskIsLastWrite(front);
        assert front[..n] == ops[..n];
        PrefixIsGenerated(ops, n);
        MemoryIsSurvivingHistory(front[..n], hash);
        RestartedMemory(y);
      } else {
        var hist := Surviving(front);
        PrefixIsGenerated(ops, |front|);
        MemoryIsSurvivingHistory(front, hash);
        EveryRunIsDistinct(front);
        if op.Issue? { FreshIsUnused(y.mem, front, op); }
        CustomersNext(y, hist, op);
        KeyNext(y, hist, op, hash, FateOf(hist, hash));
        assert (hist + [op])[..|hist|] == hist;
      }
    }
  }

  lemma PrefixIsGenerated(ops: seq<Op>, n: nat)
    requires Generated(ops) && n <= |ops|
    ensures Generated(ops[..n]) && Fresh(ops[..n]) && Fresh(ops)
    ensures ops != [] && ops[|ops| - 1].Issue? ==>
      var op := ops[|ops| - 1]; op.keyID != "" && Text.TrimSpace(op.keyID) == op.keyID
  {
    hide Text.TrimSpace;
  }

  lemma RestartedMemory(y: Sys)
    ensures Step(y, Restart).mem == y.disk
  {
  }

  lemma NothingHeld(hash: string)
    ensures CustomersAsIn(map[], []) && KeyAsIn(map[], hash, Never)
  {
  }

  lemma FreshIsUnused(s: Store, front: seq<Op>, op: Op)
    requires op.Issue? && Fresh(front + [op]) && FromOps(s, front)
    ensures Unused(s, op.keyID, op.hash)
  {
    forall c, i: nat | Has(s, c, i)
      ensures s[c].keys[i].id != op.keyID && s[c].keys[i].hash != op.hash
    {
      assert IssuedBy(front, s[c].keys[i]);
      var key := s[c].keys[i];
      var k :| 0 <= k < |front| && front[k].Issue? && front[k].hash == key.hash && front[k].keyID == key.id;
      assert (front + [op])[k] == front[k] && (front + [op])[|front|] == op;
    }
  }

  /** What a key resolves to, by the surviving history alone. */
  ghost function Verdict(hist: seq<Op>, hash: string): Resolution {
    match FateOf(hist, hash)
    case Live(c, id) => if ActiveIn(hist, c) then Found(c, id) else Inactive
    case _ => Missing
  }

  /**
   After any run, failed saves and restarts included, a key resolves to its customer if and
   only if the surviving history issued it and has not revoked it; and that is the only answer.
   */
  lemma KeysResolveByHistory(ops: seq<Op>, hash: string, r: Resolution)
    requires Generated(ops) && hash != ""
    ensures Answers(Run(ops).mem, hash, r) <==> r == Verdict(Surviving(ops), hash)
  {
    hide Known, FateOf, ActiveIn, Run, Surviving, Text.TrimSpace;
    var s, hist := Run(ops).mem, Surviving(ops);
    MemoryIsSurvivingHistory(ops, hash);
    EveryRunIsDistinct(ops);
    match FateOf(hist, hash) {
      case Never => assert Answers(s, hash, Missing);
      case Live(c, id) =>
        var i: nat :| Has(s, c, i) && s[c].keys[i] == Key(id, hash, false);
        assert Opens(s, c, i, hash);
      case Gone(c, id) =>
        var i: nat :| Has(s, c, i) && s[c].keys[i] == Key(id, hash, true);
        forall d, j: nat
          ensures !Opens(s, d, j, hash)
        {
          if Has(s, d, j) && (d != c || j != i) { assert s[d].keys[j].hash != hash; }
        }
        assert Answers(s, hash, Missing);
    }
    if Answers(s, hash, r) { AnswerIsUnique(s, hash, r, Verdict(hist, hash)); }
  }

  // ----- what an acknowledged revocation is worth --------------------------------------------------------------

  function Rank(f: Fate): nat {
    match f case Never => 0 case Live(_, _) => 1 case Gone(_, _) => 2
  }

  /** The operation at k wrote the file when the key had got that far: 1 issued, 2 revoked. */
  ghost predicate SavedAt(ops: seq<Op>, k: nat, hash: string, r: nat)
    requires k < |ops|
  {
    Writes(Run(ops[..k]), ops[k]) && Rank(FateOf(Surviving(ops[..k + 1]), hash)) >= r
  }

  ghost predicate SavedIn(ops: seq<Op>, hash: string, r: nat) {
    exists k :: 0 <= k < |ops| && SavedAt(ops, k, hash, r)
  }

  lemma SavedInLonger(front: seq<Op>, op: Op, hash: string, r: nat)
    ensures var ops := front + [op];
      SavedIn(ops, hash, r) <==>
        SavedIn(front, hash, r) || (Writes(Run(front), op) && Rank(FateOf(Surviving(ops), hash)) >= r)
  {
    hide Run, Writes, FateOf, Surviving, Rank;
    var ops := front + [op];
    assert ops[..|front|] == front && ops[..|front| + 1] == ops;
    forall k | 0 <= k < |front|
      ensures SavedAt(ops, k, hash, r) <==> SavedAt(front, k, hash, r)
    {
      assert ops[..k] == front[..k] && ops[..k + 1] == front[..k + 1];
    }
    assert SavedAt(ops, |front|, hash, r) <==> Writes(Run(front), op) && Rank(FateOf(Surviving(ops), hash)) >= r;
    if SavedIn(front, hash, r) {
      var k :| 0 <= k < |front| && SavedAt(front, k, hash, r);
      assert SavedAt(ops, k, hash, r);
    }
  }

  /** What the file knows of a key is never more than memory does. */
  lemma {:induction false} FileIsBehind(ops: seq<Op>, hash: string)
    ensures Rank(FateOf(Surviving(ops[..LastWrite(ops)]), hash)) <= Rank(FateOf(Surviving(ops), hash))
    ensures ops != [] && !ops[|ops| - 1].Restart? ==>
      Rank(FateOf(Surviving(ops[..|ops| - 1]), hash)) <= Rank(FateOf(Surviving(ops), hash))
    decreases |ops|
  {
    hide Writes, Run, Known, Text.TrimSpace;
    if ops != [] {
      var front, op := ops[..|ops| - 1], ops[|ops| - 1];
      FileIsBehind(front, hash);
      assert ops[..|ops|] == ops;
      assert ops[..LastWrite(front)] == front[..LastWrite(front)];
      if !op.Restart? {
        var hist := Surviving(front);
        assert (hist + [op])[..|hist|] == hist;
      }
      if op.Restart? { RestartWritesNothing(Run(front)); }
    }
  }

  lemma RestartWritesNothing(y: Sys)
    ensures !Writes(y, Restart)
  {
  }

  /** The file has a key issued, or revoked, exactly if some successful save came when memory had. */
  lemma {:induction false} DurableExactly(ops: seq<Op>, hash: string, r: nat)
    requires r > 0
    ensures Rank(FateOf(Surviving(ops[..LastWrite(ops)]), hash)) >= r <==> SavedIn(ops, hash, r)
  {
    hide Writes, Run, FateOf, Surviving;
    if ops == [] {
      FileIsBehind(ops, hash);
      NothingSurvives(hash);
    } else {
      var front, op := ops[..|ops| - 1], ops[|ops| - 1];
      assert ops == front + [op] && ops[..|ops|] == ops;
      assert ops[..LastWrite(front)] == front[..LastWrite(front)];
      DurableExactly(front, hash, r);
      SavedInLonger(front, op, hash, r);
      FileIsBehind(front, hash);
      FileIsBehind(ops, hash);
      if op.Restart? { RestartWritesNothing(Run(front)); }
    }
  }

  lemma NothingSurvives(hash: string)
    ensures Rank(FateOf(Surviving([]), hash)) == 0
  {
  }

  /** A live key's revocation goes through; a revoked key's finds nothing to do. */
  lemma RevokesExactly(s: Store, hist: seq<Op>, customer: string, keyID: string, hash: string, fate: Fate)
    requires Distinct(s) && CustomersAsIn(s, hist) && KeyAsIn(s, hash, fate)
    ensures fate == Live(Text.TrimSpace(customer), Text.TrimSpace(keyID)) ==> Revokes(s, customer, keyID)
    ensures fate == Gone(Text.TrimSpace(customer), Text.TrimSpace(keyID)) ==> !Revokes(s, customer, keyID)
  {
    hide Text.TrimSpace, Known, Distinct;
    BlankIsUnknown(hist);
    var c, id := Text.TrimSpace(customer), Text.TrimSpace(keyID);
    if fate == Live(c, id) || fate == Gone(c, id) {
      var i: nat :| Has(s, c, i) && s[c].keys[i] == Key(id, hash, fate.Gone?);
      FoundAtLeast(s[c].keys, id, i);
      FoundIsOnly(s, c, id, c, i);
    }
  }

  /**
   After an acknowledged revocation and a restart the key opens nothing if and only if this
   call revoked it, or an earlier successful save came when it was revoked, or none ever
   came since it was issued: revoking a revoked key again saves nothing.
   */
  lemma AcknowledgedRevocationIsDurableExactly(ops: seq<Op>, customer: string, keyID: string, hash: string, saved: bool)
    requires Generated(ops) && hash != ""
    requires var c, id := Text.TrimSpace(customer), Text.TrimSpace(keyID);
      var fate := FateOf(Surviving(ops), hash);
      (fate == Live(c, id) && saved) || fate == Gone(c, id)
    ensures var after := ops + [Revoke(customer, keyID, saved), Restart];
      Answers(Run(after).mem, hash, Missing) <==>
        FateOf(Surviving(ops), hash).Live? || SavedIn(ops, hash, 2) || !SavedIn(ops, hash, 1)
  {
    hide FateOf, Run, SavedIn, LastWrite, Revokes, KeyAsIn, CustomersAsIn, Distinct, Answers;
    hide Text.TrimSpace;
    var revoke := Revoke(customer, keyID, saved);
    var hist, mid, after := Surviving(ops), ops + [revoke], ops + [revoke, Restart];
    assert after[..|mid|] == mid && mid[..|ops|] == ops && mid[..|mid|] == mid;
    assert (hist + [revoke])[..|hist|] == hist;
    MemoryIsSurvivingHistory(ops, hash);
    EveryRunIsDistinct(ops);
    RevokesExactly(Run(ops).mem, hist, customer, keyID, hash, FateOf(hist, hash));
    RevokedFate(hist, revoke, hash);
    SavedInLonger(ops, revoke, hash, 1);
    SavedInLonger(ops, revoke, hash, 2);
    DurableExactly(mid, hash, 1);
    DurableExactly(mid, hash, 2);
    StaysGenerated(ops, revoke);
    KeysResolveByHistory(after, hash, Missing);
  }

  lemma RevokedFate(hist: seq<Op>, revoke: Op, hash: string)
    requires revoke.Revoke?
    ensures var before := FateOf(hist, hash);
      before == Live(Text.TrimSpace(revoke.customer), Text.TrimSpace(revoke.keyID)) ==>
        FateOf(hist + [revoke], hash) == Gone(before.customer, before.keyID)
  {
    assert (hist + [revoke])[..|hist|] == hist;
  }

  lemma StaysGenerated(ops: seq<Op>, op: Op)
    requires Generated(ops) && !op.Issue?
    ensures Generated(ops + [op, Restart])
  {
    hide Text.TrimSpace;
    var after := ops + [op, Restart];
    assert forall k :: 0 <= k < |after| && after[k].Issue? ==> k < |ops| && after[k] == ops[k];
  }

  /** A key whose revocation failed to save, was retried with success, and is open again after a restart. */
  lemma AcknowledgedRevocationCanBeLost()
    ensures var ops := [Set("c", true, true), Issue("c", "k", "h", true), Revoke("c", "k", false)];
      && FateOf(Surviving(ops), "h") == Gone("c", "k")
      && Answers(Run(ops + [Revoke("c", "k", true), Restart]).mem, "h", Found("c", "k"))
  {
    hide Text.TrimSpace, Run, Surviving, Step, FateOf;
    var set_, issue, revoke := Set("c", true, true), Issue("c", "k", "h", true), Revoke("c", "k", false);
    var again, key := Revoke("c", "k", true), Key("k", "h", false);
    Text.TrimmedIsFixed("c");
    Text.TrimmedIsFixed("k");
    Snoc([], set_);
    Snoc([set_], issue);
    Snoc([set_, issue], revoke);
    Snoc([set_, issue, revoke], again);
    Snoc([set_, issue, revoke, again], Restart);
    assert [] + [set_] == [set_] && [set_] + [issue] == [set_, issue];
    assert [set_, issue] + [revoke] == [set_, issue, revoke];
    var ops := [set_, issue, revoke];
    assert ops + [again] == [set_, issue, revoke, again] && ops + [again] + [Restart] == ops + [again, Restart];
    LostSteps();
    RestartedDisk(map["c" := Holder(true, [key.(revoked := true)])], map["c" := Holder(true, [key])]);
    assert Opens(map["c" := Holder(true, [key])], "c", 0, "h");
    LostFate(set_, issue, revoke);
  }

  lemma RestartedDisk(mem: Store, disk: Store)
    ensures Step(Sys(mem, disk), Restart) == Sys(disk, disk)
  {
  }

  lemma LostSteps()
    ensures var key := Key("k", "h", false);
      var none, open := map["c" := Holder(true, [])], map["c" := Holder(true, [key])];
      var shut := map["c" := Holder(true, [key.(revoked := true)])];
      && Step(Sys(map[], map[]), Set("c", true, true)) == Sys(none, none)
      && Step(Sys(none, none), Issue("c", "k", "h", true)) == Sys(open, open)
      && Step(Sys(open, open), Revoke("c", "k", false)) == Sys(shut, open)
      && Step(Sys(shut, open), Revoke("c", "k", true)) == Sys(shut, open)
  {
    hide Text.TrimSpace;
    Text.TrimmedIsFixed("c");
    Text.TrimmedIsFixed("k");
    var key := Key("k", "h", false);
    var open := map["c" := Holder(true, [key])];
    assert [] + [key] == [key];
    assert FindID([key], "k") == 0 && FindID([key.(revoked := true)], "k") == 0;
    assert Revoked(open, "c", "k")["c"].keys == [key.(revoked := true)];
  }

  lemma LostFate(set_: Op, issue: Op, revoke: Op)
    requires set_ == Set("c", true, true) && issue == Issue("c", "k", "h", true) && revoke == Revoke("c", "k", false)
    requires Text.TrimSpace("c") == "c" && Text.TrimSpace("k") == "k"
    ensures FateOf([set_, issue, revoke], "h") == Gone("c", "k")
  {
    hide Text.TrimSpace;
    var hist := [set_, issue, revoke];
    assert hist[..2] == [set_, issue] && [set_, issue][..1] == [set_] && [set_][..0] == [];
    assert FateOf([set_], "h") == Never;
    assert [set_][0] == set_ && Known([set_], "c");
    assert FateOf([set_, issue], "h") == Live("c", "k");
  }

  lemma Snoc(ops: seq<Op>, op: Op)
    ensures Run([]) == Sys(map[], map[]) && Surviving([]) == []
    ensures Run(ops + [op]) == Step(Run(ops), op)
    ensures !op.Restart? ==> Surviving(ops + [op]) == Surviving(ops) + [op]
  {
    hide Step;
    assert (ops + [op])[..|ops|] == ops;
  }
}
