/**
 Customer API keys: issuing, revoking and resolving them, with a store file that is
 rewritten as a whole and may fail to be. A key is known by its id and its hash.
 */
module ApiKeys {
  import opened Prelude
  import Text

  datatype Key = Key(id: string, hash: string, revoked: bool)

  datatype Holder = Holder(active: bool, keys: seq<Key>)

  type Store = map<string, Holder>

  datatype Resolution = Found(customer: string, keyID: string) | Inactive | Missing

  /** What is in memory and what the file holds. */
  datatype Sys = Sys(mem: Store, disk: Store)

  /** `Set` creates a customer or changes whether it is active. Ids and hashes are generated outside. */
  datatype Op =
    | Set(customer: string, active: bool, saved: bool)
    | Issue(customer: string, keyID: string, hash: string, saved: bool)
    | Revoke(customer: string, keyID: string, saved: bool)
    | Restart

  function Keys(s: Store, c: string): seq<Key> {
    if c in s then s[c].keys else []
  }

  /** The first key with this id, or the number of keys. */
  function FindID(keys: seq<Key>, id: string): (i: nat)
    ensures i <= |keys|
    ensures i < |keys| ==> keys[i].id == id
    ensures forall j :: 0 <= j < i ==> keys[j].id != id
  {
    if keys == [] || keys[0].id == id then 0 else 1 + FindID(keys[1..], id)
  }

  function Issued(s: Store, customer: string, keyID: string, hash: string): Store {
    var c := Text.TrimSpace(customer);
    if c !in s then s else s[c := Holder(s[c].active, s[c].keys + [Key(keyID, hash, false)])]
  }

  /** Whether RevokeAPIKey finds a key it has yet to revoke; only then does it save. */
  predicate Revokes(s: Store, customer: string, keyID: string) {
    var c, id := Text.TrimSpace(customer), Text.TrimSpace(keyID);
    c != "" && id != "" && c in s && FindID(s[c].keys, id) < |s[c].keys| && !s[c].keys[FindID(s[c].keys, id)].revoked
  }

  function Revoked(s: Store, customer: string, keyID: string): Store {
    if !Revokes(s, customer, keyID) then s
    else
      var c := Text.TrimSpace(customer);
      var i := FindID(s[c].keys, Text.TrimSpace(keyID));
      s[c := Holder(s[c].active, s[c].keys[i := s[c].keys[i].(revoked := true)])]
  }

  function Save(y: Sys, mem: Store, saved: bool): Sys {
    Sys(mem, if saved then mem else y.disk)
  }

  function Step(y: Sys, op: Op): Sys {
    match op
    case Set(customer, active, saved) =>
      var c := Text.TrimSpace(customer);
      if c == "" then y else Save(y, y.mem[c := Holder(active, Keys(y.mem, c))], saved)
    case Issue(c, id, hash, saved) =>
      if Text.TrimSpace(c) !in y.mem then y else Save(y, Issued(y.mem, c, id, hash), saved)
    case Revoke(c, id, saved) =>
      if !Revokes(y.mem, c, id) then y else Save(y, Revoked(y.mem, c, id), saved)
    case Restart => Sys(y.disk, y.disk)
  }

  function Run(ops: seq<Op>): Sys {
    if ops == [] then Sys(map[], map[]) else Step(Run(ops[..|ops| - 1]), ops[|ops| - 1])
  }

  // ----- resolving ---------------------------------------------------------------------------------

  /** Customer c holds an unrevoked key with this hash. */
  predicate Opens(s: Store, c: string, i: nat, hash: string) {
    c in s && i < |s[c].keys| && s[c].keys[i].hash == hash && !s[c].keys[i].revoked
  }

  /** An answer ResolveAPIKey may give, whichever customer it happens to look at first. */
  ghost predicate Answers(s: Store, hash: string, r: Resolution) {
    match r
    case Missing => hash == "" || forall c, i: nat :: !Opens(s, c, i, hash)
    case Inactive => hash != "" && exists c, i: nat :: Opens(s, c, i, hash) && !s[c].active
    case Found(c, id) => hash != "" && exists i: nat :: Opens(s, c, i, hash) && s[c].keys[i].id == id && s[c].active
  }

  predicate Has(s: Store, c: string, i: nat) {
    c in s && i < |s[c].keys|
  }

  /** No two keys share a hash, nor an id. */
  ghost predicate Distinct(s: Store) {
    forall c, i: nat, d, j: nat ::
      Has(s, c, i) && Has(s, d, j) && (c != d || i != j) ==>
      s[c].keys[i].hash != s[d].keys[j].hash && s[c].keys[i].id != s[d].keys[j].id
  }

  /** With distinct keys the answer does not depend on the order customers are looked at in. */
  lemma AnswerIsUnique(s: Store, hash: string, a: Resolution, b: Resolution)
    requires Distinct(s) && Answers(s, hash, a) && Answers(s, hash, b)
    ensures a == b
  {
    forall c, i: nat, d, j: nat | Opens(s, c, i, hash) && Opens(s, d, j, hash)
      ensures c == d && i == j
    {
      assert Has(s, c, i) && Has(s, d, j);
    }
  }

  method Resolve(s: Store, hash: string) returns (r: Resolution)
    ensures Answers(s, hash, r)
  {
    if hash == "" { return Missing; }
    var todo := s.Keys;
    while todo != {}
      invariant todo <= s.Keys
      invariant forall c, i: nat :: c in s.Keys - todo ==> !Opens(s, c, i, hash)
      decreases |todo|
    {
      var c :| c in todo;
      for i := 0 to |s[c].keys|
        invariant forall j :: 0 <= j < i ==> !Opens(s, c, j, hash)
      {
        var key := s[c].keys[i];
        if key.hash == hash && !key.revoked {
          assert Opens(s, c, i, hash);
          return if s[c].active then Found(c, key.id) else Inactive;
        }
      }
      todo := todo - {c};
    }
    r := Missing;
  }

  datatype Failure = CustomerNotFound | KeyMissing | PersistFailed

  /** Some key of this customer has this id. */
  ghost predicate Names(s: Store, customer: string, keyID: string) {
    var c, id := Text.TrimSpace(customer), Text.TrimSpace(keyID);
    c != "" && id != "" && c in s && exists i :: 0 <= i < |s[c].keys| && s[c].keys[i].id == id
  }

  class Service {
    var mem: Store
    var disk: Store

    ghost function View(): Sys
      reads this
    {
      Sys(mem, disk)
    }

    /** IssueAPIKey, for a generated id and hash. */
    method IssueAPIKey(customer: string, keyID: string, hash: string, saved: bool) returns (r: Result<Key, Failure>)
      modifies this
      ensures View() ==
        if Text.TrimSpace(customer) == "" then old(View()) else Step(old(View()), Issue(customer, keyID, hash, saved))
      ensures r == if Text.TrimSpace(customer) == "" || Text.TrimSpace(customer) !in old(mem) then Err(CustomerNotFound)
        else if saved then Ok(Key(keyID, hash, false)) else Err(PersistFailed)
    {
      var c := Text.TrimSpace(customer);
      if c == "" || c !in mem { return Err(CustomerNotFound); }
      var key := Key(keyID, hash, false);
      mem := mem[c := Holder(mem[c].active, mem[c].keys + [key])];
      if !saved { return Err(PersistFailed); }
      disk := mem;
      r := Ok(key);
    }

    /** RevokeAPIKey */
    method RevokeAPIKey(customer: string, keyID: string, saved: bool) returns (r: Result<(), Failure>)
      modifies this
      ensures View() == Step(old(View()), Revoke(customer, keyID, saved))
      ensures r.Ok? <==> Names(old(mem), customer, keyID) && (saved || !Revokes(old(mem), customer, keyID))
    {
      var c, id := Text.TrimSpace(customer), Text.TrimSpace(keyID);
      if c == "" || id == "" { return Err(KeyMissing); }
      if c !in mem { return Err(CustomerNotFound); }
      var keys := mem[c].keys;
      assert keys[0..] == keys;
      for index := 0 to |keys|
        invariant View() == old(View())
        invariant FindID(keys, id) == index + FindID(keys[index..], id)
        invariant forall j :: 0 <= j < index ==> keys[j].id != id
      {
        assert keys[index..][1..] == keys[index + 1..];
        if keys[index].id == id {
          if !keys[index].revoked {
            mem := mem[c := Holder(mem[c].active, keys[index := keys[index].(revoked := true)])];
            if !saved { return Err(PersistFailed); }
            disk := mem;
          }
          return Ok(());
        }
      }
      r := Err(KeyMissing);
    }
  }

  // ----- issuing and revoking ----------------------------------------------------------------------------

  /** No key of s uses this id or hash. */
  ghost predicate Unused(s: Store, id: string, hash: string) {
    forall c, i: nat :: Has(s, c, i) ==> s[c].keys[i].id != id && s[c].keys[i].hash != hash
  }

  /** A fresh key opens its customer at once, and no other key opens more or less than before. */
  lemma IssuedOpens(s: Store, customer: string, id: string, hash: string, other: string, r: Resolution)
    requires Distinct(s) && Unused(s, id, hash) && hash != "" && Text.TrimSpace(customer) in s
    ensures var u := Issued(s, customer, id, hash); var c := Text.TrimSpace(customer);
      && Distinct(u)
      && Answers(u, hash, if s[c].active then Found(c, id) else Inactive)
      && (other != hash && Answers(s, other, r) ==> Answers(u, other, r))
  {
    var u, c := Issued(s, customer, id, hash), Text.TrimSpace(customer);
    assert Opens(u, c, |s[c].keys|, hash);
    forall d, i: nat
      ensures Has(u, d, i) ==> Has(s, d, i) || (d == c && i == |s[c].keys|)
      ensures other != hash ==> (Opens(u, d, i, other) <==> Opens(s, d, i, other))
      ensures Opens(s, d, i, other) ==> u[d].keys[i] == s[d].keys[i]
    {
    }
  }

  /** A revoked key opens nothing, and no other key opens more or less than before. */
  lemma RevokedShuts(s: Store, customer: string, keyID: string, c: string, i: nat, other: string, r: Resolution)
    requires Distinct(s) && Has(s, c, i) && c == Text.TrimSpace(customer) && s[c].keys[i].id == Text.TrimSpace(keyID)
    requires c != "" && Text.TrimSpace(keyID) != ""
    ensures var u := Revoked(s, customer, keyID);
      && Distinct(u)
      && Answers(u, s[c].keys[i].hash, Missing)
      && (other != s[c].keys[i].hash && Answers(s, other, r) ==> Answers(u, other, r))
  {
    var u := Revoked(s, customer, keyID);
    var at := FindID(s[c].keys, Text.TrimSpace(keyID));
    assert Has(s, c, at);
    assert at == i;
    forall d, j: nat
      ensures Has(u, d, j) <==> Has(s, d, j)
      ensures Has(s, d, j) ==> u[d].keys[j] == s[d].keys[j].(revoked := u[d].keys[j].revoked)
      ensures Has(s, d, j) && (d != c || j != i) ==> u[d].keys[j] == s[d].keys[j]
    {
    }
    forall d, j: nat
      ensures !Opens(u, d, j, s[c].keys[i].hash)
    {
      if Has(s, d, j) && (d != c || j != i) { assert s[d].keys[j].hash != s[c].keys[i].hash; }
    }
    forall d, j: nat
      ensures other != s[c].keys[i].hash ==> (Opens(u, d, j, other) <==> Opens(s, d, j, other))
    {
    }
  }

  /** Every key of s was issued by one of ops, with that id and hash. */
  ghost predicate FromOps(s: Store, ops: seq<Op>) {
    forall c, i: nat :: Has(s, c, i) ==> IssuedBy(ops, s[c].keys[i])
  }

  ghost predicate IssuedBy(ops: seq<Op>, key: Key) {
    exists k :: 0 <= k < |ops| && ops[k].Issue? && ops[k].hash == key.hash && ops[k].keyID == key.id
  }

  /** Random ids and hashes never repeat. */
  ghost predicate Fresh(ops: seq<Op>) {
    forall k, l :: 0 <= k < l < |ops| && ops[k].Issue? && ops[l].Issue? ==>
      ops[k].hash != ops[l].hash && ops[k].keyID != ops[l].keyID
  }

  lemma IssuedByMore(ops: seq<Op>, op: Op, key: Key)
    requires IssuedBy(ops, key)
    ensures IssuedBy(ops + [op], key)
  {
    var k :| 0 <= k < |ops| && ops[k].Issue? && ops[k].hash == key.hash && ops[k].keyID == key.id;
    assert (ops + [op])[k] == ops[k];
  }

  /** In memory and on disk, through failed saves and restarts, keys stay distinct. */
  lemma {:induction false} EveryRunIsDistinct(ops: seq<Op>)
    requires Fresh(ops)
    ensures Distinct(Run(ops).mem) && Distinct(Run(ops).disk)
    ensures FromOps(Run(ops).mem, ops) && FromOps(Run(ops).disk, ops)
  {
    if ops != [] {
      var front, op := ops[..|ops| - 1], ops[|ops| - 1];
      var y := Run(front);
      assert ops == front + [op];
      EveryRunIsDistinct(front);
      StepIsDistinct(y, op, front);
    }
  }

  lemma FromMore(s: Store, ops: seq<Op>, op: Op)
    requires FromOps(s, ops)
    ensures FromOps(s, ops + [op])
  {
    forall c, i: nat | Has(s, c, i)
      ensures IssuedBy(ops + [op], s[c].keys[i])
    {
      IssuedByMore(ops, op, s[c].keys[i]);
    }
  }

  lemma StepIsDistinct(y: Sys, op: Op, ops: seq<Op>)
    requires Fresh(ops + [op]) && Distinct(y.mem) && Distinct(y.disk) && FromOps(y.mem, ops) && FromOps(y.disk, ops)
    ensures var z := Step(y, op);
      Distinct(z.mem) && Distinct(z.disk) && FromOps(z.mem, ops + [op]) && FromOps(z.disk, ops + [op])
  {
    FromMore(y.mem, ops, op);
    FromMore(y.disk, ops, op);
    var u := match op
      case Set(customer, active, _) =>
        var c := Text.TrimSpace(customer);
        y.mem[c := Holder(active, Keys(y.mem, c))]
      case Issue(c, id, hash, _) => Issued(y.mem, c, id, hash)
      case Revoke(c, id, _) => Revoked(y.mem, c, id)
      case Restart => y.disk;
    match op {
      case Set(_, _, _) => SameKeys(y.mem, u, ops + [op]);
      case Revoke(_, _, _) => SameKeys(y.mem, u, ops + [op]);
      case Restart =>
      case Issue(_, _, _, _) => IssueIsDistinct(y.mem, op, ops);
    }
  }

  /** Ids and hashes in place, nothing else looked at. */
  ghost predicate KeysInPlace(s: Store, u: Store) {
    forall c, i: nat :: Has(u, c, i) ==>
      Has(s, c, i) && u[c].keys[i].id == s[c].keys[i].id && u[c].keys[i].hash == s[c].keys[i].hash
  }

  lemma SameKeys(s: Store, u: Store, ops: seq<Op>)
    requires Distinct(s) && FromOps(s, ops) && KeysInPlace(s, u)
    ensures Distinct(u) && FromOps(u, ops)
  {
    forall c, i: nat | Has(u, c, i)
      ensures IssuedBy(ops, u[c].keys[i])
    {
      assert IssuedBy(ops, s[c].keys[i]);
    }
  }

  lemma IssueIsDistinct(s: Store, op: Op, ops: seq<Op>)
    requires op.Issue? && Fresh(ops + [op]) && Distinct(s) && FromOps(s, ops) && FromOps(s, ops + [op])
    ensures var u := Issued(s, op.customer, op.keyID, op.hash); Distinct(u) && FromOps(u, ops + [op])
  {
    var u, c := Issued(s, op.customer, op.keyID, op.hash), Text.TrimSpace(op.customer);
    assert (ops + [op])[|ops|] == op;
    forall d, i: nat | Has(s, d, i)
      ensures s[d].keys[i].id != op.keyID && s[d].keys[i].hash != op.hash
    {
      var k :| 0 <= k < |ops| && ops[k].Issue? && ops[k].hash == s[d].keys[i].hash && ops[k].keyID == s[d].keys[i].id;
      assert (ops + [op])[k] == ops[k];
    }
    forall d, i: nat | Has(u, d, i)
      ensures (Has(s, d, i) && u[d].keys[i] == s[d].keys[i])
        || (d == c && i == |s[c].keys| && u[d].keys[i] == Key(op.keyID, op.hash, false))
      ensures IssuedBy(ops + [op], u[d].keys[i])
    {
      if Has(s, d, i) { assert IssuedBy(ops + [op], s[d].keys[i]); }
    }
  }
}
