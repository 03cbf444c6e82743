/**
 What runs of the customer service amount to, told by the operations alone: who the
 customers are, what was booked, and what every balance therefore is.
 */
module LedgerRuns {
  import opened Prelude
  import opened LedgerSpec
  import Text

  // ----- the history that survives ----------------------------------------------------------------

  /** The (index past the) last operation of a run that wrote the file, or 0. */
  function LastWrite(ops: seq<Op>): (n: nat)
    ensures n <= |ops|
  {
    if ops == [] then 0
    else
      var front := ops[..|ops| - 1];
      if Writes(Run(front), ops[|ops| - 1]) then |ops| else LastWrite(front)
  }

  /** The operations still in memory: a restart takes back everything since the last write before it. */
  function Surviving(ops: seq<Op>): seq<Op>
    decreases |ops|
  {
    if ops == [] then []
    else
      var front, op := ops[..|ops| - 1], ops[|ops| - 1];
      if op.Restart? then Surviving(front[..LastWrite(front)]) else Surviving(front) + [op]
  }

  /** The file holds the memory of the moment it was last written. */
  lemma {:induction false} DiskIsLastWrite(ops: seq<Op>)
    ensures Run(ops).disk == Run(ops[..LastWrite(ops)]).mem
  {
    hide Writes, Step;
    if ops != [] {
      var front, op := ops[..|ops| - 1], ops[|ops| - 1];
      DiskIsLastWrite(front);
      StepWrites(Run(front), op);
      if Writes(Run(front), op) {
        assert ops[..|ops|] == ops;
      } else {
        assert ops[..LastWrite(front)] == front[..LastWrite(front)];
      }
    }
  }

  // ----- what a history books --------------------------------------------------------------------------

  predicate Creates(op: Op, id: CustomerID) {
    id != "" && op.DoUpsert? && Text.TrimSpace(op.input.id) == id
  }

  ghost predicate Known(hist: seq<Op>, id: CustomerID) {
    exists k :: 0 <= k < |hist| && Creates(hist[k], id)
  }

  /** Usage of one non-blank request of one customer. */
  predicate SameRequest(a: Charge, b: Charge) {
    && a.ChargeUsage? && b.ChargeUsage? && Text.TrimSpace(b.requestID) != ""
    && Text.TrimSpace(a.id) == Text.TrimSpace(b.id) && Text.TrimSpace(a.requestID) == Text.TrimSpace(b.requestID)
  }

  /** A positive amount, a known customer, and no usage already booked for the request. */
  ghost predicate Books(hist: seq<Op>, c: Charge)
    decreases |hist|, 1
  {
    && c.amount > 0 && Known(hist, Text.TrimSpace(c.id))
    && forall k :: 0 <= k < |Booked(hist)| ==> !SameRequest(Booked(hist)[k].0, c)
  }

  /** The charges booked, in order, with their times. */
  ghost function Booked(hist: seq<Op>): seq<Timed>
    decreases |hist|, 0
  {
    if hist == [] then []
    else
      var front, op := hist[..|hist| - 1], hist[|hist| - 1];
      Booked(front) + if op.DoCharge? && Books(front, op.charge) then [(op.charge, op.now)] else []
  }

  /** The credits the customer was created with. */
  ghost function OpeningIn(hist: seq<Op>, id: CustomerID): int {
    if hist == [] then 0
    else
      var front, op := hist[..|hist| - 1], hist[|hist| - 1];
      if Creates(op, id) && !Known(front, id) then Or(op.input.initialCredits, 0) else OpeningIn(front, id)
  }

  function ToppedUp(cs: seq<Timed>, id: CustomerID): int {
    if cs == [] then 0
    else
      var c := cs[|cs| - 1].0;
      ToppedUp(cs[..|cs| - 1], id) + if c.ChargeTopUp? && Text.TrimSpace(c.id) == id then c.amount else 0
  }

  /** By deductions and usage. */
  function TakenOff(cs: seq<Timed>, id: CustomerID): int {
    if cs == [] then 0
    else
      var c := cs[|cs| - 1].0;
      TakenOff(cs[..|cs| - 1], id) + if !c.ChargeTopUp? && Text.TrimSpace(c.id) == id then c.amount else 0
  }

  /** What the operations leave a customer with. */
  ghost function Credits(hist: seq<Op>, id: CustomerID): int {
    OpeningIn(hist, id) + ToppedUp(Booked(hist), id) - TakenOff(Booked(hist), id)
  }

  // ----- the store says the same -------------------------------------------------------------------------

  /** The entry tells what was asked for. */
  predicate Tells(e: Entry, c: Charge, now: int) {
    && e.customer == Text.TrimSpace(c.id) && e.createdAt == now
    && match c
       case ChargeTopUp(_, amount, reason, actor) =>
         && e.kind == TopUp && e.delta == amount && e.reason == Text.TrimSpace(reason)
         && e.actor == Text.TrimSpace(actor) && e.requestID == e.provider == e.model == ""
       case ChargeDeduct(_, amount, reason, actor) =>
         && e.kind == Deduction && e.delta + amount == 0 && e.reason == Text.TrimSpace(reason)
         && e.actor == Text.TrimSpace(actor) && e.requestID == e.provider == e.model == ""
       case ChargeUsage(_, amount, requestID, provider, model) =>
         && e.kind == Usage && e.delta + amount == 0 && e.requestID == Text.TrimSpace(requestID) && e.actor == ""
         && e.provider == Text.TrimSpace(provider) && e.model == Text.TrimSpace(model)
         && (if e.provider != "" && e.model != "" then e.reason == e.provider + ":" + e.model
             else if e.provider == e.model == "" then e.reason == "usage debit"
             else e.reason == e.provider + e.model)
  }

  /** Entry k tells of booking k, and shows the balance it left. */
  ghost predicate EntryAsIn(s: Store, hist: seq<Op>, k: nat)
    requires k < |s.ledger| == |Booked(hist)|
  {
    var e, books := s.ledger[k], Booked(hist)[..k + 1];
    && Tells(e, books[k].0, books[k].1)
    && e.balanceAfter == Wrap(OpeningIn(hist, e.customer) + ToppedUp(books, e.customer) - TakenOff(books, e.customer))
  }

  ghost predicate BalanceAsIn(s: Store, hist: seq<Op>, id: CustomerID) {
    && (id in s.customers <==> Known(hist, id))
    && (id in s.customers ==> s.customers[id].balance == Wrap(Credits(hist, id)))
  }

  ghost predicate AsIn(s: Store, hist: seq<Op>) {
    && (forall id :: BalanceAsIn(s, hist, id))
    && |s.ledger| == |Booked(hist)|
    && forall k :: 0 <= k < |s.ledger| ==> EntryAsIn(s, hist, k)
  }

  lemma KnownNext(hist: seq<Op>, op: Op, id: CustomerID)
    ensures Known(hist + [op], id) <==> Known(hist, id) || Creates(op, id)
  {
    hide Creates;
    var more := hist + [op];
    assert more[|hist|] == op;
    if Known(hist, id) {
      var k :| 0 <= k < |hist| && Creates(hist[k], id);
      assert more[k] == hist[k];
    }
  }

  lemma HistoryNext(hist: seq<Op>, op: Op, id: CustomerID)
    ensures Booked(hist + [op])
      == Booked(hist) + if op.DoCharge? && Books(hist, op.charge) then [(op.charge, op.now)] else []
    ensures OpeningIn(hist + [op], id)
      == if Creates(op, id) && !Known(hist, id) then Or(op.input.initialCredits, 0) else OpeningIn(hist, id)
  {
    hide Known, Books, Creates;
    var more := hist + [op];
    assert more[..|hist|] == hist && more[|hist|] == op;
  }

  lemma SumsNext(cs: seq<Timed>, last: Timed, id: CustomerID)
    ensures var c, mine := last.0, Text.TrimSpace(last.0.id) == id;
      && ToppedUp(cs + [last], id) == ToppedUp(cs, id) + (if c.ChargeTopUp? && mine then c.amount else 0)
      && TakenOff(cs + [last], id) == TakenOff(cs, id) + (if !c.ChargeTopUp? && mine then c.amount else 0)
  {
    assert (cs + [last])[..|cs|] == cs;
  }

  lemma {:induction false} NoSums(cs: seq<Timed>, id: CustomerID)
    requires forall k :: 0 <= k < |cs| ==> Text.TrimSpace(cs[k].0.id) != id
    ensures ToppedUp(cs, id) == 0 && TakenOff(cs, id) == 0
  {
    hide Text.TrimSpace;
    if cs != [] { NoSums(cs[..|cs| - 1], id); }
  }

  /** Nothing is booked for anyone unknown. */
  lemma {:induction false} BookedAreKnown(hist: seq<Op>, id: CustomerID)
    requires !Known(hist, id)
    ensures ToppedUp(Booked(hist), id) == 0 && TakenOff(Booked(hist), id) == 0 && OpeningIn(hist, id) == 0
    ensures forall k :: 0 <= k < |Booked(hist)| ==> Text.TrimSpace(Booked(hist)[k].0.id) != id
  {
    hide Text.TrimSpace, Known, Creates;
    if hist == [] {
      NoSums([], id);
    } else {
      var front, op := hist[..|hist| - 1], hist[|hist| - 1];
      assert hist == front + [op];
      KnownNext(front, op, id);
      BookedAreKnown(front, id);
      HistoryNext(front, op, id);
      assert Booked(front) + [] == Booked(front);
      if op.DoCharge? && Books(front, op.charge) {
        BookedIsKnown(front, op.charge, id);
        SumsNext(Booked(front), (op.charge, op.now), id);
      }
    }
  }

  lemma BookedIsKnown(hist: seq<Op>, c: Charge, id: CustomerID)
    requires Books(hist, c) && !Known(hist, id)
    ensures Text.TrimSpace(c.id) != id
  {
  }

  // ----- one operation at a time ------------------------------------------------------------------------

  lemma UpsertAsIn(y: Sys, hist: seq<Op>, op: Op)
    requires AsIn(y.mem, hist) && op.DoUpsert?
    ensures AsIn(Step(y, op).mem, hist + [op])
  {
    hide Known, Text.TrimSpace, Booked, OpeningIn, Wrap, EntryAsIn;
    var s, u, more := y.mem, Step(y, op).mem, hist + [op];
    forall id
      ensures BalanceAsIn(u, more, id)
    {
      assert BalanceAsIn(s, hist, id);
      UpsertBalance(s, hist, op, id);
    }
    HistoryNext(hist, op, "");
    assert Booked(hist) + [] == Booked(hist);
    forall k | 0 <= k < |u.ledger|
      ensures EntryAsIn(u, more, k)
    {
      assert EntryAsIn(s, hist, k);
      EntryStays(s, u, hist, op, k);
    }
  }

  lemma UpsertBalance(s: Store, hist: seq<Op>, op: Op, id: CustomerID)
    requires op.DoUpsert? && BalanceAsIn(s, hist, id) && BalanceAsIn(s, hist, Text.TrimSpace(op.input.id))
    ensures BalanceAsIn(Upserted(s, op.input, op.now), hist + [op], id)
  {
    hide Known, Text.TrimSpace, Booked, OpeningIn, Wrap;
    KnownNext(hist, op, id);
    HistoryNext(hist, op, id);
    assert Booked(hist) + [] == Booked(hist);
    if !Known(hist, id) { BookedAreKnown(hist, id); }
  }

  /** Earlier entries tell the same after one more operation. */
  lemma EntryStays(s: Store, u: Store, hist: seq<Op>, op: Op, k: nat)
    requires k < |s.ledger| == |Booked(hist)| && EntryAsIn(s, hist, k)
    requires s.ledger <= u.ledger && |u.ledger| == |Booked(hist + [op])|
    ensures EntryAsIn(u, hist + [op], k)
  {
    hide Known, Text.TrimSpace, Wrap;
    if !Known(hist, s.ledger[k].customer) { BookedAreKnown(hist, s.ledger[k].customer); }
    HistoryNext(hist, op, s.ledger[k].customer);
    assert Booked(hist) <= Booked(hist + [op]);
    assert Booked(hist + [op])[..k + 1] == Booked(hist)[..k + 1];
  }

  lemma RefusedAsIn(s: Store, hist: seq<Op>, c: Charge)
    requires AsIn(s, hist)
    ensures Refusal(s, c) ==
      if c.amount <= 0 then Some(InvalidAmount)
      else if !Known(hist, Text.TrimSpace(c.id)) then Some(CustomerNotFound) else None
    ensures Books(hist, c) <==> Refusal(s, c).None? && !Recorded(s.ledger, c)
  {
    hide Known, Text.TrimSpace, Booked, OpeningIn, Wrap;
    assert BalanceAsIn(s, hist, Text.TrimSpace(c.id));
    BlankIsUnknown(hist);
    RecordedMeans(s.ledger, c);
    forall k | 0 <= k < |s.ledger|
      ensures IsDebitFor(s.ledger[k], c) <==> SameRequest(Booked(hist)[k].0, c)
    {
      assert EntryAsIn(s, hist, k);
      assert Booked(hist)[..k + 1][k] == Booked(hist)[k];
    }
  }

  lemma BlankIsUnknown(hist: seq<Op>)
    ensures !Known(hist, "")
  {
  }

  lemma ChargeAsIn(y: Sys, hist: seq<Op>, op: Op)
    requires AsIn(y.mem, hist) && op.DoCharge?
    ensures AsIn(Step(y, op).mem, hist + [op])
  {
    hide Known, Text.TrimSpace, Booked, OpeningIn, Wrap, EntryAsIn, Recorded, Refusal, EntryFor, Books, BalanceAsIn;
    var s, u, more := y.mem, Step(y, op).mem, hist + [op];
    RefusedAsIn(s, hist, op.charge);
    HistoryNext(hist, op, "");
    assert Booked(hist) + [] == Booked(hist);
    forall id
      ensures BalanceAsIn(u, more, id)
    {
      assert BalanceAsIn(s, hist, id);
      ChargeBalance(s, hist, op, id);
    }
    forall k | 0 <= k < |u.ledger|
      ensures EntryAsIn(u, more, k)
    {
      if k < |s.ledger| {
        assert EntryAsIn(s, hist, k);
        EntryStays(s, u, hist, op, k);
      } else {
        NewEntry(s, hist, op);
      }
    }
  }

  lemma ChargeBalance(s: Store, hist: seq<Op>, op: Op, id: CustomerID)
    requires BalanceAsIn(s, hist, id) && op.DoCharge?
    requires Books(hist, op.charge) <==> Refusal(s, op.charge).None? && !Recorded(s.ledger, op.charge)
    ensures BalanceAsIn(Charged(s, op.charge, op.now), hist + [op], id)
  {
    hide Known, Text.TrimSpace, Booked, OpeningIn, Wrap, Recorded, EntryFor, Books;
    var c := op.charge;
    KnownNext(hist, op, id);
    HistoryNext(hist, op, id);
    assert Booked(hist) + [] == Booked(hist);
    if Books(hist, c) {
      SumsNext(Booked(hist), (c, op.now), id);
      WrapAdd(Credits(hist, id), c.amount);
      WrapAdd(Credits(hist, id), -c.amount);
    }
  }

  lemma NewEntry(s: Store, hist: seq<Op>, op: Op)
    requires op.DoCharge? && BalanceAsIn(s, hist, Text.TrimSpace(op.charge.id)) && |s.ledger| == |Booked(hist)|
    requires Books(hist, op.charge) && Refusal(s, op.charge).None? && !Recorded(s.ledger, op.charge)
    ensures |Booked(hist + [op])| == |s.ledger| + 1
    ensures EntryAsIn(Charged(s, op.charge, op.now), hist + [op], |s.ledger|)
  {
    hide Known, Text.TrimSpace, Booked, OpeningIn, Wrap, Recorded, Books;
    var c, id := op.charge, Text.TrimSpace(op.charge.id);
    HistoryNext(hist, op, id);
    SumsNext(Booked(hist), (c, op.now), id);
    WrapAdd(Credits(hist, id), c.amount);
    WrapAdd(Credits(hist, id), -c.amount);
    assert Booked(hist + [op])[..|s.ledger| + 1] == Booked(hist + [op]);
  }

  // ----- whole runs ---------------------------------------------------------------------------------------

  /**
   After any run, memory holds the customers, the balances and the ledger that the
   surviving operations and their amounts account for, failed saves and restarts included.
   */
  lemma {:induction false} MemoryAsIn(ops: seq<Op>)
    ensures AsIn(Run(ops).mem, Surviving(ops))
    decreases |ops|
  {
    hide AsIn, Step, Writes;
    if ops == [] {
      EmptyAsIn();
    } else {
      var front, op := ops[..|ops| - 1], ops[|ops| - 1];
      var y := Run(front);
      match op {
        case Restart =>
          var n := LastWrite(front);
          DiskIsLastWrite(front);
          MemoryAsIn(front[..n]);
          RestartedMemory(y);
        case DoUpsert(_, _, _) =>
          MemoryAsIn(front);
          UpsertAsIn(y, Surviving(front), op);
        case DoCharge(_, _, _) =>
          MemoryAsIn(front);
          ChargeAsIn(y, Surviving(front), op);
      }
    }
  }

  lemma EmptyAsIn()
    ensures AsIn(EMPTY, [])
  {
  }

  lemma RestartedMemory(y: Sys)
    ensures Step(y, Restart).mem == y.disk
  {
  }

  /** The same of the file, by the history up to the last operation that wrote it. */
  lemma FileAsIn(ops: seq<Op>)
    ensures AsIn(Run(ops).disk, Surviving(ops[..LastWrite(ops)]))
  {
    DiskIsLastWrite(ops);
    MemoryAsIn(ops[..LastWrite(ops)]);
  }

  /**
   While the sum fits 64 bits a customer's balance is the credits it was created with, plus
   the amounts of its top-ups, minus those of its deductions and usage.
   */
  lemma BalanceIsWhatWasAsked(ops: seq<Op>, id: CustomerID)
    ensures var s, hist := Run(ops).mem, Surviving(ops);
      var sum := OpeningIn(hist, id) + ToppedUp(Booked(hist), id) - TakenOff(Booked(hist), id);
      && (id in s.customers <==> Known(hist, id))
      && (id in s.customers && -0x8000_0000_0000_0000 <= sum < 0x8000_0000_0000_0000 ==>
            s.customers[id].balance == sum)
  {
    hide Known, Booked, OpeningIn;
    MemoryAsIn(ops);
    assert BalanceAsIn(Run(ops).mem, Surviving(ops), id);
  }

  /** Which charges the service refuses, and why, and which of the others it books. */
  lemma ChargesByHistory(ops: seq<Op>, c: Charge)
    ensures var s, hist := Run(ops).mem, Surviving(ops);
      && Refusal(s, c) == (if c.amount <= 0 then Some(InvalidAmount)
                           else if !Known(hist, Text.TrimSpace(c.id)) then Some(CustomerNotFound) else None)
      && (Books(hist, c) <==> Refusal(s, c).None? && !Recorded(s.ledger, c))
  {
    MemoryAsIn(ops);
    RefusedAsIn(Run(ops).mem, Surviving(ops), c);
  }

  // ----- profiles -----------------------------------------------------------------------------------------

  /** The last non-blank address given for a customer, "" if none was. */
  function EmailIn(hist: seq<Op>, id: CustomerID): string {
    if hist == [] then ""
    else
      var op := hist[|hist| - 1];
      if Creates(op, id) && Text.TrimSpace(op.input.email) != "" then Text.TrimSpace(op.input.email)
      else EmailIn(hist[..|hist| - 1], id)
  }

  function NameIn(hist: seq<Op>, id: CustomerID): string {
    if hist == [] then ""
    else
      var op := hist[|hist| - 1];
      if Creates(op, id) && Text.TrimSpace(op.input.displayName) != "" then Text.TrimSpace(op.input.displayName)
      else NameIn(hist[..|hist| - 1], id)
  }

  /** The last flag given; nobody is verified, and everybody active, until told otherwise. */
  predicate VerifiedIn(hist: seq<Op>, id: CustomerID) {
    hist != [] &&
    var op := hist[|hist| - 1];
    if Creates(op, id) && op.input.emailVerified.Some? then op.input.emailVerified.value
    else VerifiedIn(hist[..|hist| - 1], id)
  }

  predicate ActiveIn(hist: seq<Op>, id: CustomerID) {
    hist == [] ||
    var op := hist[|hist| - 1];
    if Creates(op, id) && op.input.active.Some? then op.input.active.value
    else ActiveIn(hist[..|hist| - 1], id)
  }

  ghost predicate ProfileAsIn(s: Store, hist: seq<Op>, id: CustomerID) {
    if id in s.customers then
      var c := s.customers[id];
      && c.email == EmailIn(hist, id) && c.displayName == NameIn(hist, id)
      && c.emailVerified == VerifiedIn(hist, id) && c.active == ActiveIn(hist, id)
    else EmailIn(hist, id) == NameIn(hist, id) == "" && !VerifiedIn(hist, id) && ActiveIn(hist, id)
  }

  lemma ProfileNext(y: Sys, hist: seq<Op>, op: Op, id: CustomerID)
    requires ProfileAsIn(y.mem, hist, id) && !op.Restart? && (id == "" ==> id !in y.mem.customers)
    ensures ProfileAsIn(Step(y, op).mem, hist + [op], id)
  {
    hide Text.TrimSpace, Wrap, Recorded, EntryFor;
    var more := hist + [op];
    assert more[..|hist|] == hist && more[|hist|] == op;
  }

  /** After any run each customer's profile is what was last given among the surviving operations. */
  lemma {:induction false} ProfileIsLastGiven(ops: seq<Op>, id: CustomerID)
    ensures ProfileAsIn(Run(ops).mem, Surviving(ops), id)
    decreases |ops|
  {
    hide ProfileAsIn, Step, Writes;
    if ops == [] {
      NoProfile(id);
    } else {
      var front, op := ops[..|ops| - 1], ops[|ops| - 1];
      var y := Run(front);
      if op.Restart? {
        DiskIsLastWrite(front);
        ProfileIsLastGiven(front[..LastWrite(front)], id);
        RestartedMemory(y);
      } else {
        ProfileIsLastGiven(front, id);
        BlankIsNobody(front);
        ProfileNext(y, Surviving(front), op, id);
      }
    }
  }

  lemma NoProfile(id: CustomerID)
    ensures ProfileAsIn(EMPTY, [], id)
  {
  }

  lemma BlankIsNobody(ops: seq<Op>)
    ensures "" !in Run(ops).mem.customers
  {
    MemoryAsIn(ops);
    BlankIsUnknown(Surviving(ops));
    assert BalanceAsIn(Run(ops).mem, Surviving(ops), "");
  }
}
