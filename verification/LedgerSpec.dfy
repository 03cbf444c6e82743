/**
 Customer credits: balances, the ledger that explains them, and the file they are saved
 to. Every operation is one region under the service's lock; whether its save succeeds is
 up to the environment, and the process may restart from the file at any point.
 */
module LedgerSpec {
  import opened Prelude
  import Text

  type CustomerID = string

  datatype Kind = TopUp | Deduction | Usage

  datatype Customer = Customer(email: string, displayName: string, emailVerified: bool, active: bool,
                               balance: int, createdAt: int, updatedAt: int)

  datatype Entry = Entry(customer: CustomerID, kind: Kind, delta: int, balanceAfter: int, reason: string,
                         actor: string, requestID: string, provider: string, model: string, createdAt: int)

  /** `opening` records the credits a customer was created with; no ledger entry does. */
  datatype Store = Store(customers: map<CustomerID, Customer>, ledger: seq<Entry>, opening: map<CustomerID, int>)

  const EMPTY := Store(map[], [], map[])

  /** Memory, and what the state file holds. */
  datatype Sys = Sys(mem: Store, disk: Store)

  datatype Failure = CustomerNotFound | InvalidAmount | PersistFailed

  /** int64 arithmetic wraps. */
  function Wrap(x: int): (r: int)
    ensures -0x8000_0000_0000_0000 <= r < 0x8000_0000_0000_0000
    ensures -0x8000_0000_0000_0000 <= x < 0x8000_0000_0000_0000 ==> r == x
  {
    (x + 0x8000_0000_0000_0000) % 0x1_0000_0000_0000_0000 - 0x8000_0000_0000_0000
  }

  lemma WrapAdd(a: int, b: int)
    ensures Wrap(Wrap(a) + b) == Wrap(a + b)
  {
    var m := 0x1_0000_0000_0000_0000;
    var k := (a + 0x8000_0000_0000_0000) / m;
    assert Wrap(a) == a - k * m;
    ModShift(a + b + 0x8000_0000_0000_0000, k);
  }

  lemma ModShift(x: int, k: int)
    ensures (x - k * 0x1_0000_0000_0000_0000) % 0x1_0000_0000_0000_0000 == x % 0x1_0000_0000_0000_0000
  {
  }

  // ----- operations -------------------------------------------------------------------------

  datatype Upsert = Upsert(id: string, email: string, displayName: string, emailVerified: Option<bool>,
                           active: Option<bool>, initialCredits: Option<int>)

  function Or<T>(o: Option<T>, default: T): T {
    if o.Some? then o.value else default
  }

  function OrText(s: string, default: string): string {
    if Text.TrimSpace(s) != "" then Text.TrimSpace(s) else default
  }

  /** UpsertCustomer's effect on memory; initial credits count only for a new customer. */
  function Upserted(s: Store, u: Upsert, now: int): Store {
    var id := Text.TrimSpace(u.id);
    if id == "" then s
    else if id !in s.customers then
      var credits := Wrap(Or(u.initialCredits, 0));
      s.(customers := s.customers[id := NewCustomer(u, credits, now)], opening := s.opening[id := credits])
    else
      s.(customers := s.customers[id := Updated(s.customers[id], u, now)])
  }

  function NewCustomer(u: Upsert, credits: int, now: int): Customer {
    Customer(Text.TrimSpace(u.email), Text.TrimSpace(u.displayName),
             Or(u.emailVerified, false), Or(u.active, true), credits, now, now)
  }

  /** Blank texts and absent flags leave a field alone; the balance is never touched. */
  function Updated(c: Customer, u: Upsert, now: int): Customer {
    c.(email := OrText(u.email, c.email), displayName := OrText(u.displayName, c.displayName),
       emailVerified := Or(u.emailVerified, c.emailVerified), active := Or(u.active, c.active), updatedAt := now)
  }

  /** A request to change a balance. Blank request ids are never remembered. */
  datatype Charge =
    | ChargeTopUp(id: string, amount: int, reason: string, actor: string)
    | ChargeDeduct(id: string, amount: int, reason: string, actor: string)
    | ChargeUsage(id: string, amount: int, requestID: string, provider: string, model: string)

  function Delta(c: Charge): int {
    if c.ChargeTopUp? then c.amount else -c.amount
  }

  function UsageReason(provider: string, model: string): string {
    if provider == "" && model == "" then "usage debit"
    else if provider == "" then model
    else if model == "" then provider
    else provider + ":" + model
  }

  function EntryFor(c: Charge, balanceAfter: int, now: int): (e: Entry)
    ensures e.customer == Text.TrimSpace(c.id) && e.delta == Delta(c) && e.balanceAfter == balanceAfter
    ensures e.kind == Usage <==> c.ChargeUsage?
    ensures c.ChargeUsage? ==> e.requestID == Text.TrimSpace(c.requestID)
  {
    match c
    case ChargeTopUp(id, amount, reason, actor) =>
      Entry(Text.TrimSpace(id), TopUp, amount, balanceAfter,
            Text.TrimSpace(reason), Text.TrimSpace(actor), "", "", "", now)
    case ChargeDeduct(id, amount, reason, actor) =>
      Entry(Text.TrimSpace(id), Deduction, -amount, balanceAfter,
            Text.TrimSpace(reason), Text.TrimSpace(actor), "", "", "", now)
    case ChargeUsage(id, amount, requestID, provider, model) =>
      var p, m := Text.TrimSpace(provider), Text.TrimSpace(model);
      Entry(Text.TrimSpace(id), Usage, -amount, balanceAfter,
            UsageReason(p, m), "", Text.TrimSpace(requestID), p, m, now)
  }

  /** The entry is the usage debit of this customer and non-blank request. */
  predicate IsDebitOf(e: Entry, id: CustomerID, requestID: string) {
    requestID != "" && e.customer == id && e.kind == Usage && e.requestID == requestID
  }

  /** Index of the first entry already recording this debit, or the ledger's length. */
  function FirstDebit(ledger: seq<Entry>, id: CustomerID, requestID: string): (n: nat)
    ensures n <= |ledger|
    ensures n < |ledger| ==> IsDebitOf(ledger[n], id, requestID)
    ensures forall i :: 0 <= i < n ==> !IsDebitOf(ledger[i], id, requestID)
  {
    if ledger == [] || IsDebitOf(ledger[0], id, requestID) then 0
    else 1 + FirstDebit(ledger[1..], id, requestID)
  }

  predicate Recorded(ledger: seq<Entry>, c: Charge) {
    c.ChargeUsage? && FirstDebit(ledger, Text.TrimSpace(c.id), Text.TrimSpace(c.requestID)) < |ledger|
  }

  /** Whether the charge reaches the books at all, and why not otherwise. */
  function Refusal(s: Store, c: Charge): Option<Failure> {
    if c.amount <= 0 then Some(InvalidAmount)
    else if Text.TrimSpace(c.id) == "" || Text.TrimSpace(c.id) !in s.customers then Some(CustomerNotFound)
    else None
  }

  /** TopUpCredits, DeductCredits and RecordUsageDebit: their effect on memory. */
  function Charged(s: Store, c: Charge, now: int): Store {
    if Refusal(s, c).Some? || Recorded(s.ledger, c) then s
    else
      var id := Text.TrimSpace(c.id);
      var balance := Wrap(s.customers[id].balance + Delta(c));
      s.(customers := s.customers[id := s.customers[id].(balance := balance, updatedAt := now)],
         ledger := s.ledger + [EntryFor(c, balance, now)])
  }

  datatype Op =
    | DoUpsert(input: Upsert, now: int, saved: bool)
    | DoCharge(charge: Charge, now: int, saved: bool)
    | Restart

  /** A save follows every change; a charge already recorded or refused saves nothing. */
  function Step(y: Sys, op: Op): Sys {
    match op
    case DoUpsert(u, now, saved) =>
      if Text.TrimSpace(u.id) == "" then y
      else
        var mem := Upserted(y.mem, u, now);
        Sys(mem, if saved then mem else y.disk)
    case DoCharge(c, now, saved) =>
      if Refusal(y.mem, c).Some? || Recorded(y.mem.ledger, c) then y
      else
        var mem := Charged(y.mem, c, now);
        Sys(mem, if saved then mem else y.disk)
    case Restart => Sys(y.disk, y.disk)
  }

  function Run(ops: seq<Op>): Sys {
    if ops == [] then Sys(EMPTY, EMPTY) else Step(Run(ops[..|ops| - 1]), ops[|ops| - 1])
  }

  // ----- conservation -------------------------------------------------------------------------

  /** The sum of one customer's ledger deltas, without wrap-around. */
  function Movements(ledger: seq<Entry>, id: CustomerID): int {
    if ledger == [] then 0
    else
      var last := ledger[|ledger| - 1];
      Movements(ledger[..|ledger| - 1], id) + (if last.customer == id then last.delta else 0)
  }

  function Opening(s: Store, id: CustomerID): int {
    if id in s.opening then s.opening[id] else 0
  }

  /** Entry i carries its customer's running balance. */
  ghost predicate RunningAt(s: Store, i: nat)
    requires i < |s.ledger|
  {
    var e := s.ledger[i];
    && e.customer in s.customers
    && e.balanceAfter == Wrap(Opening(s, e.customer) + Movements(s.ledger[..i + 1], e.customer))
  }

  /** Every balance is opening credits plus movements, and every entry shows its running balance. */
  ghost predicate Conserved(s: Store) {
    && s.customers.Keys == s.opening.Keys
    && (forall id :: id in s.customers ==>
          s.customers[id].balance == Wrap(Opening(s, id) + Movements(s.ledger, id)))
    && (forall i :: 0 <= i < |s.ledger| ==> RunningAt(s, i))
  }

  /** No customer was debited twice for one non-blank request. */
  ghost predicate DebitedOnce(ledger: seq<Entry>) {
    forall i, j, id, req :: 0 <= i < j < |ledger| && IsDebitOf(ledger[i], id, req) ==> !IsDebitOf(ledger[j], id, req)
  }

  lemma MovementsNext(ledger: seq<Entry>, e: Entry, id: CustomerID)
    ensures Movements(ledger + [e], id) == Movements(ledger, id) + (if e.customer == id then e.delta else 0)
  {
    assert (ledger + [e])[..|ledger|] == ledger;
  }

  /** Appending an entry with the right running balance, and updating its customer, conserves. */
  lemma AppendConserves(s: Store, id: CustomerID, e: Entry, c: Customer)
    requires Conserved(s) && id in s.customers && e.customer == id
    requires e.balanceAfter == Wrap(s.customers[id].balance + e.delta) && c.balance == e.balanceAfter
    ensures Conserved(s.(customers := s.customers[id := c], ledger := s.ledger + [e]))
  {
    hide Wrap, Movements, RunningAt;
    var t := s.(customers := s.customers[id := c], ledger := s.ledger + [e]);
    forall k | k in t.customers
      ensures t.customers[k].balance == Wrap(Opening(t, k) + Movements(t.ledger, k))
    {
      MovementsNext(s.ledger, e, k);
      WrapAdd(Opening(s, k) + Movements(s.ledger, k), e.delta);
    }
    forall i | 0 <= i < |t.ledger|
      ensures RunningAt(t, i)
    {
      if i < |s.ledger| { EarlierEntry(s, t, i); } else { LastEntry(t); }
    }
  }

  lemma EarlierEntry(s: Store, t: Store, i: nat)
    requires i < |s.ledger| && s.ledger <= t.ledger && RunningAt(s, i)
    requires t.opening == s.opening && s.customers.Keys <= t.customers.Keys
    ensures RunningAt(t, i)
  {
    assert t.ledger[..i + 1] == s.ledger[..i + 1];
  }

  lemma LastEntry(t: Store)
    requires t.ledger != [] && t.ledger[|t.ledger| - 1].customer in t.customers
    requires var e := t.ledger[|t.ledger| - 1];
      e.balanceAfter == Wrap(Opening(t, e.customer) + Movements(t.ledger, e.customer))
    ensures RunningAt(t, |t.ledger| - 1)
  {
    assert t.ledger[..|t.ledger|] == t.ledger;
  }

  lemma ChargedConserves(s: Store, c: Charge, now: int)
    requires Conserved(s)
    ensures Conserved(Charged(s, c, now))
  {
    if Charged(s, c, now) != s {
      var id := Text.TrimSpace(c.id);
      var balance := Wrap(s.customers[id].balance + Delta(c));
      AppendConserves(s, id, EntryFor(c, balance, now), s.customers[id].(balance := balance, updatedAt := now));
    }
  }

  lemma {:induction false} NoMovements(ledger: seq<Entry>, id: CustomerID)
    requires forall i :: 0 <= i < |ledger| ==> ledger[i].customer != id
    ensures Movements(ledger, id) == 0
  {
    if ledger != [] { NoMovements(ledger[..|ledger| - 1], id); }
  }

  lemma UpsertConserves(s: Store, u: Upsert, now: int)
    requires Conserved(s)
    ensures Conserved(Upserted(s, u, now))
  {
    hide Wrap, Movements, Text.TrimSpace, OrText;
    var t, id := Upserted(s, u, now), Text.TrimSpace(u.id);
    if id != "" {
      if id !in s.customers {
        forall i | 0 <= i < |s.ledger|
          ensures s.ledger[i].customer != id
        {
          assert RunningAt(s, i);
        }
        NoMovements(s.ledger, id);
      }
      forall i | 0 <= i < |t.ledger|
        ensures RunningAt(t, i)
      {
        assert RunningAt(s, i);
      }
    }
  }

  lemma ChargedDebitsOnce(s: Store, c: Charge, now: int)
    requires DebitedOnce(s.ledger)
    ensures DebitedOnce(Charged(s, c, now).ledger)
  {
    var t := Charged(s, c, now);
    if t != s {
      forall i, j, id, req | 0 <= i < j < |t.ledger| && IsDebitOf(t.ledger[i], id, req)
        ensures !IsDebitOf(t.ledger[j], id, req)
      {
        assert IsDebitOf(s.ledger[i], id, req);
        RecordedMeans(s.ledger, c);
      }
    }
  }

  /** Memory and file: both conserved, both debited once, the file's ledger an earlier memory ledger. */
  ghost predicate SysOk(y: Sys) {
    && Conserved(y.mem) && DebitedOnce(y.mem.ledger)
    && Conserved(y.disk) && DebitedOnce(y.disk.ledger)
    && y.disk.ledger <= y.mem.ledger
  }

  /**
   In every run, with saves failing wherever they like and restarts anywhere, each
   balance in memory and on disk is the opening credits plus that customer's ledger
   movements, every entry shows its running balance, no (customer, request) is debited
   twice, and the saved ledger is a prefix of the one in memory.
   */
  lemma {:induction false} EveryRunConserves(ops: seq<Op>)
    ensures SysOk(Run(ops))
  {
    if ops != [] {
      var y, op := Run(ops[..|ops| - 1]), ops[|ops| - 1];
      EveryRunConserves(ops[..|ops| - 1]);
      match op {
        case DoUpsert(u, now, saved) => UpsertConserves(y.mem, u, now);
        case DoCharge(c, now, saved) =>
          ChargedConserves(y.mem, c, now);
          ChargedDebitsOnce(y.mem, c, now);
        case Restart =>
      }
    }
  }

  /** While the true sum fits an int64, a balance is exactly opening credits plus movements. */
  lemma BalanceIsExact(ops: seq<Op>, id: CustomerID)
    requires id in Run(ops).mem.customers
    requires var s := Run(ops).mem;
      -0x8000_0000_0000_0000 <= Opening(s, id) + Movements(s.ledger, id) < 0x8000_0000_0000_0000
    ensures var s := Run(ops).mem;
      s.customers[id].balance == Opening(s, id) + Movements(s.ledger, id)
  {
    EveryRunConserves(ops);
  }

  // ----- retried debits ---------------------------------------------------------------------------

  /** A charge and the clock reading it is booked at. */
  type Timed = (Charge, int)

  /** A run of charges, each at its own time; refused ones and retries are part of the run. */
  function ChargeAll(s: Store, cs: seq<Timed>): Store {
    if cs == [] then s
    else
      var last := cs[|cs| - 1];
      Charged(ChargeAll(s, cs[..|cs| - 1]), last.0, last.1)
  }

  /** The charges that reach the books: not refused, not in the ledger before the run, not a retry of one that did. */
  function Reaching(s: Store, cs: seq<Timed>): seq<Timed> {
    if cs == [] then []
    else
      var before, last := Reaching(s, cs[..|cs| - 1]), cs[|cs| - 1];
      if Refusal(s, last.0).Some? || Recorded(s.ledger, last.0) || IsRetry(before, last.0) then before
      else before + [last]
  }

  predicate IsRetry(before: seq<Timed>, c: Charge) {
    && c.ChargeUsage? && Text.TrimSpace(c.requestID) != ""
    && exists i :: 0 <= i < |before| && SameDebit(before[i].0, c)
  }

  predicate SameDebit(a: Charge, b: Charge) {
    && a.ChargeUsage? && b.ChargeUsage?
    && Text.TrimSpace(a.id) == Text.TrimSpace(b.id) && Text.TrimSpace(a.requestID) == Text.TrimSpace(b.requestID)
  }

  lemma {:induction false} ChargeAllKeepsCustomers(s: Store, cs: seq<Timed>)
    ensures ChargeAll(s, cs).customers.Keys == s.customers.Keys
  {
    if cs != [] { ChargeAllKeepsCustomers(s, cs[..|cs| - 1]); }
  }

  lemma RefusalStays(s: Store, cs: seq<Timed>, c: Charge)
    ensures Refusal(ChargeAll(s, cs), c) == Refusal(s, c)
  {
    ChargeAllKeepsCustomers(s, cs);
  }

  predicate IsDebitFor(e: Entry, c: Charge) {
    c.ChargeUsage? && IsDebitOf(e, Text.TrimSpace(c.id), Text.TrimSpace(c.requestID))
  }

  lemma RecordedMeans(ledger: seq<Entry>, c: Charge)
    ensures Recorded(ledger, c) <==> exists i :: 0 <= i < |ledger| && IsDebitFor(ledger[i], c)
  {
  }

  lemma RecordedAfterCharge(s: Store, last: Charge, now: int, c: Charge)
    requires Refusal(s, last).None?
    ensures Recorded(Charged(s, last, now).ledger, c)
      <==> Recorded(s.ledger, c) || (c.ChargeUsage? && Text.TrimSpace(c.requestID) != "" && SameDebit(last, c))
  {
    var t := Charged(s, last, now);
    RecordedMeans(s.ledger, c);
    RecordedMeans(t.ledger, c);
    RecordedMeans(s.ledger, last);
    if t != s {
      assert t.ledger[|s.ledger|]
        == EntryFor(last, Wrap(s.customers[Text.TrimSpace(last.id)].balance + Delta(last)), now);
      forall i | 0 <= i < |s.ledger|
        ensures t.ledger[i] == s.ledger[i]
      {
      }
    }
  }

  lemma RetryOfLonger(before: seq<Timed>, last: Timed, c: Charge)
    ensures IsRetry(before + [last], c)
      <==> IsRetry(before, c) || (c.ChargeUsage? && Text.TrimSpace(c.requestID) != "" && SameDebit(last.0, c))
  {
    var all := before + [last];
    assert all[|before|] == last;
    if IsRetry(before, c) {
      var i :| 0 <= i < |before| && SameDebit(before[i].0, c);
      assert all[i] == before[i];
    }
  }

  /** A charge leaves the store alone exactly when it is refused or already recorded; otherwise it adds one entry. */
  lemma ChargeIsAbsorbedExactly(s: Store, c: Charge, now: int)
    ensures var absorbed := Refusal(s, c).Some? || Recorded(s.ledger, c);
      && (Charged(s, c, now) == s <==> absorbed)
      && |Charged(s, c, now).ledger| == |s.ledger| + if absorbed then 0 else 1
  {
  }

  /**
   After any run, a debit counts as recorded exactly if it was before the run or one that
   reached the books is the same debit; and the books grew by exactly those that reached them.
   */
  lemma {:induction false} RecordedAfterAll(s: Store, cs: seq<Timed>, c: Charge)
    ensures Recorded(ChargeAll(s, cs).ledger, c) <==> Recorded(s.ledger, c) || IsRetry(Reaching(s, cs), c)
    ensures |ChargeAll(s, cs).ledger| == |s.ledger| + |Reaching(s, cs)|
  {
    hide Charged, Recorded, Refusal, IsRetry, SameDebit, Text.TrimSpace;
    if cs == [] {
      NoRetryOfNothing(c);
    } else {
      var front, last := cs[..|cs| - 1], cs[|cs| - 1];
      var before := ChargeAll(s, front);
      RecordedAfterAll(s, front, c);
      RecordedAfterAll(s, front, last.0);
      RefusalStays(s, front, last.0);
      ChargeIsAbsorbedExactly(before, last.0, last.1);
      if Refusal(s, last.0).None? { RecordedAfterCharge(before, last.0, last.1, c); }
      RetryOfLonger(Reaching(s, front), last, c);
    }
  }

  lemma NoRetryOfNothing(c: Charge)
    ensures !IsRetry([], c)
  {
  }

  /**
   Any run of charges, whatever is refused and whenever each arrives, ends in exactly the
   state of the run of those that reach the books: a debit retried any number of times,
   later and with any amounts, is taken once, at its first accepted amount and time.
   */
  lemma {:induction false} RetriesChangeNothing(s: Store, cs: seq<Timed>)
    ensures ChargeAll(s, cs) == ChargeAll(s, Reaching(s, cs))
  {
    hide Charged, Recorded, Refusal, IsRetry;
    if cs != [] {
      var front, last := cs[..|cs| - 1], cs[|cs| - 1];
      var d := Reaching(s, front);
      RetriesChangeNothing(s, front);
      RecordedAfterAll(s, front, last.0);
      RefusalStays(s, front, last.0);
      ChargeIsAbsorbedExactly(ChargeAll(s, front), last.0, last.1);
      assert (d + [last])[..|d|] == d;
    }
  }

  /** After the run cs, charging c would book nothing: it is refused, or is the debit of one already booked. */
  predicate Absorbed(s: Store, cs: seq<Timed>, c: Charge) {
    Refusal(s, c).Some? || Recorded(s.ledger, c) || IsRetry(Reaching(s, cs), c)
  }

  /**
   A later batch, at its own times, changes nothing exactly when each of its charges is absorbed by what went
   before.
   */
  lemma {:induction false} ReplayChangesNothing(s: Store, cs: seq<Timed>, more: seq<Timed>)
    ensures ChargeAll(s, cs + more) == ChargeAll(s, cs) <==> forall i :: 0 <= i < |more| ==> Absorbed(s, cs, more[i].0)
    decreases |more|
  {
    hide Charged, Absorbed;
    if more == [] {
      assert cs + more == cs;
    } else {
      var front, last := more[..|more| - 1], more[|more| - 1];
      ReplayChangesNothing(s, cs, front);
      assert (cs + more)[..|cs + more| - 1] == cs + front;
      assert more == front + [last];
      ChargeIsAbsorbedExactly(ChargeAll(s, cs + front), last.0, last.1);
      AbsorbedMeans(s, cs, last.0);
      if ChargeAll(s, cs + front) != ChargeAll(s, cs) {
        LongerOrSame(s, cs, front);
      }
    }
  }

  lemma AbsorbedMeans(s: Store, cs: seq<Timed>, c: Charge)
    ensures Absorbed(s, cs, c) <==> Refusal(ChargeAll(s, cs), c).Some? || Recorded(ChargeAll(s, cs).ledger, c)
  {
    RecordedAfterAll(s, cs, c);
    RefusalStays(s, cs, c);
  }

  /** A run that changed anything made the ledger longer. */
  lemma {:induction false} LongerOrSame(s: Store, cs: seq<Timed>, more: seq<Timed>)
    ensures ChargeAll(s, cs + more) == ChargeAll(s, cs) || |ChargeAll(s, cs + more).ledger| > |ChargeAll(s, cs).ledger|
    decreases |more|
  {
    hide Charged;
    if more == [] {
      assert cs + more == cs;
    } else {
      var front, last := more[..|more| - 1], more[|more| - 1];
      LongerOrSame(s, cs, front);
      assert (cs + more)[..|cs + more| - 1] == cs + front;
      ChargeIsAbsorbedExactly(ChargeAll(s, cs + front), last.0, last.1);
    }
  }

  /** In particular, replaying identified usage debits of the run, at any later times, changes nothing. */
  lemma ReplayedDebitIsAbsorbed(s: Store, cs: seq<Timed>, c: Charge)
    requires c.ChargeUsage? && Text.TrimSpace(c.requestID) != "" && exists i :: 0 <= i < |cs| && cs[i].0 == c
    ensures Absorbed(s, cs, c)
  {
    if Refusal(s, c).None? && !Recorded(s.ledger, c) { ReachesBooks(s, cs, c); }
  }

  lemma {:induction false} ReachesBooks(s: Store, cs: seq<Timed>, c: Charge)
    requires c.ChargeUsage? && Text.TrimSpace(c.requestID) != "" && Refusal(s, c).None? && !Recorded(s.ledger, c)
    requires exists i :: 0 <= i < |cs| && cs[i].0 == c
    ensures IsRetry(Reaching(s, cs), c)
  {
    hide Refusal, Recorded;
    var front, last := cs[..|cs| - 1], cs[|cs| - 1];
    if last.0 != c {
      assert exists i :: 0 <= i < |front| && front[i].0 == c;
      ReachesBooks(s, front, c);
    }
    RetryOfLonger(Reaching(s, front), last, c);
  }

  // ----- what a successful reply does not promise ----------------------------------------------------

  /** RecordUsageDebit answers success: saved now, or found already recorded in memory. */
  predicate Acknowledged(y: Sys, c: Charge, saved: bool) {
    Refusal(y.mem, c).None? && (Recorded(y.mem.ledger, c) || saved)
  }

  /** The operation changes the store and its save succeeds. */
  predicate Writes(y: Sys, op: Op) {
    match op
    case DoUpsert(u, _, saved) => saved && Text.TrimSpace(u.id) != ""
    case DoCharge(c, _, saved) => saved && Refusal(y.mem, c).None? && !Recorded(y.mem.ledger, c)
    case Restart => false
  }

  /** Some successful save of the run came when this debit was recorded in memory. */
  ghost predicate SavedIn(ops: seq<Op>, c: Charge) {
    exists k :: 0 <= k < |ops| && SavedAt(ops, k, c)
  }

  ghost predicate SavedAt(ops: seq<Op>, k: nat, c: Charge)
    requires k < |ops|
  {
    Writes(Run(ops[..k]), ops[k]) && Recorded(Run(ops[..k + 1]).mem.ledger, c)
  }

  lemma SavedInLonger(front: seq<Op>, op: Op, c: Charge)
    ensures var ops := front + [op];
      SavedIn(ops, c) <==> SavedIn(front, c) || (Writes(Run(front), op) && Recorded(Run(ops).mem.ledger, c))
  {
    hide Run, Writes, Recorded;
    var ops := front + [op];
    assert ops[..|front|] == front && ops[..|front| + 1] == ops;
    forall k | 0 <= k < |front|
      ensures SavedAt(ops, k, c) <==> SavedAt(front, k, c)
    {
      assert ops[..k] == front[..k] && ops[..k + 1] == front[..k + 1];
    }
    assert SavedAt(ops, |front|, c) <==> Writes(Run(front), op) && Recorded(Run(ops).mem.ledger, c);
    if SavedIn(front, c) {
      var k :| 0 <= k < |front| && SavedAt(front, k, c);
      assert SavedAt(ops, k, c);
    }
  }

  /** What a step writes is all of memory; otherwise the file stays. Memory only grows until a restart. */
  lemma StepWrites(y: Sys, op: Op)
    ensures Step(y, op).disk == if Writes(y, op) then Step(y, op).mem else y.disk
    ensures op != Restart ==> y.mem.ledger <= Step(y, op).mem.ledger
  {
  }

  lemma RecordedStays(before: seq<Entry>, after: seq<Entry>, c: Charge)
    requires before <= after && Recorded(before, c)
    ensures Recorded(after, c)
  {
    RecordedMeans(before, c);
    RecordedMeans(after, c);
    var i :| 0 <= i < |before| && IsDebitFor(before[i], c);
    assert IsDebitFor(after[i], c);
  }

  /** After any run the file holds a debit exactly if some successful save came when it was recorded. */
  lemma {:induction false} DurableExactly(ops: seq<Op>, c: Charge)
    ensures Recorded(Run(ops).disk.ledger, c) <==> SavedIn(ops, c)
  {
    hide Recorded, Writes, Step;
    if ops == [] {
      NothingRecorded(c);
    } else {
      var front, op := ops[..|ops| - 1], ops[|ops| - 1];
      var y := Run(front);
      assert ops == front + [op];
      DurableExactly(front, c);
      SavedInLonger(front, op, c);
      StepWrites(y, op);
      EveryRunConserves(front);
      WritesIsNoRestart(y, op);
      if Recorded(y.disk.ledger, c) && Writes(y, op) {
        RecordedStays(y.disk.ledger, y.mem.ledger, c);
        RecordedStays(y.mem.ledger, Step(y, op).mem.ledger, c);
      }
    }
  }

  lemma WritesIsNoRestart(y: Sys, op: Op)
    ensures Writes(y, op) ==> op != Restart
  {
  }

  /**
   An acknowledged identified debit survives a restart if and only if this call booked it
   or an earlier successful save came when it was recorded: a retry answered from memory
   saves nothing.
   */
  lemma AcknowledgedDebitIsDurableExactly(ops: seq<Op>, c: Charge, now: int, saved: bool)
    requires c.ChargeUsage? && Text.TrimSpace(c.requestID) != "" && Acknowledged(Run(ops), c, saved)
    ensures Recorded(Run(ops + [DoCharge(c, now, saved), Restart]).mem.ledger, c)
      <==> !Recorded(Run(ops).mem.ledger, c) || SavedIn(ops, c)
  {
    var y, charge := Run(ops), DoCharge(c, now, saved);
    RunTwoMore(ops, charge, Restart);
    DurableExactly(ops, c);
    if !Recorded(y.mem.ledger, c) {
      RecordedAfterCharge(y.mem, c, now, c);
    }
  }

  lemma RunTwoMore(ops: seq<Op>, a: Op, b: Op)
    ensures Run(ops + [a, b]) == Step(Step(Run(ops), a), b)
  {
    hide Step;
    assert (ops + [a, b])[..|ops| + 1] == ops + [a] && (ops + [a])[..|ops|] == ops;
    assert Run(ops + [a]) == Step(Run(ops), a);
  }

  /** Such a loss can happen: a debit whose save failed, retried successfully, then a restart. */
  lemma AcknowledgedDebitCanBeLost() returns (ops: seq<Op>, c: Charge, now: int)
    ensures Acknowledged(Run(ops), c, true) && !Recorded(Run(ops + [DoCharge(c, now, true), Restart]).mem.ledger, c)
  {
    hide Text.TrimSpace, Run, Recorded, SavedIn, Step, Writes;
    c, now := ChargeUsage("u", 1, "r", "", ""), 2;
    var create, debit := DoUpsert(Upsert("u", "", "", None, None, Some(5)), 0, true), DoCharge(c, 1, false);
    ops := [create, debit];
    Text.TrimmedIsFixed("r");
    RunTwo(create, debit);
    UnsavedDebit();
    DurableExactly(ops, c);
    AcknowledgedDebitIsDurableExactly(ops, c, now, true);
  }

  lemma UnsavedDebit()
    ensures var c := ChargeUsage("u", 1, "r", "", "");
      var y := Step(Sys(EMPTY, EMPTY), DoUpsert(Upsert("u", "", "", None, None, Some(5)), 0, true));
      var z := Step(y, DoCharge(c, 1, false));
      Refusal(z.mem, c).None? && Recorded(z.mem.ledger, c) && !Recorded(z.disk.ledger, c)
  {
    hide Text.TrimSpace, FirstDebit;
    Text.TrimmedIsFixed("u");
    Text.TrimmedIsFixed("r");
    var c := ChargeUsage("u", 1, "r", "", "");
    var y := Step(Sys(EMPTY, EMPTY), DoUpsert(Upsert("u", "", "", None, None, Some(5)), 0, true));
    NothingRecorded(c);
    assert y.mem == y.disk && y.mem.ledger == [] && Refusal(y.mem, c).None?;
    RecordedAfterCharge(y.mem, c, 1, c);
  }

  lemma NothingRecorded(c: Charge)
    ensures !Recorded([], c)
  {
  }

  lemma RunTwo(a: Op, b: Op)
    ensures Run([a]) == Step(Sys(EMPTY, EMPTY), a) && Run([a, b]) == Step(Run([a]), b)
  {
    hide Step;
    assert [a][..0] == [] && [a, b][..1] == [a];
  }
}
