/** The retained usage records as a plain FIFO: what each queue operation means. */
module Fifo {
  import opened Bytes

  type Payload = Bytes

  datatype Item = Item(enqueuedAt: int, payload: Payload)

  const DEFAULT_RETENTION := 60
  const MAX_RETENTION := 3600
  const SECOND := 1_000_000_000

  /** SetRetentionSeconds: what is stored for a configured value. */
  function NormalRetention(value: int): (r: int)
    ensures 0 < r <= MAX_RETENTION
    ensures 0 < value <= 3600 ==> r == value
    ensures value <= 0 ==> r == 60
    ensures value > 3600 ==> r == 3600
  {
    if value <= 0 then DEFAULT_RETENTION else if value > MAX_RETENTION then MAX_RETENTION else value
  }

  /** Items enqueued before this moment have expired; a non-positive window means the default. */
  function Cutoff(now: int, windowSeconds: int): int {
    now - (if windowSeconds <= 0 then DEFAULT_RETENTION else windowSeconds) * SECOND
  }

  /** Expired items leave from the front, up to the first one that has not expired. */
  function Prune(c: seq<Item>, cutoff: int): seq<Item> {
    if c != [] && c[0].enqueuedAt < cutoff then Prune(c[1..], cutoff) else c
  }

  function Unexpired(c: seq<Item>, cutoff: int): seq<Item> {
    if c == [] then []
    else if c[0].enqueuedAt < cutoff then Unexpired(c[1..], cutoff)
    else [c[0]] + Unexpired(c[1..], cutoff)
  }

  function Payloads(c: seq<Item>): seq<Payload> {
    seq(|c|, i requires 0 <= i < |c| => c[i].payload)
  }

  /** How many items a prune takes off. */
  function Gone(c: seq<Item>, cutoff: int): nat {
    if c != [] && c[0].enqueuedAt < cutoff then 1 + Gone(c[1..], cutoff) else 0
  }

  lemma {:induction false} PruneIsSuffix(c: seq<Item>, cutoff: int)
    ensures Gone(c, cutoff) <= |c|
    ensures Prune(c, cutoff) == c[Gone(c, cutoff)..]
    ensures forall i :: 0 <= i < Gone(c, cutoff) ==> c[i].enqueuedAt < cutoff
    ensures Gone(c, cutoff) < |c| ==> c[Gone(c, cutoff)].enqueuedAt >= cutoff
  {
    if c != [] && c[0].enqueuedAt < cutoff {
      PruneIsSuffix(c[1..], cutoff);
      forall i | 0 <= i < Gone(c, cutoff)
        ensures c[i].enqueuedAt < cutoff
      {
        if i > 0 { assert c[i] == c[1..][i - 1]; }
      }
    }
  }

  /** No expired item waits behind one that has not expired. */
  ghost predicate ExpiredFirst(c: seq<Item>, cutoff: int) {
    forall i, j :: 0 <= i < j < |c| && c[j].enqueuedAt < cutoff ==> c[i].enqueuedAt < cutoff
  }

  lemma {:induction false} UnexpiredKeepsOnlyFresh(c: seq<Item>, cutoff: int)
    ensures |Unexpired(c, cutoff)| <= |c|
    ensures Unexpired(c, cutoff) == c <==> forall i :: 0 <= i < |c| ==> c[i].enqueuedAt >= cutoff
  {
    if c != [] {
      UnexpiredKeepsOnlyFresh(c[1..], cutoff);
      var rest := c[1..];
      if c[0].enqueuedAt >= cutoff {
        assert Unexpired(c, cutoff)[1..] == Unexpired(rest, cutoff);
        if Unexpired(rest, cutoff) == rest {
          assert c == [c[0]] + rest;
          forall i | 0 <= i < |c|
            ensures c[i].enqueuedAt >= cutoff
          {
            if i > 0 { assert c[i] == rest[i - 1]; }
          }
        } else {
          var i :| 0 <= i < |rest| && rest[i].enqueuedAt < cutoff;
          assert c[i + 1].enqueuedAt < cutoff;
        }
      }
    }
  }

  /**
   A prune removes exactly the expired items if and only if none of them waits behind
   an unexpired one; with non-decreasing time stamps that is always so.
   */
  lemma {:induction false} PruneRemovesExactlyTheExpired(c: seq<Item>, cutoff: int)
    ensures Prune(c, cutoff) == Unexpired(c, cutoff) <==> ExpiredFirst(c, cutoff)
  {
    if c != [] {
      var rest := c[1..];
      if c[0].enqueuedAt < cutoff {
        PruneRemovesExactlyTheExpired(rest, cutoff);
        ExpiredFirstTail(c, cutoff);
      } else {
        UnexpiredKeepsOnlyFresh(c, cutoff);
        if ExpiredFirst(c, cutoff) {
          forall i | 0 <= i < |c|
            ensures c[i].enqueuedAt >= cutoff
          {
          }
        }
      }
    }
  }

  lemma ExpiredFirstTail(c: seq<Item>, cutoff: int)
    requires c != [] && c[0].enqueuedAt < cutoff
    ensures ExpiredFirst(c, cutoff) <==> ExpiredFirst(c[1..], cutoff)
  {
    var rest := c[1..];
    if ExpiredFirst(c, cutoff) {
      forall i, j | 0 <= i < j < |rest| && rest[j].enqueuedAt < cutoff
        ensures rest[i].enqueuedAt < cutoff
      {
        assert c[j + 1] == rest[j] && c[i + 1] == rest[i];
      }
    }
    if ExpiredFirst(rest, cutoff) {
      forall i, j | 0 <= i < j < |c| && c[j].enqueuedAt < cutoff
        ensures c[i].enqueuedAt < cutoff
      {
        if i > 0 { assert c[i] == rest[i - 1] && c[j] == rest[j - 1]; }
      }
    }
  }

  lemma SortedMeansExpiredFirst(c: seq<Item>, cutoff: int)
    requires forall i, j :: 0 <= i < j < |c| ==> c[i].enqueuedAt <= c[j].enqueuedAt
    ensures ExpiredFirst(c, cutoff) && Prune(c, cutoff) == Unexpired(c, cutoff)
  {
    PruneRemovesExactlyTheExpired(c, cutoff);
  }

  // ----- runs: the fate of every record ever queued --------------------------------------

  datatype Op =
    | Enqueue(payload: Payload, now: int, window: int)
    | Pop(count: int, now: int, window: int)
    | Clear

  /** Handed out or expired at a clock reading, under the retention window then in force; or cleared. */
  datatype Fate = Delivered(at: int, window: int) | Expired(at: int, window: int) | Cleared

  /** `fates[i]` says how the i-th record ever queued left the queue. */
  datatype History = History(contents: seq<Item>, all: seq<Item>, fates: seq<Fate>, out: seq<Payload>)

  const START := History([], [], [], [])

  function Repeat(f: Fate, n: nat): (r: seq<Fate>)
    ensures |r| == n && forall i :: 0 <= i < n ==> r[i] == f
  {
    seq(n, _ => f)
  }

  function Pruned(h: History, now: int, window: int): History {
    var cutoff := Cutoff(now, window);
    h.(contents := Prune(h.contents, cutoff),
       fates := h.fates + Repeat(Expired(now, window), Gone(h.contents, cutoff)))
  }

  /** What popOldest hands out. */
  function Taken(count: int, available: nat): nat {
    if count <= 0 then 0 else if count > available then available else count
  }

  function Step(h: History, op: Op): History {
    match op
    case Enqueue(p, now, window) =>
      var g := Pruned(h, now, window);
      g.(contents := g.contents + [Item(now, p)], all := g.all + [Item(now, p)])
    case Pop(count, now, window) =>
      var g := Pruned(h, now, window);
      var k := Taken(count, |g.contents|);
      g.(contents := g.contents[k..], fates := g.fates + Repeat(Delivered(now, window), k),
         out := g.out + Payloads(g.contents[..k]))
    case Clear =>
      h.(contents := [], fates := h.fates + Repeat(Cleared, |h.contents|))
  }

  function RunOps(ops: seq<Op>): History {
    if ops == [] then START else Step(RunOps(ops[..|ops| - 1]), ops[|ops| - 1])
  }

  /** The delivered records, in the order they were queued. */
  function DeliveredOf(all: seq<Item>, fates: seq<Fate>): seq<Payload>
    requires |fates| <= |all|
  {
    if fates == [] then []
    else
      var n := |fates| - 1;
      DeliveredOf(all, fates[..n]) + (if fates[n].Delivered? then [all[n].payload] else [])
  }

  /** More than `window` seconds have gone by since the record was queued; 60 if the window is not positive. */
  predicate Outlived(item: Item, at: int, window: int) {
    at - item.enqueuedAt > (if window > 0 then window else 60) * 1_000_000_000
  }

  ghost predicate Accounted(h: History) {
    && |h.fates| <= |h.all|
    && h.contents == h.all[|h.fates|..]
    && h.out == DeliveredOf(h.all, h.fates)
    && (forall i :: 0 <= i < |h.fates| && h.fates[i].Expired? ==>
          Outlived(h.all[i], h.fates[i].at, h.fates[i].window))
  }

  lemma {:induction false} DeliveredOfPrefix(all: seq<Item>, more: seq<Item>, fates: seq<Fate>)
    requires |fates| <= |all|
    ensures DeliveredOf(all + more, fates) == DeliveredOf(all, fates)
  {
    if fates != [] { DeliveredOfPrefix(all, more, fates[..|fates| - 1]); }
  }

  lemma {:induction false} DeliveredOfRepeat(all: seq<Item>, fates: seq<Fate>, f: Fate, n: nat)
    requires |fates| + n <= |all|
    ensures DeliveredOf(all, fates + Repeat(f, n))
      == DeliveredOf(all, fates) + (if f.Delivered? then Payloads(all[|fates|..|fates| + n]) else [])
  {
    hide Payloads, Repeat;
    if n == 0 {
      NoRepeat(all, fates, f);
    } else {
      DeliveredOfRepeat(all, fates, f, n - 1);
      RepeatSnoc(fates, f, n);
      PayloadsSnoc(all, |fates|, n);
    }
  }

  lemma NoRepeat(all: seq<Item>, fates: seq<Fate>, f: Fate)
    requires |fates| <= |all|
    ensures fates + Repeat(f, 0) == fates && Payloads(all[|fates|..|fates|]) == []
  {
  }

  lemma RepeatSnoc(fates: seq<Fate>, f: Fate, n: nat)
    requires n > 0
    ensures fates + Repeat(f, n) == fates + Repeat(f, n - 1) + [f]
    ensures (fates + Repeat(f, n))[..|fates| + n - 1] == fates + Repeat(f, n - 1)
  {
  }

  lemma PayloadsSnoc(all: seq<Item>, i: nat, n: nat)
    requires n > 0 && i + n <= |all|
    ensures Payloads(all[i..i + n]) == Payloads(all[i..i + n - 1]) + [all[i + n - 1].payload]
  {
  }

  /** Taking the first n records off with one fate keeps the account. */
  lemma AccountedAfterLeaving(h: History, f: Fate, n: nat, out: seq<Payload>)
    requires Accounted(h) && n <= |h.contents|
    requires f.Expired? ==> forall i :: 0 <= i < n ==> Outlived(h.contents[i], f.at, f.window)
    requires out == h.out + (if f.Delivered? then Payloads(h.contents[..n]) else [])
    ensures Accounted(History(h.contents[n..], h.all, h.fates + Repeat(f, n), out))
  {
    DeliveredOfRepeat(h.all, h.fates, f, n);
    assert h.contents[..n] == h.all[|h.fates|..|h.fates| + n];
    var fates := h.fates + Repeat(f, n);
    forall i | 0 <= i < |fates| && fates[i].Expired?
      ensures Outlived(h.all[i], fates[i].at, fates[i].window)
    {
      if i >= |h.fates| { assert h.all[i] == h.contents[i - |h.fates|]; }
    }
  }

  lemma PrunedIsAccounted(h: History, now: int, window: int)
    requires Accounted(h)
    ensures Accounted(Pruned(h, now, window))
  {
    var cutoff := Cutoff(now, window);
    PruneIsSuffix(h.contents, cutoff);
    AccountedAfterLeaving(h, Expired(now, window), Gone(h.contents, cutoff), h.out);
  }

  lemma StepIsAccounted(h: History, op: Op)
    requires Accounted(h)
    ensures Accounted(Step(h, op))
  {
    match op
    case Enqueue(p, now, window) =>
      PrunedIsAccounted(h, now, window);
      var g := Pruned(h, now, window);
      DeliveredOfPrefix(g.all, [Item(now, p)], g.fates);
    case Pop(count, now, window) =>
      PrunedIsAccounted(h, now, window);
      var g := Pruned(h, now, window);
      var k := Taken(count, |g.contents|);
      AccountedAfterLeaving(g, Delivered(now, window), k, g.out + Payloads(g.contents[..k]));
    case Clear =>
      AccountedAfterLeaving(h, Cleared, |h.contents|, h.out);
      assert h.contents[|h.contents|..] == [];
  }

  /**
   Over any run, every record ever queued is still waiting, in order, or left in order by
   delivery, by expiry (it really had outlived the retention window of that moment) or by a
   clear; and what was handed out is exactly the delivered ones, in order, each once.
   */
  lemma {:induction false} EveryRecordIsAccountedFor(ops: seq<Op>)
    ensures Accounted(RunOps(ops))
  {
    if ops != [] {
      EveryRecordIsAccountedFor(ops[..|ops| - 1]);
      StepIsAccounted(RunOps(ops[..|ops| - 1]), ops[|ops| - 1]);
    }
  }

  // ----- runs under a clock that does not go back -------------------------------------------

  /** Clock readings never decrease from one operation to a later one; a clear reads no clock. */
  ghost predicate InOrder(ops: seq<Op>) {
    forall i, j :: 0 <= i < j < |ops| && !ops[i].Clear? && !ops[j].Clear? ==> ops[i].now <= ops[j].now
  }

  ghost predicate Sorted(c: seq<Item>) {
    forall i, j :: 0 <= i < j < |c| ==> c[i].enqueuedAt <= c[j].enqueuedAt
  }

  ghost predicate NoLaterThan(c: seq<Item>, t: int) {
    forall i :: 0 <= i < |c| ==> c[i].enqueuedAt <= t
  }

  lemma {:induction false} RunStaysSorted(ops: seq<Op>, t: int)
    requires InOrder(ops) && forall i :: 0 <= i < |ops| ==> ops[i].Clear? || ops[i].now <= t
    ensures Sorted(RunOps(ops).contents) && NoLaterThan(RunOps(ops).contents, t)
  {
    if ops != [] {
      var front, op := ops[..|ops| - 1], ops[|ops| - 1];
      RunStaysSorted(front, if op.Clear? then t else op.now);
      if !op.Clear? { PruneIsSuffix(RunOps(front).contents, Cutoff(op.now, op.window)); }
    }
  }

  /** So every prune of such a run removes exactly the expired records. */
  lemma PruneIsExactThroughout(ops: seq<Op>, cutoff: int)
    requires InOrder(ops)
    ensures Prune(RunOps(ops).contents, cutoff) == Unexpired(RunOps(ops).contents, cutoff)
  {
    RunStaysSorted(ops, LastReading(ops));
    SortedMeansExpiredFirst(RunOps(ops).contents, cutoff);
  }

  /** Handed out within the window. */
  ghost predicate InTime(h: History, i: nat)
    requires i < |h.fates| <= |h.all|
  {
    h.fates[i].Delivered? ==> !Outlived(h.all[i], h.fates[i].at, h.fates[i].window)
  }

  /**
   And in such a run nothing is handed out that has outlived the window in force, nor left
   waiting by the prune that every enqueue and every pop begins with.
   */
  lemma {:induction false} NothingOutlivesTheWindow(ops: seq<Op>)
    requires InOrder(ops)
    ensures var h := RunOps(ops);
      && |h.fates| <= |h.all|
      && (forall i :: 0 <= i < |h.fates| ==> InTime(h, i))
      && (ops != [] && !ops[|ops| - 1].Clear? ==>
            var op := ops[|ops| - 1];
            forall i :: 0 <= i < |h.contents| ==> !Outlived(h.contents[i], op.now, op.window))
  {
    EveryRecordIsAccountedFor(ops);
    if ops != [] {
      var front, op := ops[..|ops| - 1], ops[|ops| - 1];
      NothingOutlivesTheWindow(front);
      EveryRecordIsAccountedFor(front);
      if !op.Clear? { KeptInTime(ops, front, op); }
      StepInTime(RunOps(front), op);
    }
  }

  /** What a prune of an ordered queue keeps has not outlived the window. */
  lemma KeptInTime(ops: seq<Op>, front: seq<Op>, op: Op)
    requires InOrder(ops) && ops == front + [op] && !op.Clear?
    ensures forall x :: x in Pruned(RunOps(front), op.now, op.window).contents ==> !Outlived(x, op.now, op.window)
  {
    var c, cutoff := RunOps(front).contents, Cutoff(op.now, op.window);
    forall i, j | 0 <= i < j < |front| && !front[i].Clear? && !front[j].Clear?
      ensures front[i].now <= front[j].now
    {
      assert ops[i] == front[i] && ops[j] == front[j];
    }
    forall i | 0 <= i < |front|
      ensures front[i].Clear? || front[i].now <= op.now
    {
      assert ops[i] == front[i] && ops[|front|] == op;
    }
    RunStaysSorted(front, op.now);
    PruneIsSuffix(c, cutoff);
  }

  lemma StepInTime(h: History, op: Op)
    requires Accounted(h) && forall i :: 0 <= i < |h.fates| ==> InTime(h, i)
    requires !op.Clear? ==>
      forall x :: x in Pruned(h, op.now, op.window).contents ==> !Outlived(x, op.now, op.window)
    ensures var u := Step(h, op);
      && |u.fates| <= |u.all|
      && (forall i :: 0 <= i < |u.fates| ==> InTime(u, i))
      && (!op.Clear? ==> forall i :: 0 <= i < |u.contents| ==> !Outlived(u.contents[i], op.now, op.window))
  {
    hide Outlived;
    StepIsAccounted(h, op);
    var u := Step(h, op);
    forall i | 0 <= i < |u.fates|
      ensures InTime(u, i)
    {
      if i < |h.fates| {
        assert InTime(h, i);
      } else if u.fates[i].Delivered? {
        PrunedIsAccounted(h, op.now, op.window);
        var g := Pruned(h, op.now, op.window);
        assert u.all[i] == g.contents[i - |g.fates|];
      }
    }
    if !op.Clear? {
      JustQueued(op.now, op.window, if op.Enqueue? then op.payload else []);
      var g := Pruned(h, op.now, op.window);
      forall i | 0 <= i < |u.contents|
        ensures !Outlived(u.contents[i], op.now, op.window)
      {
        if u.contents[i] !in g.contents { assert op.Enqueue? && u.contents[i] == Item(op.now, op.payload); }
      }
    }
  }

  lemma JustQueued(now: int, window: int, p: Payload)
    ensures !Outlived(Item(now, p), now, window)
  {
  }

  function LastReading(ops: seq<Op>): (t: int)
    ensures InOrder(ops) ==> forall i :: 0 <= i < |ops| ==> ops[i].Clear? || ops[i].now <= t
  {
    if ops == [] then 0
    else if ops[|ops| - 1].Clear? then LastReading(ops[..|ops| - 1])
    else ops[|ops| - 1].now
  }
}
