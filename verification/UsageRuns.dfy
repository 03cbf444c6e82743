/**
 Whole runs of the usage queue's public operations, subscribers included: the records
 retained are those of a plain FIFO under the retention last configured.
 */
module UsageRuns {
  import opened Fifo
  import opened PubSub
  import opened UsageFlow

  datatype Call =
    | SwitchTo(value: bool)
    | Retain(seconds: int)
    | Put(payload: Payload, now: int)
    | Take(count: int, now: int)
    | Elsewhere(move: Move)   // a subscriber comes, goes, receives or is closed

  const START := State(false, 60, EMPTY_BUS, [])

  function Apply(u: State, c: Call): State {
    match c
    case SwitchTo(value) => Switched(u, value)
    case Retain(seconds) => u.(retention := NormalRetention(seconds))
    case Put(p, now) => Enqueued(u, p, now)
    case Take(count, now) => Popped(u, count, now).0
    case Elsewhere(m) => u.(bus := PubSub.Next(u.bus, m))
  }

  function Run(calls: seq<Call>): State {
    if calls == [] then START else Apply(Run(calls[..|calls| - 1]), calls[|calls| - 1])
  }

  /** Everything handed out so far. */
  function Out(calls: seq<Call>): seq<Payload> {
    if calls == [] then []
    else
      var front, last := calls[..|calls| - 1], calls[|calls| - 1];
      Out(front) + (if last.Take? then Popped(Run(front), last.count, last.now).1 else [])
  }

  /** The seconds last configured, at least the default if not positive, at most an hour; 60 before that. */
  function Retention(calls: seq<Call>): int {
    if calls == [] then 60
    else
      var last := calls[|calls| - 1];
      if !last.Retain? then Retention(calls[..|calls| - 1])
      else if last.seconds <= 0 then 60
      else if last.seconds > 3600 then 3600
      else last.seconds
  }

  /** Last switched on. */
  predicate On(calls: seq<Call>) {
    calls != [] &&
    var last := calls[|calls| - 1];
    if last.SwitchTo? then last.value else On(calls[..|calls| - 1])
  }

  /** The FIFO operations the calls come to, each under the retention then in force. */
  function Queued(calls: seq<Call>): seq<Op> {
    if calls == [] then []
    else
      var front, last := calls[..|calls| - 1], calls[|calls| - 1];
      var window := Retention(front);
      Queued(front) + match last
        case SwitchTo(value) => if value then [] else [Clear]
        case Put(p, now) => if On(front) && p != [] && Run(front).bus.live == {} then [Enqueue(p, now, window)] else []
        case Take(count, now) => if On(front) && count > 0 then [Pop(count, now, window)] else []
        case _ => []
  }

  lemma RunOpsSnoc(q: seq<Op>, op: Op)
    ensures RunOps(q + [op]) == Step(RunOps(q), op)
  {
    assert (q + [op])[..|q|] == q;
  }

  lemma SwitchIsFifo(u: State, h: History, value: bool)
    requires u.items == h.contents
    ensures var v := Switched(u, value);
      v.retention == u.retention && v.enabled == value
      && if value then v.items == h.contents else v.items == Step(h, Clear).contents && Step(h, Clear).out == h.out
  {
    hide Clearing;
  }

  lemma PutIsFifo(u: State, h: History, p: Payload, now: int)
    requires u.items == h.contents
    ensures var v, g := Enqueued(u, p, now), Step(h, Enqueue(p, now, u.retention));
      && v.retention == u.retention && v.enabled == u.enabled
      && (if Accepts(u, p) && u.bus.live == {} then v.items == g.contents && g.out == h.out else v.items == h.contents)
  {
    hide Published, Prune, Cutoff;
  }

  lemma TakeIsFifo(u: State, h: History, count: int, now: int)
    requires u.items == h.contents
    ensures var (v, out), g := Popped(u, count, now), Step(h, Pop(count, now, u.retention));
      && v.retention == u.retention && v.enabled == u.enabled
      && (if u.enabled && count > 0 then v.items == g.contents && g.out == h.out + out
          else v.items == h.contents && out == [])
  {
    hide Prune, Cutoff, Taken;
  }

  /**
   Whatever is called and whoever subscribes, the retained records and everything handed
   out are those of the FIFO run: records queued while on and unsubscribed, taken while on,
   cleared by switching off, each step under the retention configured last.
   */
  lemma {:induction false} RunIsFifo(calls: seq<Call>)
    ensures var u, h := Run(calls), RunOps(Queued(calls));
      && u.items == h.contents && Out(calls) == h.out
      && u.retention == Retention(calls) && u.enabled == On(calls)
  {
    hide Enqueued, Popped, Switched, PubSub.Next, Step, RunOps;
    if calls == [] {
      NothingRun();
    } else {
      var front, last := calls[..|calls| - 1], calls[|calls| - 1];
      RunIsFifo(front);
      var u, q := Run(front), Queued(front);
      var h := RunOps(q);
      assert q + [] == q;
      match last {
        case SwitchTo(value) =>
          SwitchIsFifo(u, h, value);
          RunOpsSnoc(q, Clear);
        case Put(p, now) =>
          PutIsFifo(u, h, p, now);
          RunOpsSnoc(q, Enqueue(p, now, Retention(front)));
        case Take(count, now) =>
          TakeIsFifo(u, h, count, now);
          RunOpsSnoc(q, Pop(count, now, Retention(front)));
        case _ =>
      }
    }
  }

  lemma NothingRun()
    ensures RunOps([]) == Fifo.START
  {
  }

  /** The clock never goes back from one call to a later one. */
  ghost predicate ClockInOrder(calls: seq<Call>) {
    forall i, j :: 0 <= i < j < |calls| && Timed(calls[i]) && Timed(calls[j]) ==> calls[i].now <= calls[j].now
  }

  predicate Timed(c: Call) {
    c.Put? || c.Take?
  }

  ghost predicate NoLater(ops: seq<Op>, t: int) {
    forall k :: 0 <= k < |ops| && !ops[k].Clear? ==> ops[k].now <= t
  }

  lemma {:induction false} QueuedInOrder(calls: seq<Call>, t: int)
    requires ClockInOrder(calls) && forall i :: 0 <= i < |calls| && Timed(calls[i]) ==> calls[i].now <= t
    ensures InOrder(Queued(calls)) && NoLater(Queued(calls), t)
  {
    hide Retention, On, Run;
    if calls != [] {
      var front, last := calls[..|calls| - 1], calls[|calls| - 1];
      QueuedInOrder(front, if Timed(last) then last.now else t);
    }
  }

  /** Queued no longer ago than the retention last configured. */
  ghost predicate Recent(items: seq<Item>, now: int, calls: seq<Call>) {
    forall x :: x in items ==> now - x.enqueuedAt <= Retention(calls) * 1_000_000_000
  }

  /** Queued longer ago than that. */
  ghost predicate Old(items: seq<Item>, now: int, calls: seq<Call>) {
    forall x :: x in items ==> now - x.enqueuedAt > Retention(calls) * 1_000_000_000
  }

  lemma {:induction false} RetentionIsPositive(calls: seq<Call>)
    ensures 0 < Retention(calls) <= 3600
  {
    if calls != [] { RetentionIsPositive(calls[..|calls| - 1]); }
  }

  /** Under a clock that does not go back the records wait in the order of their time stamps. */
  lemma ItemsAreSorted(calls: seq<Call>, next: Call)
    requires ClockInOrder(calls + [next]) && Timed(next)
    ensures Sorted(Run(calls).items)
  {
    var all := calls + [next];
    forall i, j | 0 <= i < j < |calls| && Timed(calls[i]) && Timed(calls[j])
      ensures calls[i].now <= calls[j].now
    {
      assert all[i] == calls[i] && all[j] == calls[j];
    }
    forall i | 0 <= i < |calls| && Timed(calls[i])
      ensures calls[i].now <= next.now
    {
      assert all[i] == calls[i] && all[|calls|] == next;
    }
    QueuedInOrder(calls, next.now);
    RunIsFifo(calls);
    RunStaysSorted(Queued(calls), next.now);
  }

  /** The prune every put and take begins with, by age. */
  lemma PruneByAge(calls: seq<Call>, now: int) returns (dropped: seq<Item>, live: seq<Item>)
    ensures live == Prune(Run(calls).items, Cutoff(now, Run(calls).retention))
    ensures Run(calls).items == dropped + live && Old(dropped, now, calls)
    ensures Sorted(Run(calls).items) ==> Recent(live, now, calls)
  {
    hide Run;
    var c, cutoff := Run(calls).items, Cutoff(now, Run(calls).retention);
    RunIsFifo(calls);
    RetentionIsPositive(calls);
    PruneIsSuffix(c, cutoff);
    dropped, live := c[..Gone(c, cutoff)], Prune(c, cutoff);
  }

  /**
   A pop drops records queued longer ago than the retention last configured, hands out as
   many of the others as it was asked for, oldest first, and leaves the rest. If the clock
   never went back all it hands out or leaves is that recent.
   */
  lemma TakeGoesByAge(calls: seq<Call>, count: int, now: int) returns (dropped: seq<Item>, handed: seq<Item>)
    requires On(calls) && count > 0
    ensures var all := calls + [Take(count, now)];
      && Run(calls).items == dropped + handed + Run(all).items && Out(all) == Out(calls) + Payloads(handed)
      && |handed| == (if count < |handed| + |Run(all).items| then count else |handed| + |Run(all).items|)
      && Old(dropped, now, calls)
      && (ClockInOrder(all) ==> Recent(handed, now, calls) && Recent(Run(all).items, now, calls))
  {
    hide Run, Out, Popped, Old, Recent, Prune, Cutoff, Retention, Sorted, ClockInOrder;
    var take, u := Take(count, now), Run(calls);
    var all := calls + [take];
    RunIsFifo(calls);
    var live;
    dropped, live := PruneByAge(calls, now);
    handed := live[..Taken(count, |live|)];
    TakenApart(calls, count, now, live);
    if ClockInOrder(all) {
      ItemsAreSorted(calls, take);
      RecentParts(live, Taken(count, |live|), now, calls);
    }
  }

  /** The call as a split of what its prune leaves. */
  lemma TakenApart(calls: seq<Call>, count: int, now: int, live: seq<Item>)
    requires Run(calls).enabled && count > 0 && live == Prune(Run(calls).items, Cutoff(now, Run(calls).retention))
    ensures var all, k := calls + [Take(count, now)], Taken(count, |live|);
      && Run(all).items == live[k..] && Out(all) == Out(calls) + Payloads(live[..k])
      && live == live[..k] + live[k..]
  {
    hide Prune, Cutoff;
    var all := calls + [Take(count, now)];
    assert all[..|calls|] == calls && all[|calls|] == Take(count, now);
  }

  lemma RecentParts(live: seq<Item>, k: nat, now: int, calls: seq<Call>)
    requires k <= |live| && Recent(live, now, calls)
    ensures Recent(live[..k], now, calls) && Recent(live[k..], now, calls)
  {
    hide Retention;
  }

  /** A retained record is queued behind the recent ones; only those that outlived the retention are dropped. */
  lemma PutGoesByAge(calls: seq<Call>, p: Payload, now: int) returns (dropped: seq<Item>, kept: seq<Item>)
    requires On(calls) && p != [] && Run(calls).bus.live == {}
    ensures var all := calls + [Put(p, now)];
      && Run(calls).items == dropped + kept && Run(all).items == kept + [Item(now, p)]
      && Old(dropped, now, calls) && (ClockInOrder(all) ==> Recent(kept, now, calls))
  {
    hide Prune, Cutoff, Retention, Sorted;
    var put := Put(p, now);
    var all := calls + [put];
    assert all[..|calls|] == calls && all[|calls|] == put;
    RunIsFifo(calls);
    dropped, kept := PruneByAge(calls, now);
    if ClockInOrder(all) { ItemsAreSorted(calls, put); }
  }
}
