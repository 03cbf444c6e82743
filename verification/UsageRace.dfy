/**
 Enqueue and SetEnabled at the grain of the source: the flag is read before any lock is
 taken, and switching off stores the flag before it clears. A pop can only take records
 away and is left aside.
 */
module UsageRace {
  import opened Fifo
  import opened PubSub
  import opened UsageFlow

  /** Threads inside Enqueue: past the flag check, or past a publish that found no subscriber. */
  datatype World = World(state: State, entering: map<nat, Payload>, retaining: map<nat, Payload>)

  datatype Action =
    | Check(thread: nat, payload: Payload)
    | PublishRegion(thread: nat)
    | RetainRegion(thread: nat, now: int)
    | Flag(value: bool)
    | ClearRegion
    | Elsewhere(move: Move)   // a subscriber comes, goes, receives or is closed

  function Act(w: World, a: Action): World {
    match a
    case Check(t, p) => if Accepts(w.state, p) then w.(entering := w.entering[t := p]) else w
    case PublishRegion(t) =>
      if t !in w.entering then w
      else if w.state.bus.live == {} then
        w.(entering := w.entering - {t}, retaining := w.retaining[t := w.entering[t]])
      else
        w.(entering := w.entering - {t}, state := w.state.(bus := Published(w.state.bus, w.entering[t])))
    case RetainRegion(t, now) =>
      if t !in w.retaining then w
      else w.(retaining := w.retaining - {t}, state := Retaining(w.state, w.retaining[t], now))
    case Flag(value) => w.(state := w.state.(enabled := value))
    case ClearRegion => w.(state := w.state.(bus := Detached(w.state.bus), items := []))
    case Elsewhere(m) => w.(state := w.state.(bus := Next(w.state.bus, m)))
  }

  function Run(w: World, actions: seq<Action>): World {
    if actions == [] then w else Act(Run(w, actions[..|actions| - 1]), actions[|actions| - 1])
  }

  const START := World(State(false, DEFAULT_RETENTION, EMPTY_BUS, []), map[], map[])

  /** Nobody switches on again and nothing is cleared again. */
  ghost predicate StaysOff(actions: seq<Action>) {
    forall i :: 0 <= i < |actions| ==> actions[i] != Flag(true) && actions[i] != ClearRegion
  }

  /** The k-th action retains a record. */
  ghost predicate RetainsAt(w: World, actions: seq<Action>, k: nat)
    requires k < |actions|
  {
    actions[k].RetainRegion? && actions[k].thread in Run(w, actions[..k]).retaining
  }

  ghost predicate Retains(w: World, actions: seq<Action>) {
    exists k :: 0 <= k < |actions| && RetainsAt(w, actions, k)
  }

  function InFlight(w: World): set<nat> {
    w.entering.Keys + w.retaining.Keys
  }

  lemma RetainsLonger(w: World, front: seq<Action>, a: Action)
    ensures Retains(w, front + [a]) <==> Retains(w, front) || (a.RetainRegion? && a.thread in Run(w, front).retaining)
  {
    hide Run;
    var all := front + [a];
    assert all[..|front|] == front && all[|front|] == a;
    forall k | 0 <= k < |front|
      ensures RetainsAt(w, all, k) <==> RetainsAt(w, front, k)
    {
      assert all[..k] == front[..k] && all[k] == front[k];
    }
    assert RetainsAt(w, all, |front|) <==> a.RetainRegion? && a.thread in Run(w, front).retaining;
    if Retains(w, front) {
      var k :| 0 <= k < |front| && RetainsAt(w, front, k);
      assert RetainsAt(w, all, k);
    }
  }

  lemma StepWhileOff(w: World, a: Action)
    requires !w.state.enabled && a != Flag(true) && a != ClearRegion
    ensures !Act(w, a).state.enabled && InFlight(Act(w, a)) <= InFlight(w)
    ensures var retains := a.RetainRegion? && a.thread in w.retaining;
      if retains then Act(w, a).state.items != [] else Act(w, a).state.items == w.state.items
  {
    hide Published, Next;
  }

  /**
   While off and cleared, the queue comes to hold a record exactly if some Enqueue reaches
   its second lock region, having read the flag before the switch: every such thread was
   in flight when the queue was cleared.
   */
  lemma {:induction false} RetainedWhileOffExactly(w: World, actions: seq<Action>)
    requires !w.state.enabled && w.state.items == [] && StaysOff(actions)
    ensures Run(w, actions).state.items != [] <==> Retains(w, actions)
    ensures !Run(w, actions).state.enabled && InFlight(Run(w, actions)) <= InFlight(w)
  {
    hide Act, Retains;
    if actions == [] {
      NothingRetains(w);
    } else {
      var front, a := actions[..|actions| - 1], actions[|actions| - 1];
      assert actions == front + [a];
      RetainedWhileOffExactly(w, front);
      RetainsLonger(w, front, a);
      StepWhileOff(Run(w, front), a);
    }
  }

  lemma NothingRetains(w: World)
    ensures !Retains(w, [])
  {
  }

  /** So with no Enqueue in flight when it is cleared, the queue stays empty until switched on again. */
  lemma QuietSwitchOffStaysEmpty(w: World, actions: seq<Action>)
    requires !w.state.enabled && w.state.items == [] && StaysOff(actions) && InFlight(w) == {}
    ensures Run(w, actions).state.items == []
  {
    RetainedWhileOffExactly(w, actions);
    forall k | 0 <= k < |actions|
      ensures !RetainsAt(w, actions, k)
    {
      if RetainsAt(w, actions, k) { RetainerWasInFlight(w, actions, k); }
    }
  }

  lemma RetainerWasInFlight(w: World, actions: seq<Action>, k: nat)
    requires !w.state.enabled && w.state.items == [] && StaysOff(actions) && k < |actions| && RetainsAt(w, actions, k)
    ensures actions[k].thread in InFlight(w)
  {
    RetainedWhileOffExactly(w, actions[..k]);
    assert actions[k].thread in InFlight(Run(w, actions[..k]));
  }

  /** An Enqueue that reads the flag just before the queue is switched off leaves its record in the disabled queue. */
  lemma RecordRetainedWhileOff(p: Payload, now: int)
    requires p != []
    ensures var actions :=
        [Flag(true), Check(1, p), Flag(false), ClearRegion, PublishRegion(1), RetainRegion(1, now)];
      var w := Run(START, actions);
      !w.state.enabled && w.state.items == [Item(now, p)]
  {
    hide Run;
    var on, check, off, clear := Flag(true), Check(1, p), Flag(false), ClearRegion;
    var publish, retain := PublishRegion(1), RetainRegion(1, now);
    Snoc(START, [], on);
    assert [] + [on] == [on];
    Snoc(START, [on], check);
    assert [on] + [check] == [on, check];
    Snoc(START, [on, check], off);
    assert [on, check] + [off] == [on, check, off];
    Snoc(START, [on, check, off], clear);
    assert [on, check, off] + [clear] == [on, check, off, clear];
    Snoc(START, [on, check, off, clear], publish);
    assert [on, check, off, clear] + [publish] == [on, check, off, clear, publish];
    Snoc(START, [on, check, off, clear, publish], retain);
    assert [on, check, off, clear, publish] + [retain] == [on, check, off, clear, publish, retain];
    assert Run(START, [on, check]).entering == map[1 := p];
    assert Run(START, [on, check, off, clear, publish]).retaining == map[1 := p];
    assert Prune([], Cutoff(now, DEFAULT_RETENTION)) + [Item(now, p)] == [Item(now, p)];
  }

  lemma Snoc(w: World, actions: seq<Action>, a: Action)
    ensures Run(w, []) == w && Run(w, actions + [a]) == Act(Run(w, actions), a)
  {
    hide Act;
    assert (actions + [a])[..|actions|] == actions;
  }
}
