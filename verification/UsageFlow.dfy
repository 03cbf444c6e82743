/** Enqueue, PopOldest and the switches: a usage record goes to the subscribers, or else into the retained queue. */
module UsageFlow {
  import opened Fifo
  import opened PubSub
  import opened UsageQueue

  /** The switch, the configured retention, the subscribers and the retained records. */
  datatype State = State(enabled: bool, retention: int, bus: Bus, items: seq<Item>)

  /** Records Enqueue does not turn away at once. */
  predicate Accepts(u: State, p: Payload) {
    u.enabled && p != []
  }

  /** Enqueue's first lock region. */
  function Publishing(u: State, p: Payload): State {
    if Accepts(u, p) then u.(bus := Published(u.bus, p)) else u
  }

  /** Its second, entered only if nobody subscribed in the first. */
  function Retaining(v: State, p: Payload, now: int): State {
    v.(items := Prune(v.items, Cutoff(now, v.retention)) + [Item(now, p)])
  }

  function Enqueued(u: State, p: Payload, now: int): State {
    if Accepts(u, p) && u.bus.live == {} then Retaining(u, p, now) else Publishing(u, p)
  }

  /** PopOldest: what it hands out and what it leaves. */
  function Popped(u: State, count: int, now: int): (State, seq<Payload>) {
    if !u.enabled || count <= 0 then (u, [])
    else
      var live := Prune(u.items, Cutoff(now, u.retention));
      var k := Taken(count, |live|);
      (u.(items := live[k..]), Payloads(live[..k]))
  }

  // ----- where a record ends up -----------------------------------------------------------------

  /** Some subscriber's channel has taken the record in. */
  ghost predicate DeliveredToSome(u: State, w: State, p: Payload) {
    exists id :: id in u.bus.chans && id in w.bus.chans && Through(w.bus.chans[id]) == Through(u.bus.chans[id]) + [p]
  }

  /** The retained records hold one more copy of it. */
  ghost predicate Retained(u: State, w: State, p: Payload, now: int) {
    multiset(w.items)[Item(now, p)] == multiset(u.items)[Item(now, p)] + 1
  }

  /** Somebody subscribes and nobody has room. */
  ghost predicate AllFull(b: Bus) {
    b.live != {} && forall id :: id in b.live && id in b.chans ==> |b.chans[id].buffer| >= 32
  }

  /**
   A record accepted by Enqueue is delivered to some subscriber or retained, unless there
   are subscribers and all of them are full: then it is lost, though Enqueue says nothing.
   `v` is the state the second lock region finds, whatever happened since the first.
   */
  lemma EnqueueLosesExactlyWhenFull(u: State, v: State, p: Payload, now: int)
    requires BusOk(u.bus) && Accepts(u, p)
    ensures var delivered := DeliveredToSome(u, Publishing(u, p), p);
      var retained := u.bus.live == {} && Retained(v, Retaining(v, p, now), p, now);
      delivered || retained <==> !AllFull(u.bus)
  {
    RetainsOneMore(v, p, now);
    if u.bus.live == {} {
      NobodyReceives(u, p);
    } else {
      PublishReaches(u.bus, p);
      DeliveryNeedsRoom(u, p);
    }
  }

  lemma NobodyReceives(u: State, p: Payload)
    requires u.bus.live == {}
    ensures !AllFull(u.bus)
  {
  }

  lemma DeliveryNeedsRoom(u: State, p: Payload)
    requires BusOk(u.bus) && u.bus.live != {} && Accepts(u, p)
    ensures DeliveredToSome(u, Publishing(u, p), p) <==> !AllFull(u.bus)
  {
    var w := Publishing(u, p);
    forall id | id in u.bus.chans
      ensures id in w.bus.chans
      ensures Through(w.bus.chans[id]) == Through(u.bus.chans[id]) + [p] <==>
        id in u.bus.live && |u.bus.chans[id].buffer| < BUFFER
    {
      ThroughOffer(u.bus.chans[id], p);
    }
    if !AllFull(u.bus) {
      var id :| id in u.bus.live && id in u.bus.chans && |u.bus.chans[id].buffer| < BUFFER;
      assert Through(w.bus.chans[id]) == Through(u.bus.chans[id]) + [p];
    }
  }

  lemma ThroughOffer(c: Chan, p: Payload)
    ensures Through(Offer(c, p)) == Through(c) + (if |c.buffer| < BUFFER then [p] else [])
    ensures Through(c) != Through(c) + [p]
  {
    assert |Through(c)| != |Through(c) + [p]|;
  }

  lemma RetainsOneMore(v: State, p: Payload, now: int)
    ensures Retained(v, Retaining(v, p, now), p, now)
  {
    var cutoff := Cutoff(now, v.retention);
    var g := Gone(v.items, cutoff);
    PruneIsSuffix(v.items, cutoff);
    assert v.items == v.items[..g] + v.items[g..];
    assert Item(now, p) !in v.items[..g];
  }

  // ----- switching off ----------------------------------------------------------------------------

  /** SetEnabled, the closes included, with nothing in between. */
  function Switched(u: State, value: bool): State {
    if value then u.(enabled := true) else State(false, u.retention, Clearing(u.bus, {}), [])
  }

  // ----- the global queue ---------------------------------------------------------------------------

  class Usage {
    const global: Queue
    var enabled: bool
    var retentionSeconds: int

    constructor ()
      ensures Valid() && View() == State(false, DEFAULT_RETENTION, EMPTY_BUS, [])
      ensures fresh(global)
    {
      global := new Queue();
      enabled, retentionSeconds := false, DEFAULT_RETENTION;
    }

    ghost predicate Valid()
      reads this, global, global.created.Values
    {
      global.Valid() && 0 < retentionSeconds <= MAX_RETENTION
    }

    ghost function View(): State
      reads this, global, global.created.Values
      requires global.ItemsOk()
    {
      State(enabled, retentionSeconds, global.View(), global.Contents())
    }

    method SetRetentionSeconds(value: int)
      requires Valid()
      modifies this`retentionSeconds
      ensures Valid() && View() == old(View()).(retention := NormalRetention(value))
    {
      retentionSeconds := NormalRetention(value);
    }

    /** SetEnabled: switching off clears the queue and closes every subscriber's channel. */
    method SetEnabled(value: bool)
      requires Valid()
      modifies this`enabled, global, global.created.Values
      ensures Valid() && View() == Switched(old(View()), value)
    {
      enabled := value;
      if !value { global.Clear(); }
    }

    /** Enqueue with nothing between its two lock regions. */
    method Enqueue(payload: Payload, now: int)
      requires Valid()
      modifies global, global.created.Values
      ensures Valid() && View() == Enqueued(old(View()), payload, now)
    {
      hide Published;
      if !enabled || payload == [] { return; }
      var published := Publish(payload);
      if !published { Retain(payload, now); }
    }

    /** The first lock region. */
    method Publish(payload: Payload) returns (published: bool)
      requires Valid() && enabled && payload != []
      modifies global`subscribers, global`log, global.created.Values
      ensures Valid() && View() == Publishing(old(View()), payload) && published == (old(View()).bus.live != {})
      ensures !published ==> View() == old(View())
    {
      hide Published;
      NothingPublished(global.View(), payload);
      published := global.PublishToSubscribers(payload);
    }

    /** The second. */
    method Retain(payload: Payload, now: int)
      requires Valid()
      modifies global`items, global`head
      ensures Valid() && View() == Retaining(old(View()), payload, now)
    {
      hide BusOk;
      global.Enqueue(payload, now, retentionSeconds);
    }

    method PopOldest(count: int, now: int) returns (out: seq<Payload>)
      requires Valid()
      modifies global
      ensures Valid() && (View(), out) == Popped(old(View()), count, now)
    {
      hide Prune, BusOk;
      if !enabled || count <= 0 { return []; }
      out := global.PopOldest(count, now, retentionSeconds);
    }
  }

  lemma NothingPublished(b: Bus, p: Payload)
    ensures b.live == {} ==> Published(b, p) == b
  {
  }
}
