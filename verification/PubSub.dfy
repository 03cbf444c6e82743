/**
 Usage subscribers. Each step is one region under the queue's lock, or one close that
 happens after the lock has been released; any interleaving of steps is a run.
 */
module PubSub {
  import opened Fifo

  const BUFFER := 32

  /**
   One subscriber channel: what waits in it, how often it was closed, what its reader
   took out, and how much had been published when it was created.
   */
  datatype Chan = Chan(buffer: seq<Payload>, closes: nat, received: seq<Payload>, start: nat)

  /**
   `live` are the registered subscribers; `closing` are channels taken out of the table by
   unsubscribe or clear whose close is still to come; `log` is everything published.
   `panicked` records a send on, or second close of, a closed channel.
   */
  datatype Bus = Bus(chans: map<nat, Chan>, live: set<nat>, closing: multiset<nat>,
                     nextID: nat, log: seq<Payload>, panicked: bool)

  const EMPTY_BUS := Bus(map[], {}, multiset{}, 0, [], false)

  datatype Move =
    | Subscribe
    | Publish(payload: Payload)
    | Unsubscribe(id: nat)   // the lock region of unsubscribeUsage
    | ClearAll               // the lock region of clear
    | CloseOne(id: nat)      // a close after the lock was released
    | Receive(id: nat)

  /** A non-blocking send: an overflowing channel is closed instead. */
  function Offer(c: Chan, p: Payload): Chan {
    if |c.buffer| < BUFFER then c.(buffer := c.buffer + [p]) else c.(closes := c.closes + 1)
  }

  function Overflowing(b: Bus): set<nat> {
    set id | id in b.live && id in b.chans && |b.chans[id].buffer| >= BUFFER
  }

  function Subscribed(b: Bus): Bus {
    b.(nextID := b.nextID + 1, live := b.live + {b.nextID + 1},
       chans := b.chans[b.nextID + 1 := Chan([], 0, [], |b.log|)])
  }

  function Published(b: Bus, p: Payload): Bus {
    if b.live == {} then b
    else
      b.(log := b.log + [p],
         chans := map id | id in b.chans :: if id in b.live then Offer(b.chans[id], p) else b.chans[id],
         live := b.live - Overflowing(b),
         panicked := b.panicked || exists id :: id in b.live && id in b.chans && b.chans[id].closes > 0)
  }

  function Unsubscribed(b: Bus, id: nat): Bus {
    if id in b.live then b.(live := b.live - {id}, closing := b.closing + multiset{id}) else b
  }

  function Detached(b: Bus): Bus {
    b.(live := {}, closing := b.closing + multiset(b.live))
  }

  function ClosedOne(b: Bus, id: nat): Bus {
    if id in b.closing && id in b.chans then
      b.(closing := b.closing - multiset{id},
         chans := b.chans[id := b.chans[id].(closes := b.chans[id].closes + 1)],
         panicked := b.panicked || b.chans[id].closes > 0)
    else b
  }

  function Received(b: Bus, id: nat): Bus {
    if id in b.chans && b.chans[id].buffer != [] then
      var c := b.chans[id];
      b.(chans := b.chans[id := c.(buffer := c.buffer[1..], received := c.received + [c.buffer[0]])])
    else b
  }

  function Next(b: Bus, m: Move): Bus {
    match m
    case Subscribe => Subscribed(b)
    case Publish(p) => Published(b, p)
    case Unsubscribe(id) => Unsubscribed(b, id)
    case ClearAll => Detached(b)
    case CloseOne(id) => ClosedOne(b, id)
    case Receive(id) => Received(b, id)
  }

  function RunMoves(ms: seq<Move>): Bus {
    if ms == [] then EMPTY_BUS else Next(RunMoves(ms[..|ms| - 1]), ms[|ms| - 1])
  }

  /** Everything that ever went into a channel, in order. */
  function Through(c: Chan): seq<Payload> {
    c.received + c.buffer
  }

  /** A gap-free piece of the publish log, still at its end while the subscriber is live. */
  ghost predicate GapFree(c: Chan, log: seq<Payload>, live: bool) {
    && c.start + |Through(c)| <= |log|
    && Through(c) == log[c.start..c.start + |Through(c)|]
    && (live ==> c.start + |Through(c)| == |log|)
  }

  /** Closed, about to be closed, or live: exactly one of the three, once. */
  ghost predicate OneEnd(b: Bus, id: nat)
    requires id in b.chans
  {
    b.chans[id].closes + b.closing[id] + (if id in b.live then 1 else 0) == 1
  }

  ghost predicate ChanOk(b: Bus, id: nat)
    requires id in b.chans
  {
    OneEnd(b, id) && GapFree(b.chans[id], b.log, id in b.live)
    && id <= b.nextID && |b.chans[id].buffer| <= BUFFER
  }

  ghost predicate BusOk(b: Bus) {
    && !b.panicked
    && b.live <= b.chans.Keys
    && (forall id :: id in b.closing ==> id in b.chans)
    && (forall id :: id in b.chans ==> ChanOk(b, id))
  }

  lemma SubscribeOk(b: Bus)
    requires BusOk(b)
    ensures BusOk(Subscribed(b))
  {
    var c := Subscribed(b);
    assert b.nextID + 1 !in b.chans;
    forall id | id in c.chans
      ensures ChanOk(c, id)
    {
      if id in b.chans { assert ChanOk(b, id); }
    }
  }

  lemma PublishOk(b: Bus, p: Payload)
    requires BusOk(b)
    ensures BusOk(Published(b, p))
  {
    if b.live == {} { return; }
    var c := Published(b, p);
    forall id | id in c.chans
      ensures ChanOk(c, id)
    {
      assert ChanOk(b, id);
      var k := b.chans[id];
      if id in b.live {
        OfferKeepsGapFree(k, p, b.log);
      } else {
        assert (b.log + [p])[k.start..k.start + |Through(k)|] == b.log[k.start..k.start + |Through(k)|];
      }
    }
    forall id | id in b.live && id in b.chans
      ensures b.chans[id].closes == 0
    {
      assert ChanOk(b, id);
    }
  }

  lemma OfferKeepsGapFree(k: Chan, p: Payload, log: seq<Payload>)
    requires GapFree(k, log, true)
    ensures GapFree(Offer(k, p), log + [p], |k.buffer| < BUFFER)
  {
    var piece := log[k.start..k.start + |Through(k)|];
    if |k.buffer| < BUFFER {
      assert Through(Offer(k, p)) == Through(k) + [p];
      assert (log + [p])[k.start..k.start + |Through(k)| + 1] == piece + [p];
    } else {
      assert Through(Offer(k, p)) == Through(k);
      assert (log + [p])[k.start..k.start + |Through(k)|] == piece;
    }
  }

  lemma UnsubscribeOk(b: Bus, id: nat)
    requires BusOk(b)
    ensures BusOk(Unsubscribed(b, id))
  {
    var c := Unsubscribed(b, id);
    forall k | k in c.chans
      ensures ChanOk(c, k)
    {
      assert ChanOk(b, k);
    }
  }

  lemma ClearOk(b: Bus)
    requires BusOk(b)
    ensures BusOk(Detached(b))
  {
    var c := Detached(b);
    forall k | k in c.chans
      ensures ChanOk(c, k)
    {
      assert ChanOk(b, k);
    }
  }

  lemma CloseOk(b: Bus, id: nat)
    requires BusOk(b)
    ensures BusOk(ClosedOne(b, id))
  {
    hide ChanOk;
    var c := ClosedOne(b, id);
    if c != b { assert ChanOk(b, id); }
    forall k | k in c.chans
      ensures ChanOk(c, k)
    {
      ClosedOneAt(b, id, k);
    }
    assert !c.panicked by { if c != b { ClosedOneAt(b, id, id); } }
  }

  lemma ClosedOneAt(b: Bus, id: nat, k: nat)
    requires k in b.chans && ChanOk(b, k)
    ensures ChanOk(ClosedOne(b, id), k)
    ensures k == id && id in b.closing ==> b.chans[id].closes == 0
  {
    assert Through(ClosedOne(b, id).chans[k]) == Through(b.chans[k]);
  }

  lemma ReceiveOk(b: Bus, id: nat)
    requires BusOk(b)
    ensures BusOk(Received(b, id))
  {
    var c := Received(b, id);
    if c != b {
      assert ChanOk(b, id);
      assert Through(c.chans[id]) == Through(b.chans[id]);
    }
    forall k | k in c.chans
      ensures ChanOk(c, k)
    {
      assert ChanOk(b, k);
    }
  }

  /**
   In every interleaving no closed channel is sent to or closed again, every subscriber's
   channel ends in exactly one close, and what a subscriber has received plus what waits
   for it is a gap-free piece of the publish log starting where it subscribed.
   */
  lemma {:induction false} EveryInterleavingIsSafe(ms: seq<Move>)
    ensures BusOk(RunMoves(ms))
  {
    if ms != [] {
      var b := RunMoves(ms[..|ms| - 1]);
      EveryInterleavingIsSafe(ms[..|ms| - 1]);
      match ms[|ms| - 1] {
        case Subscribe => SubscribeOk(b);
        case Publish(p) => PublishOk(b, p);
        case Unsubscribe(id) => UnsubscribeOk(b, id);
        case ClearAll => ClearOk(b);
        case CloseOne(id) => CloseOk(b, id);
        case Receive(id) => ReceiveOk(b, id);
      }
    }
  }

  /** Quiescent and unsubscribed: the channel has been closed exactly once. */
  lemma EndedMeansClosedOnce(ms: seq<Move>, id: nat)
    requires id in RunMoves(ms).chans && id !in RunMoves(ms).live && id !in RunMoves(ms).closing
    ensures RunMoves(ms).chans[id].closes == 1
  {
    EveryInterleavingIsSafe(ms);
    assert ChanOk(RunMoves(ms), id);
  }

  /**
   A published record reaches exactly the live subscribers that have room; it is lost to
   everyone if and only if all of them are full at that moment.
   */
  lemma PublishReaches(b: Bus, p: Payload)
    requires BusOk(b) && b.live != {}
    ensures var c := Published(b, p);
      && (forall id :: id in b.live ==>
            if |b.chans[id].buffer| < 32
            then id in c.live && c.chans[id].buffer == b.chans[id].buffer + [p]
            else id !in c.live && c.chans[id].buffer == b.chans[id].buffer && c.chans[id].closes == 1)
      && (c.live == {} <==> forall id :: id in b.live ==> |b.chans[id].buffer| == 32)
  {
    var c := Published(b, p);
    forall id | id in b.live
      ensures ChanOk(b, id)
    {
    }
    if c.live == {} {
      forall id | id in b.live
        ensures |b.chans[id].buffer| == BUFFER
      {
        assert ChanOk(b, id);
        assert id !in c.live;
      }
    }
  }

  // ----- a whole clear ------------------------------------------------------------------------------

  /** A clear of bus b in progress: everybody is out of the table, and all but `todo` have been closed. */
  function Clearing(b: Bus, todo: set<nat>): Bus {
    b.(live := {}, closing := b.closing + multiset(todo),
       chans := map id | id in b.chans ::
         if id in b.live && id !in todo then b.chans[id].(closes := b.chans[id].closes + 1) else b.chans[id])
  }

  lemma ClearingStarts(b: Bus)
    ensures Detached(b) == Clearing(b, b.live)
  {
    assert Clearing(b, b.live).chans == b.chans;
  }

  lemma ClearingSteps(b: Bus, todo: set<nat>, id: nat)
    requires BusOk(b) && id in todo && todo <= b.live
    ensures ClosedOne(Clearing(b, todo), id) == Clearing(b, todo - {id})
  {
    hide GapFree;
    assert ChanOk(b, id);
    var c, d := ClosedOne(Clearing(b, todo), id), Clearing(b, todo - {id});
    assert b.closing + multiset(todo) - multiset{id} == b.closing + multiset(todo - {id});
    assert c.chans == d.chans;
  }

  lemma TodoIsClosing(b: Bus, todo: set<nat>, id: nat)
    requires id in todo
    ensures id in Clearing(b, todo).closing
  {
  }
}
