/** The usage queue object: a slice with a head index, and the table of subscriber channels. */
module UsageQueue {
  import opened Prelude
  import opened Fifo
  import opened PubSub

  /** A buffered Go channel of capacity BUFFER, with its history. */
  class Channel {
    var buffer: seq<Payload>
    var closed: bool
    ghost var closes: nat
    ghost var received: seq<Payload>
    ghost const start: nat
    ghost const id: nat

    constructor (ghost id: nat, ghost at: nat)
      ensures View() == Chan([], 0, [], at) && Valid() && this.id == id
    {
      buffer, closed, closes, received, start, this.id := [], false, 0, [], at, id;
    }

    ghost function View(): Chan
      reads this
    {
      Chan(buffer, closes, received, start)
    }

    ghost predicate Valid()
      reads this
    {
      closed <==> closes > 0
    }

    /** `select { case ch <- p: default: }`; sending on a closed channel would panic. */
    method TrySend(p: Payload) returns (sent: bool)
      requires Valid() && !closed
      modifies this`buffer
      ensures sent == (|old(buffer)| < BUFFER)
      ensures buffer == if sent then old(buffer) + [p] else old(buffer)
    {
      sent := |buffer| < BUFFER;
      if sent { buffer := buffer + [p]; }
    }

    /** close(ch); closing a closed channel would panic. */
    method Close()
      requires Valid() && !closed
      modifies this`closed, this`closes
      ensures Valid() && closed && closes == old(closes) + 1
    {
      closed := true;
      closes := closes + 1;
    }

    /** The reader's side; works on a closed channel too while something is buffered. */
    method Receive() returns (p: Option<Payload>)
      modifies this`buffer, this`received
      ensures old(buffer) == [] ==> p.None? && View() == old(View())
      ensures old(buffer) != [] ==>
        && p == Some(old(buffer)[0])
        && View() == old(View()).(buffer := old(buffer)[1..], received := old(received) + [old(buffer)[0]])
    {
      if buffer == [] { return None; }
      p := Some(buffer[0]);
      received := received + [buffer[0]];
      buffer := buffer[1..];
    }
  }

  class Queue {
    var items: seq<Item>
    var head: nat
    var subscribers: map<nat, Channel>
    var nextSubscriberID: nat

    ghost var created: map<nat, Channel>   // every channel ever made, by subscriber id
    ghost var closing: multiset<nat>       // taken out of the table, close still to come
    ghost var log: seq<Payload>            // everything published to subscribers

    constructor ()
      ensures Valid() && Contents() == [] && View() == EMPTY_BUS
    {
      items, head, subscribers, nextSubscriberID := [], 0, map[], 0;
      created, closing, log := map[], multiset{}, [];
    }

    // ----- the retained records ---------------------------------------------------------

    ghost predicate ItemsOk()
      reads this`items, this`head
    {
      head <= |items|
    }

    /** The FIFO the slice and the head stand for. */
    ghost function Contents(): seq<Item>
      reads this`items, this`head
      requires ItemsOk()
    {
      items[head..]
    }

    /** Dead slots never outnumber live ones, and never reach 1024. */
    ghost predicate Compact()
      reads this`items, this`head
    {
      head == 0 || (head < 1024 && 2 * head < |items|)
    }

    /** pruneLocked */
    method Prune(now: int, windowSeconds: int)
      requires ItemsOk()
      modifies this`items, this`head
      ensures ItemsOk() && Contents() == Fifo.Prune(old(Contents()), Cutoff(now, windowSeconds))
    {
      if head >= |items| {
        items, head := [], 0;
        return;
      }
      var window := if windowSeconds <= 0 then DEFAULT_RETENTION else windowSeconds;
      var cutoff := now - window * SECOND;
      ghost var before := Contents();
      while head < |items| && items[head].enqueuedAt < cutoff
        invariant old(head) <= head <= |items| && items == old(items)
        invariant Fifo.Prune(items[head..], cutoff) == Fifo.Prune(before, cutoff)
      {
        assert items[head..][1..] == items[head + 1..];
        head := head + 1;
      }
    }

    /** maybeCompactLocked */
    method MaybeCompact()
      requires ItemsOk()
      modifies this`items, this`head
      ensures ItemsOk() && Contents() == old(Contents()) && Compact()
    {
      if head == 0 { return; }
      if head >= |items| {
        items, head := [], 0;
        return;
      }
      if head < 1024 && head * 2 < |items| { return; }
      items := items[head..];
      head := 0;
    }

    method Enqueue(payload: Payload, now: int, windowSeconds: int)
      requires ItemsOk()
      modifies this`items, this`head
      ensures ItemsOk() && Compact()
      ensures Contents() == Fifo.Prune(old(Contents()), Cutoff(now, windowSeconds)) + [Item(now, payload)]
    {
      Prune(now, windowSeconds);
      items := items + [Item(now, payload)];
      MaybeCompact();
    }

    method PopOldest(count: int, now: int, windowSeconds: int) returns (out: seq<Payload>)
      requires ItemsOk() && count > 0
      modifies this`items, this`head
      ensures ItemsOk() && Compact()
      ensures var live := Fifo.Prune(old(Contents()), Cutoff(now, windowSeconds));
        var k := Taken(count, |live|);
        out == Payloads(live[..k]) && Contents() == live[k..]
    {
      Prune(now, windowSeconds);
      ghost var live := Contents();
      var available := |items| - head;
      out := [];
      if available <= 0 {
        items, head := [], 0;
        return;
      }
      var take := if count > available then available else count;
      for i := 0 to take
        invariant out == Payloads(live[..i])
      {
        assert live[i] == items[head + i];
        out := out + [items[head + i].payload];
      }
      head := head + take;
      MaybeCompact();
    }

    // ----- the subscribers ------------------------------------------------------------------

    /** The table files each channel under the id it was created with, and under no other. */
    ghost predicate Wired()
      reads this`created, this`subscribers, created.Values
    {
      && (forall id :: id in created ==> created[id].id == id && created[id].Valid())
      && (forall id :: id in subscribers ==> id in created && subscribers[id] == created[id])
    }

    ghost function Chans(): map<nat, Chan>
      reads this`created, created.Values
    {
      map id | id in created :: created[id].View()
    }

    ghost function View(): Bus
      reads this`created, this`subscribers, this`closing, this`nextSubscriberID, this`log, created.Values
    {
      Bus(Chans(), subscribers.Keys, closing, nextSubscriberID, log, false)
    }

    ghost predicate Valid()
      reads this, created.Values
    {
      ItemsOk() && Wired() && BusOk(View())
    }

    /** subscribeUsage */
    method SubscribeUsage() returns (channel: Channel, id: nat)
      requires Valid()
      modifies this`subscribers, this`nextSubscriberID, this`created
      ensures Valid() && View() == Subscribed(old(View()))
      ensures fresh(channel) && id == nextSubscriberID && created == old(created)[id := channel]
    {
      SubscribeOk(View());
      NextIdIsNew(View());
      channel, id := AddChannel();
    }

    method AddChannel() returns (channel: Channel, id: nat)
      requires Wired() && nextSubscriberID + 1 !in created
      modifies this`subscribers, this`nextSubscriberID, this`created
      ensures Wired() && View() == Subscribed(old(View()))
      ensures fresh(channel) && id == nextSubscriberID && created == old(created)[id := channel]
    {
      channel := new Channel(nextSubscriberID + 1, |log|);
      id := FileChannel(channel);
    }

    method FileChannel(channel: Channel) returns (id: nat)
      requires Wired() && nextSubscriberID + 1 !in created
      requires channel.id == nextSubscriberID + 1 && channel.Valid() && channel.View() == Chan([], 0, [], |log|)
      modifies this`subscribers, this`nextSubscriberID, this`created
      ensures Wired() && View() == Subscribed(old(View()))
      ensures id == nextSubscriberID && created == old(created)[id := channel]
    {
      hide Subscribed, BusOk, ChanOk;
      SubscribeIs(View());
      id := nextSubscriberID + 1;
      Record(id, channel);
      subscribers, nextSubscriberID := subscribers[id := channel], id;
    }

    ghost method Record(id: nat, channel: Channel)
      requires Wired() && id !in created && channel.id == id && channel.Valid()
      modifies this`created
      ensures Wired() && created == old(created)[id := channel]
      ensures Chans() == old(Chans())[id := channel.View()]
    {
      created := created[id := channel];
    }

    /** The lock region of unsubscribeUsage: the channel to close once the lock is released. */
    method TakeSubscriber(id: nat) returns (channel: Option<Channel>)
      requires Valid()
      modifies this`subscribers, this`closing
      ensures Valid() && View() == Unsubscribed(old(View()), id)
      ensures channel == if id in old(subscribers) then Some(created[id]) else None
    {
      UnsubscribeOk(View(), id);
      channel := RemoveSubscriber(id);
    }

    method RemoveSubscriber(id: nat) returns (channel: Option<Channel>)
      requires Wired()
      modifies this`subscribers, this`closing
      ensures Wired() && View() == Unsubscribed(old(View()), id)
      ensures channel == if id in old(subscribers) then Some(created[id]) else None
    {
      if id !in subscribers { return None; }
      channel := Some(subscribers[id]);
      subscribers := subscribers - {id};
      closing := closing + multiset{id};
    }

    /** The lock region of clear: everything is dropped, the channels are left to close. */
    method TakeAll() returns (channels: map<nat, Channel>)
      requires Valid()
      modifies this`items, this`head, this`subscribers, this`closing
      ensures Valid() && Contents() == [] && Compact() && View() == Detached(old(View()))
      ensures channels == old(subscribers)
    {
      ClearOk(View());
      channels := DropAll();
    }

    method DropAll() returns (channels: map<nat, Channel>)
      requires Wired()
      modifies this`items, this`head, this`subscribers, this`closing
      ensures ItemsOk() && Contents() == [] && Compact()
      ensures Wired() && View() == Detached(old(View()))
      ensures channels == old(subscribers)
    {
      hide Detached;
      items, head := [], 0;
      channels := DropTable();
    }

    method DropTable() returns (channels: map<nat, Channel>)
      requires Wired()
      modifies this`subscribers, this`closing
      ensures Wired() && View() == Detached(old(View()))
      ensures channels == old(subscribers)
    {
      channels := subscribers;
      closing := closing + multiset(subscribers.Keys);
      subscribers := map[];
    }

    /** A close performed after the lock was released. It never meets a closed channel. */
    method CloseTaken(id: nat, channel: Channel)
      requires Valid() && id in closing && id in created && channel == created[id]
      modifies this`closing, channel
      ensures Valid() && View() == ClosedOne(old(View()), id) && channel.closed
    {
      CloseOk(View(), id);
      ClosingIsOpen(View(), id);
      CloseChannel(id, channel);
    }

    method CloseChannel(id: nat, channel: Channel)
      requires Wired() && id in created && channel == created[id] && channel.closes == 0 && id in closing
      modifies this`closing, channel
      ensures Wired() && View() == ClosedOne(old(View()), id) && channel.closed
    {
      channel.Close();
      ghost var gone := id;
      closing := closing - multiset{gone};
      assert Chans() == old(Chans())[id := old(Chans())[id].(closes := 1)];
    }

    /** clear, with nothing between its lock region and the closes. */
    method Clear()
      requires Valid()
      modifies this`items, this`head, this`subscribers, this`closing, created.Values
      ensures Valid() && Contents() == [] && View() == Clearing(old(View()), {})
    {
      hide Clearing, Detached, BusOk;
      ghost var b := View();
      ClearingStarts(b);
      var channels := TakeAll();
      CloseAll(b, channels);
    }

    /** The closes that follow a clear, in any order. */
    method CloseAll(ghost b: Bus, channels: map<nat, Channel>)
      requires Valid() && BusOk(b) && View() == Clearing(b, b.live) && channels.Keys == b.live
      requires forall id :: id in channels ==> id in created && channels[id] == created[id]
      modifies this`closing, created.Values
      ensures Valid() && View() == Clearing(b, {})
    {
      hide Clearing, BusOk;
      var todo := channels.Keys;
      while todo != {}
        invariant todo <= channels.Keys && Valid() && View() == Clearing(b, todo)
        decreases |todo|
      {
        var id :| id in todo;
        CloseNext(b, todo, id, channels[id]);
        todo := todo - {id};
      }
    }

    /** One of the closes that follow a clear. */
    method CloseNext(ghost b: Bus, ghost todo: set<nat>, id: nat, channel: Channel)
      requires Valid() && BusOk(b) && View() == Clearing(b, todo) && todo <= b.live
      requires id in todo && id in created && channel == created[id]
      modifies this`closing, channel
      ensures Valid() && View() == Clearing(b, todo - {id})
    {
      hide Clearing, ClosedOne, BusOk;
      ClearingSteps(b, todo, id);
      TodoIsClosing(b, todo, id);
      CloseTaken(id, channel);
    }

    /** publishToSubscribers: one offer to every registered channel, in any order. */
    method PublishToSubscribers(payload: Payload) returns (published: bool)
      requires Valid()
      modifies this`subscribers, this`log, created.Values
      ensures Valid() && View() == Published(old(View()), payload)
      ensures published == (old(subscribers) != map[])
    {
      PublishOk(View(), payload);
      LiveIsOpen(View());
      if subscribers == map[] { return false; }
      published := true;
      Broadcast(payload);
    }

    method Broadcast(payload: Payload)
      requires Wired() && subscribers.Keys != {} && AllOpen(Chans(), subscribers.Keys)
      modifies this`subscribers, this`log, created.Values
      ensures Wired() && View() == Published(old(View()), payload)
    {
      hide OfferedTo, Published, BusOk, ChanOk;
      ghost var before, live := Chans(), subscribers.Keys;
      OfferAll(payload);
      log := log + [payload];
      PublishIs(before, live, closing, nextSubscriberID, old(log), payload, Chans(), subscribers.Keys);
    }

    method OfferAll(payload: Payload)
      requires Wired() && AllOpen(Chans(), subscribers.Keys)
      modifies this`subscribers, created.Values
      ensures Wired()
      ensures OfferedTo(old(Chans()), old(subscribers.Keys), {}, payload, Chans(), subscribers.Keys)
    {
      var todo := subscribers.Keys;
      ghost var before, live := Chans(), subscribers.Keys;
      while todo != {}
        invariant todo <= live && Wired()
        invariant OfferedTo(before, live, todo, payload, Chans(), subscribers.Keys)
      {
        var id :| id in todo;
        OfferedNext(before, live, todo, payload, Chans(), subscribers.Keys, id);
        OfferTo(id, payload);
        todo := todo - {id};
      }
    }

    method OfferTo(id: nat, payload: Payload)
      requires Wired() && id in subscribers && created[id].closes == 0
      modifies this`subscribers, created[id]
      ensures Wired()
      ensures Chans() == old(Chans())[id := Offer(old(Chans()[id]), payload)]
      ensures subscribers.Keys == StillLive(old(subscribers.Keys), id, old(Chans()[id]))
    {
      hide BusOk, ChanOk;
      var subscriber := subscribers[id];
      assert forall k :: k in created && k != id ==> created[k] != subscriber;
      var sent := subscriber.TrySend(payload);
      if !sent {
        subscribers := subscribers - {id};
        subscriber.Close();
      }
      assert subscriber.View() == Offer(old(Chans()[id]), payload);
    }
  }

  ghost predicate AllOpen(chans: map<nat, Chan>, live: set<nat>) {
    forall id :: id in live ==> id in chans && chans[id].closes == 0
  }

  function StillLive(live: set<nat>, id: nat, c: Chan): set<nat> {
    if |c.buffer| < BUFFER then live else live - {id}
  }

  /**
   A round of offers to `live`, with `todo` still to come: room is used, the full are
   closed and dropped, the rest is untouched.
   */
  ghost predicate OfferedTo(before: map<nat, Chan>, live: set<nat>, todo: set<nat>, p: Payload,
                            after: map<nat, Chan>, left: set<nat>)
  {
    && after.Keys == before.Keys && AllOpen(before, live)
    && (forall id :: id in after ==>
          after[id] == if id in live && id !in todo then Offer(before[id], p) else before[id])
    && (forall id :: id in left <==> id in live && (id in todo || |before[id].buffer| < BUFFER))
  }

  lemma OfferedNext(before: map<nat, Chan>, live: set<nat>, todo: set<nat>, p: Payload,
                    after: map<nat, Chan>, left: set<nat>, id: nat)
    requires OfferedTo(before, live, todo, p, after, left) && id in todo && todo <= live
    ensures id in left && after[id] == before[id] && after[id].closes == 0
    ensures OfferedTo(before, live, todo - {id}, p, after[id := Offer(after[id], p)], StillLive(left, id, after[id]))
  {
  }

  lemma SubscribeIs(b: Bus)
    ensures Subscribed(b) ==
      Bus(b.chans[b.nextID + 1 := Chan([], 0, [], |b.log|)], b.live + {b.nextID + 1},
          b.closing, b.nextID + 1, b.log, b.panicked)
  {
  }

  lemma PublishIs(before: map<nat, Chan>, live: set<nat>, closing: multiset<nat>, nextID: nat, log: seq<Payload>,
                  p: Payload, after: map<nat, Chan>, left: set<nat>)
    requires live != {} && OfferedTo(before, live, {}, p, after, left)
    ensures Published(Bus(before, live, closing, nextID, log, false), p)
      == Bus(after, left, closing, nextID, log + [p], false)
  {
    assert left == live - Overflowing(Bus(before, live, closing, nextID, log, false));
  }

  lemma NextIdIsNew(b: Bus)
    requires BusOk(b)
    ensures b.nextID + 1 !in b.chans
  {
    forall id | id in b.chans
      ensures id <= b.nextID
    {
      assert ChanOk(b, id);
    }
  }

  lemma ClosingIsOpen(b: Bus, id: nat)
    requires BusOk(b) && id in b.closing
    ensures id in b.chans && b.chans[id].closes == 0
  {
    assert ChanOk(b, id);
  }

  lemma LiveIsOpen(b: Bus)
    requires BusOk(b)
    ensures AllOpen(b.chans, b.live)
  {
    forall id | id in b.live
      ensures b.chans[id].closes == 0
    {
      assert ChanOk(b, id);
    }
  }
}
