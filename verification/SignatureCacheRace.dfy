/**
 The signature cache at the grain of its locks. The table of buckets and each bucket have
 locks of their own, so a store or lookup first picks up its group's bucket and works on
 it later, and a purge empties a bucket in one step and drops it from the table in another.
 */
module SignatureCacheRace {
  import opened Prelude
  import opened SignatureCacheSpec

  /** `owner` is history: the group each bucket was made for. */
  datatype World = World(
    buckets: seq<map<string, Entry>>, table: map<string, nat>, held: map<nat, nat>, doomed: set<string>,
    owner: seq<string>)

  datatype Action =
    | Open(thread: nat, group: string)
    | Insert(thread: nat, h: string, signature: string, at: int)
    | Load(thread: nat, group: string)
    | Read(thread: nat, h: string, at: int)
    | Sweep(group: string, at: int)
    | Drop(group: string)
    | Clear(group: string)

  const EMPTY := World([], map[], map[], {}, [])

  ghost predicate Valid(w: World) {
    && |w.owner| == |w.buckets|
    && (forall g :: g in w.table ==> w.table[g] < |w.buckets| && w.owner[w.table[g]] == g)
    && (forall t :: t in w.held ==> w.held[t] < |w.buckets|)
  }

  function Act(w: World, a: Action): World
    requires Valid(w)
  {
    match a
    case Open(t, g) =>
      if g in w.table then w.(held := w.held[t := w.table[g]])
      else
        w.(buckets := w.buckets + [map[]], owner := w.owner + [g],
           table := w.table[g := |w.buckets|], held := w.held[t := |w.buckets|])
    case Insert(t, h, signature, at) =>
      if t !in w.held then w
      else
        var b := w.held[t];
        w.(buckets := w.buckets[b := w.buckets[b][h := Entry(signature, at)]], held := w.held - {t})
    case Load(t, g) => if g in w.table then w.(held := w.held[t := w.table[g]]) else w.(held := w.held - {t})
    case Read(t, h, at) =>
      if t !in w.held then w
      else if h !in w.buckets[w.held[t]] then w.(held := w.held - {t})
      else
        var b := w.held[t];
        var e := w.buckets[b][h];
        w.(held := w.held - {t},
           buckets := w.buckets[b :=
             if Expired(e, at) then w.buckets[b] - {h} else w.buckets[b][h := Entry(e.signature, at)]])
    case Sweep(g, at) =>
      if g !in w.table then w
      else
        var kept := Swept(w.buckets[w.table[g]], at);
        w.(buckets := w.buckets[w.table[g] := kept], doomed := if kept == map[] then w.doomed + {g} else w.doomed)
    case Drop(g) => if g in w.doomed then w.(table := w.table - {g}, doomed := w.doomed - {g}) else w
    case Clear(g) => w.(table := w.table - {g})
  }

  lemma ActIsValid(w: World, a: Action)
    requires Valid(w)
    ensures Valid(Act(w, a))
  {
  }

  function Run(w: World, actions: seq<Action>): (r: World)
    requires Valid(w)
    ensures Valid(r)
  {
    if actions == [] then w
    else
      var before := Run(w, actions[..|actions| - 1]);
      ActIsValid(before, actions[|actions| - 1]);
      Act(before, actions[|actions| - 1])
  }

  /** What a thread about to read would be given. */
  function Hit(w: World, thread: nat, h: string, at: int): Option<string>
    requires Valid(w)
  {
    if thread in w.held && h in w.buckets[w.held[thread]] && !Expired(w.buckets[w.held[thread]][h], at)
    then Some(w.buckets[w.held[thread]][h].signature) else None
  }

  /** The action stores h in bucket b. */
  predicate StoresAt(w: World, a: Action, b: nat, h: string) {
    a.Insert? && a.h == h && a.thread in w.held && w.held[a.thread] == b
  }

  /** The action stores h for group g, in whichever of its buckets the thread holds. */
  predicate StoresFor(w: World, a: Action, g: string, h: string)
    requires Valid(w)
  {
    a.Insert? && a.h == h && a.thread in w.held && w.owner[w.held[a.thread]] == g
  }

  /** The (index past the) last action of a run that stored h in bucket b, or 0. */
  function LastInsert(actions: seq<Action>, b: nat, h: string): (i: nat)
    ensures i <= |actions|
  {
    if actions == [] then 0
    else
      var front, a := actions[..|actions| - 1], actions[|actions| - 1];
      if StoresAt(Run(EMPTY, front), a, b, h) then |actions| else LastInsert(front, b, h)
  }

  /** The (index past the) last action of a run that stored h for group g, or 0: what a caller would call the latest. */
  function LastInsertIn(actions: seq<Action>, g: string, h: string): (i: nat)
    ensures i <= |actions|
  {
    if actions == [] then 0
    else
      var front, a := actions[..|actions| - 1], actions[|actions| - 1];
      if StoresFor(Run(EMPTY, front), a, g, h) then |actions| else LastInsertIn(front, g, h)
  }

  /** An entry after a step was there before with the same signature, or was just stored. */
  lemma EntriesComeFromInserts(w: World, a: Action, b: nat, h: string)
    requires Valid(w) && b < |Act(w, a).buckets| && h in Act(w, a).buckets[b]
    ensures var e := Act(w, a).buckets[b][h];
      if StoresAt(w, a, b, h) then e.signature == a.signature
      else b < |w.buckets| && h in w.buckets[b] && w.buckets[b][h].signature == e.signature
  {
  }

  lemma {:induction false} HistoryIsKept(actions: seq<Action>, b: nat, h: string)
    requires var w := Run(EMPTY, actions); b < |w.buckets| && h in w.buckets[b]
    ensures var i := LastInsert(actions, b, h);
      i > 0 && actions[i - 1].Insert? && actions[i - 1].h == h
      && actions[i - 1].signature == Run(EMPTY, actions).buckets[b][h].signature
  {
    hide Act, StoresAt;
    var front, a := actions[..|actions| - 1], actions[|actions| - 1];
    EntriesComeFromInserts(Run(EMPTY, front), a, b, h);
    if StoresAt(Run(EMPTY, front), a, b, h) {
      StoreIsInsert(Run(EMPTY, front), a, b, h);
    } else {
      HistoryIsKept(front, b, h);
    }
  }

  lemma StoreIsInsert(w: World, a: Action, b: nat, h: string)
    requires StoresAt(w, a, b, h)
    ensures a.Insert? && a.h == h
  {
  }

  /**
   However purges, stores, lookups and clears interleave, a hit is the signature last
   stored for that text in the bucket read.
   */
  lemma HitIsLastInBucket(actions: seq<Action>, thread: nat, h: string, at: int)
    requires Hit(Run(EMPTY, actions), thread, h, at) != None
    ensures var w := Run(EMPTY, actions);
      var i := LastInsert(actions, w.held[thread], h);
      && i > 0 && actions[i - 1].Insert? && actions[i - 1].h == h
      && Some(actions[i - 1].signature) == Hit(w, thread, h, at)
  {
    HistoryIsKept(actions, Run(EMPTY, actions).held[thread], h);
  }

  // ----- when a hit is the group's latest store ---------------------------------------------------------

  /** The k-th action stores h for group g in a bucket other than b. */
  ghost predicate ElsewhereAt(actions: seq<Action>, k: nat, b: nat, g: string, h: string)
    requires k < |actions|
  {
    var w := Run(EMPTY, actions[..k]);
    StoresFor(w, actions[k], g, h) && !StoresAt(w, actions[k], b, h)
  }

  /** From action i on, some action does. */
  ghost predicate StoredElsewhere(actions: seq<Action>, i: nat, b: nat, g: string, h: string) {
    exists k :: i <= k < |actions| && ElsewhereAt(actions, k, b, g, h)
  }

  /** Buckets are never reassigned, and a thread only ever holds buckets that exist. */
  lemma OwnersStay(w: World, a: Action)
    requires Valid(w)
    ensures w.owner <= Act(w, a).owner
  {
  }

  /** The group a thread last asked the table for. */
  function Asked(actions: seq<Action>, thread: nat): string {
    if actions == [] then ""
    else
      var a := actions[|actions| - 1];
      if (a.Open? || a.Load?) && a.thread == thread then a.group else Asked(actions[..|actions| - 1], thread)
  }

  lemma HeldStep(w: World, a: Action, thread: nat)
    requires Valid(w) && thread in Act(w, a).held
    ensures Valid(Act(w, a))
    ensures var g := Act(w, a).owner[Act(w, a).held[thread]];
      if (a.Open? || a.Load?) && a.thread == thread then g == a.group
      else thread in w.held && g == w.owner[w.held[thread]]
  {
    ActIsValid(w, a);
  }

  /** A thread only ever holds a bucket of the group it last asked for. */
  lemma {:induction false} HeldWasAsked(actions: seq<Action>, thread: nat)
    requires thread in Run(EMPTY, actions).held
    ensures var w := Run(EMPTY, actions); w.owner[w.held[thread]] == Asked(actions, thread)
  {
    hide Act;
    var front, a := actions[..|actions| - 1], actions[|actions| - 1];
    HeldStep(Run(EMPTY, front), a, thread);
    if !((a.Open? || a.Load?) && a.thread == thread) { HeldWasAsked(front, thread); }
  }

  lemma ElsewhereSnoc(front: seq<Action>, a: Action, i: nat, b: nat, g: string, h: string)
    ensures StoredElsewhere(front + [a], i, b, g, h) <==>
      StoredElsewhere(front, i, b, g, h)
      || (i <= |front| && StoresFor(Run(EMPTY, front), a, g, h) && !StoresAt(Run(EMPTY, front), a, b, h))
  {
    hide Run, StoresFor, StoresAt;
    var all := front + [a];
    assert all[..|front|] == front && all[|front|] == a;
    forall k | 0 <= k < |front|
      ensures ElsewhereAt(all, k, b, g, h) <==> ElsewhereAt(front, k, b, g, h)
    {
      assert all[..k] == front[..k] && all[k] == front[k];
    }
    assert ElsewhereAt(all, |front|, b, g, h) <==>
      StoresFor(Run(EMPTY, front), a, g, h) && !StoresAt(Run(EMPTY, front), a, b, h);
    hide ElsewhereAt;
    if StoredElsewhere(front, i, b, g, h) {
      var k :| i <= k < |front| && ElsewhereAt(front, k, b, g, h);
      assert ElsewhereAt(all, k, b, g, h);
    }
  }

  /**
   The bucket's last store is the group's last store exactly when no later one went to another bucket of the
   group.
   */
  lemma {:induction false} LastInBucketIsLastInGroupExactly(actions: seq<Action>, b: nat, g: string, h: string)
    requires var w := Run(EMPTY, actions); b < |w.owner| ==> w.owner[b] == g
    ensures LastInsert(actions, b, h) <= LastInsertIn(actions, g, h)
    ensures LastInsertIn(actions, g, h) == LastInsert(actions, b, h)
      <==> !StoredElsewhere(actions, LastInsert(actions, b, h), b, g, h)
  {
    hide Act, StoredElsewhere;
    if actions == [] {
      NothingElsewhere([], b, g, h);
    } else {
      var front, a := actions[..|actions| - 1], actions[|actions| - 1];
      var w := Run(EMPTY, front);
      assert actions == front + [a];
      OwnersStay(w, a);
      LastInBucketIsLastInGroupExactly(front, b, g, h);
      ElsewhereSnoc(front, a, LastInsert(front, b, h), b, g, h);
      NothingElsewhere(actions, b, g, h);
    }
  }

  lemma NothingElsewhere(actions: seq<Action>, b: nat, g: string, h: string)
    ensures !StoredElsewhere(actions, |actions|, b, g, h)
  {
  }

  /**
   A hit is the signature that the group asked for last had stored for the text exactly
   when no store since the one it returns went to another bucket of that group.
   */
  lemma HitIsLastStoredExactly(actions: seq<Action>, thread: nat, h: string, at: int)
    requires Hit(Run(EMPTY, actions), thread, h, at) != None
    ensures var w := Run(EMPTY, actions);
      var b, g := w.held[thread], Asked(actions, thread);
      var i := LastInsert(actions, b, h);
      && i > 0 && actions[i - 1].Insert? && actions[i - 1].h == h
      && Some(actions[i - 1].signature) == Hit(w, thread, h, at)
      && (LastInsertIn(actions, g, h) == i <==> !StoredElsewhere(actions, i, b, g, h))
  {
    var w := Run(EMPTY, actions);
    HeldWasAsked(actions, thread);
    HitIsLastInBucket(actions, thread, h, at);
    LastInBucketIsLastInGroupExactly(actions, w.held[thread], w.owner[w.held[thread]], h);
  }

  // ----- without drops and clears a hit is always the latest ---------------------------------------------

  /** The table's bucket is the only one the group ever had. */
  ghost predicate OneBucket(w: World, g: string)
    requires Valid(w)
  {
    forall b :: 0 <= b < |w.owner| && w.owner[b] == g ==> g in w.table && w.table[g] == b
  }

  ghost predicate Undisturbed(actions: seq<Action>, g: string) {
    forall i :: 0 <= i < |actions| ==> actions[i] != Drop(g) && actions[i] != Clear(g)
  }

  lemma OneBucketStays(w: World, a: Action, g: string)
    requires Valid(w) && OneBucket(w, g) && a != Drop(g) && a != Clear(g)
    ensures Valid(Act(w, a)) && OneBucket(Act(w, a), g)
  {
    ActIsValid(w, a);
  }

  lemma {:induction false} UndisturbedHasOneBucket(actions: seq<Action>, g: string)
    requires Undisturbed(actions, g)
    ensures OneBucket(Run(EMPTY, actions), g)
  {
    hide Act;
    if actions != [] {
      UndisturbedHasOneBucket(actions[..|actions| - 1], g);
      OneBucketStays(Run(EMPTY, actions[..|actions| - 1]), actions[|actions| - 1], g);
    }
  }

  /** As long as its group is neither dropped nor cleared, a hit is the last signature stored for the text. */
  lemma UndisturbedHitIsLastStored(actions: seq<Action>, thread: nat, h: string, at: int)
    requires Hit(Run(EMPTY, actions), thread, h, at) != None
    requires Undisturbed(actions, Asked(actions, thread))
    ensures var i := LastInsertIn(actions, Asked(actions, thread), h);
      && i > 0 && actions[i - 1].Insert? && actions[i - 1].h == h
      && Some(actions[i - 1].signature) == Hit(Run(EMPTY, actions), thread, h, at)
  {
    var b, g := Run(EMPTY, actions).held[thread], Asked(actions, thread);
    var i := LastInsert(actions, b, h);
    HeldWasAsked(actions, thread);
    HitIsLastStoredExactly(actions, thread, h, at);
    forall k | i <= k < |actions|
      ensures !ElsewhereAt(actions, k, b, g, h)
    {
      OnlyBucketIs(actions, k, b, g);
    }
  }

  /** A group that keeps one bucket had the same one at every earlier point. */
  lemma OnlyBucketIs(actions: seq<Action>, k: nat, b: nat, g: string)
    requires Undisturbed(actions, g) && k <= |actions| && b < |Run(EMPTY, actions).owner|
      && Run(EMPTY, actions).owner[b] == g
    ensures forall c :: 0 <= c < |Run(EMPTY, actions[..k]).owner| && Run(EMPTY, actions[..k]).owner[c] == g ==> c == b
  {
    UndisturbedHasOneBucket(actions, g);
    OwnersGrow(actions, k);
  }

  lemma {:induction false} OwnersGrow(actions: seq<Action>, k: nat)
    requires k <= |actions|
    ensures Run(EMPTY, actions[..k]).owner <= Run(EMPTY, actions).owner
    decreases |actions|
  {
    hide Act;
    if k == |actions| {
      assert actions[..k] == actions;
    } else {
      var front := actions[..|actions| - 1];
      assert front[..k] == actions[..k];
      OwnersGrow(front, k);
      OwnersStay(Run(EMPTY, front), actions[|actions| - 1]);
    }
  }

  // ----- when a stored signature can be missed ----------------------------------------------------

  /** A lookup of h in group g would find this signature, last used at `since` or later. */
  ghost predicate Visible(w: World, g: string, h: string, signature: string, since: int)
    requires Valid(w)
  {
    && g in w.table && h in w.buckets[w.table[g]]
    && w.buckets[w.table[g]][h].signature == signature && w.buckets[w.table[g]][h].at >= since
  }

  function TimeOf(a: Action, otherwise: int): int {
    if a.Insert? || a.Read? || a.Sweep? then a.at else otherwise
  }

  /**
   A completed store is visible at once exactly when the bucket it worked on is still in
   the table, or the table's own bucket happens to show the same signature as recently.
   */
  lemma StoreIsVisibleExactly(w: World, thread: nat, h: string, signature: string, at: int)
    requires Valid(w) && thread in w.held
    ensures var g := w.owner[w.held[thread]];
      var v := Act(w, Insert(thread, h, signature, at));
      && Valid(v)
      && (Visible(v, g, h, signature, at) <==>
        (g in w.table && w.table[g] == w.held[thread]) || Visible(w, g, h, signature, at))
  {
    ActIsValid(w, Insert(thread, h, signature, at));
  }

  /** Nothing but a drop, a clear or another store of the same text hides it within the TTL. */
  lemma VisibleStays(w: World, a: Action, g: string, h: string, signature: string, since: int)
    requires Valid(w) && Visible(w, g, h, signature, since)
    requires a != Drop(g) && a != Clear(g) && !(a.Insert? && a.h == h)
    requires since <= TimeOf(a, since) <= since + TTL
    ensures Valid(Act(w, a)) && Visible(Act(w, a), g, h, signature, since)
  {
    ActIsValid(w, a);
  }

  ghost predicate Harmless(actions: seq<Action>, g: string, h: string, since: int) {
    forall i :: 0 <= i < |actions| ==>
      actions[i] != Drop(g) && actions[i] != Clear(g) && !(actions[i].Insert? && actions[i].h == h)
      && since <= TimeOf(actions[i], since) <= since + TTL
  }

  lemma {:induction false} StoredStaysVisible(w: World, actions: seq<Action>, g: string, h: string,
                                              signature: string, since: int)
    requires Valid(w) && Visible(w, g, h, signature, since) && Harmless(actions, g, h, since)
    ensures Visible(Run(w, actions), g, h, signature, since)
  {
    hide Act, Visible;
    if actions != [] {
      StoredStaysVisible(w, actions[..|actions| - 1], g, h, signature, since);
      VisibleStays(Run(w, actions[..|actions| - 1]), actions[|actions| - 1], g, h, signature, since);
    }
  }

  /**
   A purge between a store's two steps loses the signature: the store completes on a
   bucket that is then dropped, and the next lookup at the same instant misses.
   */
  lemma PurgeCanLoseAStore(g: string, h: string, signature: string, at: int)
    ensures var w := Run(EMPTY, [Open(1, g), Sweep(g, at), Insert(1, h, signature, at), Drop(g), Load(2, g)]);
      w.buckets == [map[h := Entry(signature, at)]] && Hit(w, 2, h, at) == None
  {
    hide Run;
    var open, sweep, insert, drop, load := Open(1, g), Sweep(g, at), Insert(1, h, signature, at), Drop(g), Load(2, g);
    RunSnoc([], open);
    assert [] + [open] == [open];
    RunSnoc([open], sweep);
    assert [open] + [sweep] == [open, sweep];
    RunSnoc([open, sweep], insert);
    assert [open, sweep] + [insert] == [open, sweep, insert];
    RunSnoc([open, sweep, insert], drop);
    assert [open, sweep, insert] + [drop] == [open, sweep, insert, drop];
    RunSnoc([open, sweep, insert, drop], load);
    assert [open, sweep, insert, drop] + [load] == [open, sweep, insert, drop, load];
    assert Run(EMPTY, [open]).buckets == [map[]];
    assert Swept(map[], at) == map[];
    assert Run(EMPTY, [open, sweep]).buckets == [map[]];
  }

  /**
   A lookup that picked up its bucket before a clear reads it after a newer store went to
   the bucket that replaced it: the hit is stale, though the newer store has completed.
   */
  lemma HitCanBeStale(g: string, h: string, older: string, newer: string)
    requires older != newer
    ensures var actions :=
        [Open(1, g), Load(2, g), Insert(1, h, older, 1), Clear(g), Open(3, g), Insert(3, h, newer, 2)];
      && Hit(Run(EMPTY, actions), 2, h, 3) == Some(older)
      && LastInsertIn(actions, g, h) == 6 && actions[5].signature == newer
  {
    hide Run;
    var clear, open3, insert3 := Clear(g), Open(3, g), Insert(3, h, newer, 2);
    var start := [Open(1, g), Load(2, g), Insert(1, h, older, 1)];
    StaleStart(g, h, older);
    RunSnoc(start, clear);
    RunSnoc(start + [clear], open3);
    RunSnoc(start + [clear] + [open3], insert3);
    var actions := start + [clear] + [open3] + [insert3];
    assert actions == [Open(1, g), Load(2, g), Insert(1, h, older, 1), clear, open3, insert3];
    assert actions[..5] == start + [clear] + [open3];
    assert Run(EMPTY, start + [clear] + [open3]).buckets == [map[h := Entry(older, 1)], map[]];
  }

  lemma StaleStart(g: string, h: string, older: string)
    ensures var w := Run(EMPTY, [Open(1, g), Load(2, g), Insert(1, h, older, 1)]);
      w.buckets == [map[h := Entry(older, 1)]] && w.table == map[g := 0] && w.held == map[2 := 0] && w.owner == [g]
  {
    hide Run;
    var open, load, insert := Open(1, g), Load(2, g), Insert(1, h, older, 1);
    RunSnoc([], open);
    assert [] + [open] == [open];
    RunSnoc([open], load);
    assert [open] + [load] == [open, load];
    RunSnoc([open, load], insert);
    assert [open, load] + [insert] == [open, load, insert];
    assert Run(EMPTY, [open]).buckets == [map[]];
  }

  lemma RunSnoc(actions: seq<Action>, a: Action)
    ensures Run(EMPTY, actions + [a]) == Act(Run(EMPTY, actions), a) && Run(EMPTY, []) == EMPTY
  {
    hide Act;
    assert (actions + [a])[..|actions|] == actions;
  }
}
