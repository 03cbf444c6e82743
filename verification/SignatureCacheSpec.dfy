/**
 The thinking-signature cache: entries expire three hours after they were last used, and
 a purge removes what has expired. Times are nanoseconds; texts are known by their hash.
 */
module SignatureCacheSpec {
  import opened Prelude

  const TTL: int := 3 * 3600 * 1_000_000_000
  const MIN_SIGNATURE := 50
  const SKIP := "skip_thought_signature_validator"

  datatype Entry = Entry(signature: string, at: int)

  /** model group -> text hash -> entry */
  type Cache = map<string, map<string, Entry>>

  /** A text: empty, or the hash of a non-empty one. */
  datatype TextKey = Blank | Hash(h: string)

  predicate ContainsFrom(s: string, sub: string, i: nat)
    decreases |s| - i
  {
    i + |sub| <= |s| && (s[i..i + |sub|] == sub || ContainsFrom(s, sub, i + 1))
  }

  /** GetModelGroup */
  function GroupOf(model: string): string {
    if ContainsFrom(model, "gpt", 0) then "gpt"
    else if ContainsFrom(model, "claude", 0) then "claude"
    else if ContainsFrom(model, "gemini", 0) then "gemini"
    else model
  }

  function Fallback(group: string): string {
    if group == "gemini" then SKIP else ""
  }

  predicate Expired(e: Entry, now: int) {
    now - e.at > TTL
  }

  // ----- one operation at a time ------------------------------------------------------------

  datatype Event =
    | Stored(model: string, key: TextKey, signature: string, at: int)
    | Got(model: string, key: TextKey, at: int)
    | Purged(at: int)
    | Cleared(model: string, at: int)

  predicate Keeps(key: TextKey, signature: string) {
    key != Blank && |signature| >= MIN_SIGNATURE
  }

  function Bucket(c: Cache, group: string): map<string, Entry> {
    if group in c then c[group] else map[]
  }

  /** CacheSignature */
  function Store(c: Cache, model: string, key: TextKey, signature: string, at: int): Cache {
    if !Keeps(key, signature) then c
    else c[GroupOf(model) := Bucket(c, GroupOf(model))[key.h := Entry(signature, at)]]
  }

  /** What GetCachedSignature leaves behind: a hit is touched, an expired entry dropped. */
  function Touch(c: Cache, model: string, key: TextKey, at: int): Cache {
    var group := GroupOf(model);
    if key == Blank || group !in c || key.h !in c[group] then c
    else if Expired(c[group][key.h], at) then c[group := c[group] - {key.h}]
    else c[group := c[group][key.h := Entry(c[group][key.h].signature, at)]]
  }

  /** What GetCachedSignature returns. */
  function Answer(c: Cache, model: string, key: TextKey, at: int): string {
    match if key == Blank then None else LiveAt(c, GroupOf(model), key.h, at)
    case None => Fallback(GroupOf(model))
    case Some(e) => e.signature
  }

  function Swept(b: map<string, Entry>, now: int): map<string, Entry> {
    map h | h in b && !Expired(b[h], now) :: b[h]
  }

  /** purgeExpiredCaches as one step. */
  function Purge(c: Cache, now: int): Cache {
    map g | g in c && Swept(c[g], now) != map[] :: Swept(c[g], now)
  }

  /** ClearSignatureCache */
  function Clear(c: Cache, model: string): Cache {
    if model == "" then map[] else c - {GroupOf(model)}
  }

  function Step(c: Cache, e: Event): Cache {
    match e
    case Stored(model, key, signature, at) => Store(c, model, key, signature, at)
    case Got(model, key, at) => Touch(c, model, key, at)
    case Purged(at) => Purge(c, at)
    case Cleared(model, _) => Clear(c, model)
  }

  function Run(events: seq<Event>): Cache {
    if events == [] then map[] else Step(Run(events[..|events| - 1]), events[|events| - 1])
  }

  /** The entry a lookup at time t would hit. */
  function LiveAt(c: Cache, group: string, h: string, t: int): Option<Entry> {
    if group in c && h in c[group] then Unexpired(Some(c[group][h]), t) else None
  }

  function Unexpired(e: Option<Entry>, t: int): Option<Entry> {
    if e == None || Expired(e.value, t) then None else e
  }

  // ----- one key at a time --------------------------------------------------------------------

  predicate Touches(e: Event, group: string, h: string) {
    (e.Stored? || e.Got?) && e.key == Hash(h) && GroupOf(e.model) == group
  }

  /**
   What one key's own events make of it: a store sets it, a lookup in time renews it, a
   late one or a clear ends it. Purges and other keys play no part.
   */
  function Timeline(events: seq<Event>, group: string, h: string): Option<Entry> {
    if events == [] then None
    else
      var before, e := Timeline(events[..|events| - 1], group, h), events[|events| - 1];
      if e.Stored? && Touches(e, group, h) && Keeps(e.key, e.signature) then Some(Entry(e.signature, e.at))
      else if e.Got? && Touches(e, group, h) then
        match Unexpired(before, e.at) case None => None case Some(kept) => Some(Entry(kept.signature, e.at))
      else if e.Cleared? && (e.model == "" || GroupOf(e.model) == group) then None
      else before
  }

  ghost predicate InOrder(events: seq<Event>) {
    forall i, j :: 0 <= i < j < |events| ==> events[i].at <= events[j].at
  }

  lemma PurgedLookup(c: Cache, now: int, group: string, h: string)
    ensures LiveAt(Purge(c, now), group, h, now) == LiveAt(c, group, h, now)
  {
    if group in c && h in c[group] && !Expired(c[group][h], now) {
      assert h in Swept(c[group], now);
      assert group in Purge(c, now);
    }
  }

  lemma EntryOf(c: Cache, e: Event, group: string, h: string)
    ensures match e
            case Purged(at) => LiveAt(Step(c, e), group, h, at) == LiveAt(c, group, h, at)
            case _ => true
    ensures !Touches(e, group, h) && !e.Purged? && !(e.Cleared? && (e.model == "" || GroupOf(e.model) == group)) ==>
      forall t :: LiveAt(Step(c, e), group, h, t) == LiveAt(c, group, h, t)
  {
    hide GroupOf;
    if e.Purged? { PurgedLookup(c, e.at, group, h); }
  }

  /**
   Lookups see exactly what the key's own history says: the cache keeps keys apart,
   purges are invisible, and a hit is the last signature stored, used within the last
   three hours.
   */
  lemma {:induction false} CacheIsTimelines(events: seq<Event>, group: string, h: string, t: int)
    requires InOrder(events) && (events != [] ==> events[|events| - 1].at <= t)
    ensures LiveAt(Run(events), group, h, t) == Unexpired(Timeline(events, group, h), t)
  {
    if events != [] {
      hide GroupOf;
      var front, e := events[..|events| - 1], events[|events| - 1];
      CacheIsTimelines(front, group, h, e.at);
      CacheIsTimelines(front, group, h, t);
      EntryOf(Run(front), e, group, h);
      LaterLookup(Run(events), group, h, e.at, t);
      LaterLookup(Run(front), group, h, e.at, t);
    }
  }

  lemma LaterLookup(c: Cache, group: string, h: string, t: int, u: int)
    requires t <= u
    ensures LiveAt(c, group, h, u) == Unexpired(LiveAt(c, group, h, t), u)
  {
  }

  function WithoutPurges(events: seq<Event>): seq<Event> {
    if events == [] then []
    else
      WithoutPurges(events[..|events| - 1])
      + if events[|events| - 1].Purged? then [] else [events[|events| - 1]]
  }

  lemma {:induction false} TimelineIgnoresPurges(events: seq<Event>, group: string, h: string)
    ensures Timeline(WithoutPurges(events), group, h) == Timeline(events, group, h)
  {
    if events != [] {
      var front, e := events[..|events| - 1], events[|events| - 1];
      TimelineIgnoresPurges(front, group, h);
      var kept := WithoutPurges(front);
      if e.Purged? {
        assert kept + [] == kept;
      } else {
        assert (kept + [e])[..|kept|] == kept && (kept + [e])[|kept|] == e;
      }
    }
  }

  lemma {:induction false} WithoutPurgesInOrder(events: seq<Event>)
    requires InOrder(events)
    ensures InOrder(WithoutPurges(events))
    ensures forall e :: e in WithoutPurges(events) ==> e in events
    ensures events != [] ==> forall e :: e in WithoutPurges(events) ==> e.at <= events[|events| - 1].at
    ensures WithoutPurges(events) != [] ==>
      events != [] && WithoutPurges(events)[|WithoutPurges(events)| - 1] in WithoutPurges(events)
  {
    if events != [] {
      WithoutPurgesInOrder(events[..|events| - 1]);
      forall e | e in WithoutPurges(events[..|events| - 1])
        ensures e.at <= events[|events| - 1].at
      {
      }
    }
  }

  /** Whenever purges run, and however often, no lookup ever answers differently. */
  lemma PurgesAreInvisible(events: seq<Event>, model: string, key: TextKey, t: int)
    requires InOrder(events) && (events != [] ==> events[|events| - 1].at <= t)
    ensures Answer(Run(events), model, key, t) == Answer(Run(WithoutPurges(events)), model, key, t)
  {
    hide GroupOf, Timeline, WithoutPurges, Run, InOrder, LiveAt, Unexpired;
    if key != Blank {
      var group, rest := GroupOf(model), WithoutPurges(events);
      WithoutPurgesInOrder(events);
      CacheIsTimelines(events, group, key.h, t);
      CacheIsTimelines(rest, group, key.h, t);
      TimelineIgnoresPurges(events, group, key.h);
    }
  }

  // ----- which models share a bucket --------------------------------------------------------------------

  predicate StandsAt(word: string, model: string, i: nat) {
    i + |word| <= |model| && model[i..i + |word|] == word
  }

  /** The model's name contains the word. */
  ghost predicate Mentions(model: string, word: string) {
    exists i: nat :: StandsAt(word, model, i)
  }

  lemma {:induction false} ContainsExactly(s: string, sub: string, i: nat)
    ensures ContainsFrom(s, sub, i) <==> exists j: nat :: i <= j && StandsAt(sub, s, j)
    decreases |s| - i
  {
    if i + |sub| <= |s| {
      ContainsExactly(s, sub, i + 1);
      if s[i..i + |sub|] == sub { assert StandsAt(sub, s, i); }
    }
  }

  /** Models of one family share a bucket, GPT before Claude before Gemini; any other model shares with nobody. */
  datatype Family = GPTs | Claudes | Geminis | Alone(model: string)

  ghost function FamilyOf(model: string): Family {
    if Mentions(model, "gpt") then GPTs
    else if Mentions(model, "claude") then Claudes
    else if Mentions(model, "gemini") then Geminis
    else Alone(model)
  }

  lemma MentionsIsContained(model: string)
    ensures ContainsFrom(model, "gpt", 0) <==> Mentions(model, "gpt")
    ensures ContainsFrom(model, "claude", 0) <==> Mentions(model, "claude")
    ensures ContainsFrom(model, "gemini", 0) <==> Mentions(model, "gemini")
  {
    hide ContainsFrom;
    ContainsExactly(model, "gpt", 0);
    ContainsExactly(model, "claude", 0);
    ContainsExactly(model, "gemini", 0);
  }

  lemma WordsMentionThemselves()
    ensures Mentions("gpt", "gpt") && Mentions("claude", "claude") && Mentions("gemini", "gemini")
  {
    assert StandsAt("gpt", "gpt", 0) && StandsAt("claude", "claude", 0) && StandsAt("gemini", "gemini", 0);
  }

  /** Two models share a bucket exactly if they are of one family; a miss answers with the sentinel for Gemini only. */
  lemma SharedExactly(a: string, b: string)
    ensures GroupOf(a) == GroupOf(b) <==> FamilyOf(a) == FamilyOf(b)
    ensures Fallback(GroupOf(a)) == if FamilyOf(a) == Geminis then "skip_thought_signature_validator" else ""
  {
    hide ContainsFrom, Mentions;
    MentionsIsContained(a);
    MentionsIsContained(b);
    WordsMentionThemselves();
  }

  /** A signature just stored is found again for any model of the family within three hours, and not after. */
  lemma StoredIsFound(c: Cache, a: string, b: string, h: string, signature: string, at: int, t: int)
    requires |signature| >= 50 && at <= t && FamilyOf(a) == FamilyOf(b)
    ensures var answer := Answer(Store(c, a, Hash(h), signature, at), b, Hash(h), t);
      if t - at <= 3 * 60 * 60 * 1_000_000_000 then answer == signature
      else answer == if FamilyOf(b) == Geminis then "skip_thought_signature_validator" else ""
  {
    hide GroupOf, Fallback, FamilyOf;
    SharedExactly(a, b);
    SharedExactly(b, b);
  }

  /** What is shorter than fifty characters, or belongs to an empty text, is not stored. */
  lemma RefusedExactly(c: Cache, model: string, key: TextKey, signature: string, at: int)
    ensures key == Blank || |signature| < 50 ==> Store(c, model, key, signature, at) == c
  {
  }
}
