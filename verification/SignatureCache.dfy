/** The signature cache with its buckets updated in place, and what interleaved purging can do. */
module SignatureCache {
  import opened SignatureCacheSpec

  class SignatureCache {
    var groups: Cache

    constructor ()
      ensures groups == Run([])
    {
      groups := map[];
    }

    method CacheSignature(model: string, key: TextKey, signature: string, now: int)
      modifies this
      ensures groups == Store(old(groups), model, key, signature, now)
    {
      if key == Blank || signature == "" || |signature| < MIN_SIGNATURE { return; }
      var group := GroupOf(model);
      if group !in groups { groups := groups[group := map[]]; }
      groups := groups[group := groups[group][key.h := Entry(signature, now)]];
    }

    method GetCachedSignature(model: string, key: TextKey, now: int) returns (signature: string)
      modifies this
      ensures groups == Touch(old(groups), model, key, now)
      ensures signature == Answer(old(groups), model, key, now)
    {
      hide GroupOf;
      var group := GroupOf(model);
      if key == Blank || group !in groups || key.h !in groups[group] { return Fallback(group); }
      var entry := groups[group][key.h];
      if Expired(entry, now) {
        groups := groups[group := groups[group] - {key.h}];
        return Fallback(group);
      }
      groups := groups[group := groups[group][key.h := Entry(entry.signature, now)]];
      signature := entry.signature;
    }

    method PurgeExpiredCaches(now: int)
      modifies this
      ensures groups == Purge(old(groups), now)
    {
      var all, todo := groups, groups.Keys;
      while todo != {}
        invariant todo <= groups.Keys && SweptBut(all, groups, todo, now)
        decreases |todo|
      {
        var g :| g in todo;
        SweptOneMore(all, groups, todo, g, now);
        var kept := WithoutExpired(groups[g], now);
        groups := if kept == map[] then groups - {g} else groups[g := kept];
        todo := todo - {g};
      }
      SweptAll(all, groups, now);
    }

    method ClearSignatureCache(model: string)
      modifies this
      ensures groups == Clear(old(groups), model)
    {
      if model == "" { groups := map[]; return; }
      groups := groups - {GroupOf(model)};
    }
  }

  /** Swept except for the groups still to do. */
  ghost predicate SweptBut(all: Cache, now: Cache, todo: set<string>, at: int) {
    && now.Keys <= all.Keys
    && (forall g :: g in all ==> g in now || (g !in todo && Swept(all[g], at) == map[]))
    && (forall g :: g in now ==>
      if g in todo then now[g] == all[g] else now[g] == Swept(all[g], at) && now[g] != map[])
  }

  lemma SweptOneMore(all: Cache, now: Cache, todo: set<string>, g: string, at: int)
    requires SweptBut(all, now, todo, at) && g in todo && g in now
    ensures
      var kept := Swept(now[g], at);
      SweptBut(all, if kept == map[] then now - {g} else now[g := kept], todo - {g}, at)
  {
    hide Swept;
  }

  lemma SweptAll(all: Cache, now: Cache, at: int)
    requires SweptBut(all, now, {}, at)
    ensures now == Purge(all, at)
  {
    hide Swept;
  }

  /** Deletes expired entries one by one. */
  method WithoutExpired(entries: map<string, Entry>, now: int) returns (kept: map<string, Entry>)
    ensures kept == Swept(entries, now)
  {
    kept := entries;
    var todo := entries.Keys;
    while todo != {}
      invariant todo <= kept.Keys <= entries.Keys
      invariant forall h :: h in kept ==> kept[h] == entries[h] && (h in todo || !Expired(entries[h], now))
      invariant forall h :: h in entries && h !in kept ==> Expired(entries[h], now)
      decreases |todo|
    {
      var h :| h in todo;
      if Expired(kept[h], now) { kept := kept - {h}; }
      todo := todo - {h};
    }
  }
}
