/**
 * The `SunnyPass` registry of src/SunnyPass.js: the list of known lockers is a
 * Lawnchair collection of `{secret}` records keyed by shared id (through the
 * promise wrapper of src/Lawnchair.js over the `dom` adapter), and the
 * lockers already opened are kept in a volatile cache keyed by seed.
 *
 * The locker objects are those of the `Lockers` module.
 */
module SrcRegistry {
  import opened Wrappers
  import opened Externals
  import opened Secrets
  import opened Cache
  import opened Lockers
  import opened Lawnchair
  import opened Seqs
  import opened Listing

  /** The default collection name of a Lawnchair created without options. */
  const StoreName := "records"

  /** The index after `save` of a full key: appended unless already listed. */
  function Indexed1(idx: seq<string>, full: string): seq<string> {
    if full in idx then idx else idx + [full]
  }

  /** Removing a key just written forgets the write. */
  lemma UpdateThenRemove<K, V>(m: map<K, V>, k: K, v: V)
    ensures m[k := v] - {k} == m - {k}
  {
    assert (m[k := v] - {k}).Keys == (m - {k}).Keys;
  }

  class SunnyPass {
    const crypto: Crypto
    const json: Json
    const cache: KeyCache
    const store: Dom<Secret>
    var lockersCache: map<string, Locker>  // lockersCache: seed -> locker

    /** The store is consistent and files each secret under its shared id; cached lockers sit under their seed. */
    ghost predicate Valid()
      reads this, store
    {
      && store.Valid()
      && (forall k :: store.Get(k).Some? ==> store.Get(k).value.record.shared == k)
      && (forall k :: k in lockersCache ==> lockersCache[k].secret.key == k && lockersCache[k].cache == cache)
    }

    /**
     * `new SunnyPass()`: no locker open yet, over the Lawnchair collection
     * persisted by earlier sessions, whose records are `{secret}` objects
     * filed under their shared id.
     */
    constructor (crypto: Crypto, json: Json, cache: KeyCache, store: Dom<Secret>)
      requires store.name == StoreName && store.Valid()
      requires forall k :: store.Get(k).Some? ==> store.Get(k).value.record.shared == k
      ensures this.crypto == crypto && this.json == json && this.cache == cache && this.store == store
      ensures lockersCache == map[]
      ensures Valid()
    {
      this.crypto := crypto;
      this.json := json;
      this.cache := cache;
      this.store := store;
      lockersCache := map[];
    }

    /** A key found in the store is never empty: stored full keys carry a non-empty suffix. */
    lemma FoundKeyNonEmpty(k: string)
      requires Valid() && store.Get(k).Some?
      ensures k != ""
    {
      var full := store.FullKey(k);
      assert full in store.Index();
      var i :| 0 <= i < |store.Index()| && store.Index()[i] == full;
      assert Owned(store.name, store.Index()[i]);
    }

    /**
     * `get`: always saves `shared -> {secret}` in the store, then resolves with
     * the cached locker for the seed, or opens one and caches it once its
     * metadata has loaded.
     */
    method Get(arg: SecretArg, docs: map<string, Doc>, faults: set<MetaName>) returns (o: Outcome<Locker>)
      requires Valid()
      requires Resolve(crypto, arg).shared != ""
      modifies this`lockersCache, store
      ensures Valid()
      ensures var s := Resolve(crypto, arg);
        && store.records == old(store.records)[store.FullKey(s.shared) := s]
        && store.Get(s.shared) == Some(Keyed(s.shared, s))
        && store.Index() == Indexed1(old(store.Index()), store.FullKey(s.shared))
        && (s.key in old(lockersCache) ==>
              o == Resolved(old(lockersCache)[s.key]) && lockersCache == old(lockersCache))
        && (s.key !in old(lockersCache) && faults == {} ==>
              && o.Resolved? && fresh(o.value) && o.value.secret == s && o.value.docs == docs
              && o.value.metadata == LoadAll(crypto, s.key, docs, faults, map[], MetaNames)
              && lockersCache == old(lockersCache)[s.key := o.value])
        && (s.key !in old(lockersCache) && faults != {} ==>
              o == Rejected(StoreFailure) && lockersCache == old(lockersCache))
      ensures o.Resolved? ==> var k := Resolve(crypto, arg).key; k in lockersCache && lockersCache[k] == o.value
    {
      var s := Resolve(crypto, arg);
      var _ := store.Save(s.shared, s, "");
      forall k | store.Get(k).Some? ensures store.Get(k).value.record.shared == k {
        if k != s.shared {
          assert store.FullKey(k) != store.FullKey(s.shared);
          assert old(store.Get(k)).Some?;
        }
      }
      if s.key in lockersCache {
        return Resolved(lockersCache[s.key]);
      }
      var locker := new Locker(Given(s), crypto, json, cache, docs);
      var loaded := locker.LoadMetadata(faults);
      if loaded.Resolved? {
        lockersCache := lockersCache[s.key := locker];
        o := Resolved(locker);
      } else {
        o := Rejected(loaded.error);
      }
    }

    /** `getBySharedSecret`: `get` on the stored secret; an id with no record rejects. */
    method GetBySharedSecret(shared: string, docs: map<string, Doc>, faults: set<MetaName>) returns (o: Outcome<Locker>)
      requires Valid()
      modifies this`lockersCache, store
      ensures Valid()
      ensures store.records == old(store.records) && store.Index() == old(store.Index())
      ensures store.Get(shared).None? ==> o == Rejected(UnknownLocker) && lockersCache == old(lockersCache)
      ensures store.Get(shared).Some? ==> var s := store.Get(shared).value.record;
        && s.shared == shared
        && (s.key in old(lockersCache) ==> o == Resolved(old(lockersCache)[s.key]) && lockersCache == old(lockersCache))
        && (s.key !in old(lockersCache) && faults == {} ==>
              && o.Resolved? && fresh(o.value) && o.value.secret == s
              && lockersCache == old(lockersCache)[s.key := o.value])
        && (s.key !in old(lockersCache) && faults != {} ==>
              o == Rejected(StoreFailure) && lockersCache == old(lockersCache))
      ensures o.Resolved? ==> store.Get(shared).Some? && var k := store.Get(shared).value.record.key;
        k in lockersCache && lockersCache[k] == o.value
    {
      var item := store.Get(shared);
      if item.None? {
        return Rejected(UnknownLocker);
      }
      FoundKeyNonEmpty(shared);
      var s := item.value.record;
      o := Get(Given(s), docs, faults);
      assert store.records == old(store.records);
    }

    /**
     * `list`: opens the locker of every stored key, in index order; any failure
     * rejects the whole list, though the lockers opened meanwhile stay cached.
     */
    method List(docsOf: string -> map<string, Doc>, faultsOf: string -> set<MetaName>) returns (o: Outcome<seq<Locker>>)
      requires Valid()
      modifies this`lockersCache, store
      ensures Valid()
      ensures store.records == old(store.records) && store.Index() == old(store.Index())
      ensures forall k :: k in old(lockersCache) ==> k in lockersCache && lockersCache[k] == old(lockersCache)[k]
      ensures (forall full :: full in store.records && faultsOf(store.records[full].shared) != {} ==>
                 store.records[full].key in old(lockersCache)) ==> o.Resolved?
      ensures !o.Pending?
      ensures o.Rejected? ==> o.error == UnknownError
      ensures o.Rejected? ==> exists full :: full in store.records && faultsOf(store.records[full].shared) != {}
                                            && store.records[full].key !in old(lockersCache)
      ensures SeedsDistinct(store.records) ==>
        ((exists full :: full in store.records && faultsOf(store.records[full].shared) != {}
                         && store.records[full].key !in old(lockersCache)) ==> o.Rejected?)
      ensures o.Resolved? ==>
        && |o.value| == |store.Index()|
        && forall i :: 0 <= i < |o.value| ==>
             var s := store.records[store.Index()[i]];
             s.key in lockersCache && o.value[i] == lockersCache[s.key]
    {
      var ks := store.Keys();
      var results, failed := OpenEach(ks, docsOf, faultsOf);
      ListedDone(results, failed, lockersCache, old(lockersCache), store.records, store.Index(), faultsOf);
      if failed {
        return Rejected(UnknownError);
      }
      o := Resolved(results);
    }

    /**
     * The `async.map` inside `list`: `getBySharedSecret` on every key, taken
     * one after another although the source starts them together, collecting
     * the lockers; `failed` records that one of them rejected.
     */
    method OpenEach(ks: seq<string>, docsOf: string -> map<string, Doc>, faultsOf: string -> set<MetaName>)
      returns (results: seq<Locker>, failed: bool)
      requires Valid()
      requires |ks| == |store.Index()| && forall i :: 0 <= i < |ks| ==> store.FullKey(ks[i]) == store.Index()[i]
      modifies this`lockersCache, store
      ensures Valid()
      ensures store.records == old(store.records) && store.Index() == old(store.Index())
      ensures Listed(results, failed, lockersCache, old(lockersCache), store.records, store.Index(), |ks|, faultsOf)
    {
      results, failed := [], false;
      ghost var R, IX, C0 := store.records, store.Index(), lockersCache;
      assert forall j :: 0 <= j < |IX| ==> IX[j] in R;
      assert OpenedInOrder(results, lockersCache, R, IX, 0);
      for i := 0 to |ks|
        invariant Valid()
        invariant store.records == R && store.Index() == IX
        invariant Listed(results, failed, lockersCache, C0, R, IX, i, faultsOf)
      {
        assert store.FullKey(ks[i]) == IX[i] && IX[i] in R;
        assert store.Get(ks[i]) == Some(Keyed(ks[i], R[IX[i]]));
        ghost var before := lockersCache;
        var r := GetBySharedSecret(ks[i], docsOf(ks[i]), faultsOf(ks[i]));
        ListedStep(results, failed, before, lockersCache, C0, R, IX, i, faultsOf, r);
        results := if r.Resolved? then results + [r.value] else results;
        failed := failed || r.Rejected?;
      }
    }

    /**
     * `wipeLocker`: opens the locker through `get`, wipes it, then drops it
     * from the cache and its record from the store. `wipeFails` says whether
     * the locker's own wipe throws.
     */
    method WipeLocker(arg: SecretArg, docs: map<string, Doc>, faults: set<MetaName>, wipeFails: bool)
      returns (o: Outcome<()>)
      requires Valid()
      requires Resolve(crypto, arg).shared != ""
      modifies this`lockersCache, store
      ensures Valid()
      ensures var s := Resolve(crypto, arg);
        var full := store.FullKey(s.shared);
        var loads := s.key in old(lockersCache) || faults == {};
        && (!loads ==>
              && o == Rejected(StoreFailure) && lockersCache == old(lockersCache)
              && store.records == old(store.records)[full := s]
              && store.Index() == Indexed1(old(store.Index()), full))
        && (loads && wipeFails ==>
              && o == Rejected(TypeError)
              && s.key in lockersCache && lockersCache.Keys == old(lockersCache).Keys + {s.key}
              && (forall k :: k in old(lockersCache) ==> lockersCache[k] == old(lockersCache)[k])
              && store.records == old(store.records)[full := s]
              && store.Index() == Indexed1(old(store.Index()), full))
        && (loads && !wipeFails ==>
              && o == Resolved(())
              && lockersCache == old(lockersCache) - {s.key}
              && store.records == old(store.records) - {full}
              && store.Index() == Without(old(store.Index()), full)
              && store.Get(s.shared).None?)
    {
      var s := Resolve(crypto, arg);
      ghost var full, ix0 := store.FullKey(s.shared), store.Index();
      var got := Get(Given(s), docs, faults);
      if got.Rejected? {
        return Rejected(got.error);
      }
      if wipeFails {
        return Rejected(TypeError);
      }
      ghost var cached := lockersCache;
      lockersCache := lockersCache - {s.key};
      store.Remove(ByKey(s.shared));
      UpdateThenRemove(old(store.records), full, s);
      if s.key !in old(lockersCache) {
        UpdateThenRemove(old(lockersCache), s.key, cached[s.key]);
      }
      if full !in ix0 {
        WithoutAppend(ix0, full, full);
      }
      forall k | store.Get(k).Some? ensures store.Get(k).value.record.shared == k {
        assert old(store.Get(k)).Some?;
      }
      o := Resolved(());
    }

    /** `wipe`: locks every locker, nukes the store and empties the cache, whether or not destroying the databases fails. */
    method Wipe(destroyFails: bool) returns (o: Outcome<()>)
      requires Valid()
      modifies this`lockersCache, store, cache`storage
      ensures Valid()
      ensures store.records == map[] && store.Index() == [] && lockersCache == map[]
      ensures cache.storage == Invalidated(old(cache.storage), None)
      ensures forall k :: !Unlocked(cache.storage, k)
      ensures o == if destroyFails then Rejected(StoreFailure) else Resolved(())
    {
      Locker.LockAll(cache);
      store.Nuke();
      lockersCache := map[];
      o := if destroyFails then Rejected(StoreFailure) else Resolved(());
    }
  }
}
