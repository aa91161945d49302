/**
 * The `SunnyPass` registry of lib/SunnyPass.js: a persistent list of the
 * lockers known to the browser, keyed by shared id, and a volatile cache of
 * the lockers already opened, keyed by seed.
 *
 * Opening a locker loads its metadata; which metadata documents cannot be read
 * is a parameter (`faults`), and so is the collection a new locker opens.
 */
module LibRegistry {
  import opened Wrappers
  import opened Externals
  import opened Secrets
  import opened Seqs
  import opened Cache
  import opened Lockers
  import opened Listing

  class SunnyPass {
    const crypto: Crypto
    const json: Json
    const cache: KeyCache
    var listCache: map<string, Secret>     // lockersListCache: shared id -> {secret}
    var lockersCache: map<string, Locker>  // lockersCache: seed -> locker

    /** Entries are filed under their own shared id and seed, and every locker shares the key cache. */
    ghost predicate Valid()
      reads this
    {
      && (forall sh :: sh in listCache ==> listCache[sh].shared == sh)
      && (forall k :: k in lockersCache ==> lockersCache[k].secret.key == k && lockersCache[k].cache == cache)
    }

    constructor (crypto: Crypto, json: Json, cache: KeyCache, listCache: map<string, Secret>)
      requires forall sh :: sh in listCache ==> listCache[sh].shared == sh
      ensures this.crypto == crypto && this.json == json && this.cache == cache
      ensures this.listCache == listCache && lockersCache == map[]
      ensures Valid()
    {
      this.crypto := crypto;
      this.json := json;
      this.cache := cache;
      this.listCache := listCache;
      lockersCache := map[];
    }

    /**
     * `get`: registers the secret unless its shared id is listed already, then
     * resolves with the cached locker for the seed, or opens one and caches it
     * once its metadata has loaded.
     */
    method Get(arg: SecretArg, docs: map<string, Doc>, faults: set<MetaName>) returns (o: Outcome<Locker>)
      requires Valid()
      modifies this`listCache, this`lockersCache
      ensures Valid()
      ensures var s := Resolve(crypto, arg);
        && listCache == (if s.shared in old(listCache) then old(listCache) else old(listCache)[s.shared := s])
        && (s.key in old(lockersCache) ==>
              o == Resolved(old(lockersCache)[s.key]) && lockersCache == old(lockersCache))
        && (s.key !in old(lockersCache) && faults == {} ==>
              && o.Resolved? && fresh(o.value) && o.value.secret == s && o.value.docs == docs
              && o.value.metadata == LoadAll(crypto, s.key, docs, faults, map[], MetaNames)
              && lockersCache == old(lockersCache)[s.key := o.value])
        && (s.key !in old(lockersCache) && faults != {} ==>
              o == Rejected(StoreFailure) && lockersCache == old(lockersCache))
      ensures o.Resolved? ==> var k := Resolve(crypto, arg).key; k in lockersCache && lockersCache[k] == o.value
    {
      var s := Resolve(crypto, arg);
      if s.shared !in listCache {
        listCache := listCache[s.shared := s];
      }
      if s.key in lockersCache {
        return Resolved(lockersCache[s.key]);
      }
      var locker := new Locker(Given(s), crypto, json, cache, docs);
      var loaded := locker.LoadMetadata(faults);
      if loaded.Resolved? {
        lockersCache := lockersCache[s.key := locker];
        o := Resolved(locker);
      } else {
        o := Rejected(loaded.error);
      }
    }

    /** `getBySharedSecret`: `get` on the listed secret; an unlisted id rejects. */
    method GetBySharedSecret(shared: string, docs: map<string, Doc>, faults: set<MetaName>) returns (o: Outcome<Locker>)
      requires Valid()
      modifies this`listCache, this`lockersCache
      ensures Valid()
      ensures listCache == old(listCache)
      ensures shared !in listCache ==> o == Rejected(UnknownLocker) && lockersCache == old(lockersCache)
      ensures shared in listCache ==> var k := listCache[shared].key;
        && (k in old(lockersCache) ==> o == Resolved(old(lockersCache)[k]) && lockersCache == old(lockersCache))
        && (k !in old(lockersCache) && faults == {} ==>
              && o.Resolved? && fresh(o.value) && o.value.secret == listCache[shared]
              && lockersCache == old(lockersCache)[k := o.value])
        && (k !in old(lockersCache) && faults != {} ==>
              o == Rejected(StoreFailure) && lockersCache == old(lockersCache))
      ensures o.Resolved? ==> shared in listCache && var k := listCache[shared].key;
        k in lockersCache && lockersCache[k] == o.value
    {
      if shared !in listCache {
        return Rejected(UnknownLocker);
      }
      o := Get(Given(listCache[shared]), docs, faults);
    }

    /**
     * `list`: opens the locker of every listed shared id; any failure rejects
     * the whole list, though the lockers opened meanwhile stay cached.
     * `docsOf` and `faultsOf` give each shared id's collection and unreadable
     * metadata documents.
     */
    method List(docsOf: string -> map<string, Doc>, faultsOf: string -> set<MetaName>) returns (o: Outcome<seq<Locker>>)
      requires Valid()
      modifies this`listCache, this`lockersCache
      ensures Valid()
      ensures listCache == old(listCache)
      ensures forall k :: k in old(lockersCache) ==> k in lockersCache && lockersCache[k] == old(lockersCache)[k]
      ensures (forall sh :: sh in listCache && faultsOf(sh) != {} ==> listCache[sh].key in old(lockersCache)) ==> o.Resolved?
      ensures !o.Pending?
      ensures o.Rejected? ==> o.error == UnknownError
      ensures o.Rejected? ==> exists sh :: sh in listCache && faultsOf(sh) != {} && listCache[sh].key !in old(lockersCache)
      ensures SeedsDistinct(listCache) ==>
        ((exists sh :: sh in listCache && faultsOf(sh) != {} && listCache[sh].key !in old(lockersCache)) ==> o.Rejected?)
      ensures o.Resolved? ==>
        && |o.value| == |listCache|
        && forall sh :: sh in listCache ==>
             listCache[sh].key in lockersCache && exists i :: 0 <= i < |o.value| && o.value[i] == lockersCache[listCache[sh].key]
    {
      var ks := Enumerate(listCache.Keys);
      ghost var L, C0 := listCache, lockersCache;
      var results: seq<Locker> := [];
      var failed := false;
      assert OpenedInOrder(results, lockersCache, L, ks, 0);
      for i := 0 to |ks|
        invariant Valid()
        invariant listCache == L
        invariant Listed(results, failed, lockersCache, C0, L, ks, i, faultsOf)
      {
        ghost var before := lockersCache;
        var r := GetBySharedSecret(ks[i], docsOf(ks[i]), faultsOf(ks[i]));
        ListedStep(results, failed, before, lockersCache, C0, L, ks, i, faultsOf, r);
        results := if r.Resolved? then results + [r.value] else results;
        failed := failed || r.Rejected?;
      }
      ListedDone(results, failed, lockersCache, C0, L, ks, faultsOf);
      if failed {
        return Rejected(UnknownError);
      }
      forall sh | sh in listCache
        ensures listCache[sh].key in lockersCache
        ensures exists i :: 0 <= i < |results| && results[i] == lockersCache[listCache[sh].key]
      {
        var j :| 0 <= j < |ks| && ks[j] == sh;
      }
      o := Resolved(results);
    }

    /** `wipe`: locks every locker and empties both caches, whether or not destroying the databases fails. */
    method Wipe(destroyFails: bool) returns (o: Outcome<()>)
      modifies this`listCache, this`lockersCache, cache`storage
      ensures listCache == map[] && lockersCache == map[]
      ensures cache.storage == Invalidated(old(cache.storage), None)
      ensures forall k :: !Unlocked(cache.storage, k)
      ensures o == if destroyFails then Rejected(StoreFailure) else Resolved(())
      ensures Valid()
    {
      Locker.LockAll(cache);
      listCache := map[];
      lockersCache := map[];
      o := if destroyFails then Rejected(StoreFailure) else Resolved(());
    }
  }
}
