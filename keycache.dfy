/**
 * The in-memory key cache (lib/SunnyPassKeyCache.js): derived encryption keys
 * indexed by the secret's seed, each with a sliding expiry, swept periodically
 * and snapshotted into session storage. `Date.now()` is the `now` parameter of
 * each operation; the `$interval` timer is the `sweeping` flag plus `Recycle`,
 * which is one tick of it.
 */
module Cache {
  import opened Wrappers
  import opened Seqs

  const DefaultMaxAge := 5 * 1000
  const DefaultRecycleFreq := 1000

  datatype Entry = Entry(created: int, accessed: int, expires: int, expired: bool, value: string)

  /** A slot holds `None` once `invalidate` has written `undefined` into it. */
  type Slots = map<string, Option<Entry>>

  /** What `sessionStorage.spKeyCache` holds. */
  datatype Snapshot = Missing | Garbled | JsonNull | Saved(entries: map<string, Entry>)

  predicate Live(s: Slots, key: string) {
    key in s && s[key].Some?
  }

  /** No stored entry carries `expired: true`: nothing in the cache ever sets it. */
  ghost predicate NeverFlagged(s: Slots) {
    forall k :: Live(s, k) ==> !s[k].value.expired
  }

  /** The entry `put` stores: created, accessed and refreshed at `now`. */
  function Fresh(value: string, now: int, maxAge: int): Entry {
    Entry(now, now, now + maxAge, false, value)
  }

  /** `JSON.stringify(storage)`: slots holding `undefined` are dropped. */
  function LiveEntries(s: Slots): (m: map<string, Entry>)
    ensures forall k :: k in m <==> Live(s, k)
  {
    map k | k in s && s[k].Some? :: s[k].value
  }

  /** `restoreState`: an absent, unparseable or `null` snapshot gives an empty cache. */
  function Restored(snap: Snapshot): (s: Slots)
    ensures !snap.Saved? ==> s == map[]
    ensures snap.Saved? ==> forall k :: Live(s, k) <==> k in snap.entries
    ensures snap.Saved? ==> s.Keys == snap.entries.Keys && forall k :: k in snap.entries ==> s[k] == Some(snap.entries[k])
  {
    match snap
    case Saved(m) => map k | k in m :: Some(m[k])
    case _ => map[]
  }

  /** Restoring a saved snapshot gives back exactly the live entries, and no empty slot. */
  lemma RestoreAfterSave(s: Slots)
    ensures forall k :: k in Restored(Saved(LiveEntries(s))) <==> Live(s, k)
    ensures forall k :: Live(s, k) ==> Restored(Saved(LiveEntries(s)))[k] == s[k]
  {
  }

  /**
   * `invalidate(key)`. A falsy key (none at all, or the empty string) first
   * replaces the whole map and then still writes `undefined` under that key,
   * which for a missing key is the property named "undefined".
   */
  function Invalidated(s: Slots, key: Option<string>): (r: Slots)
    ensures key.Some? && key.value != "" ==>
      r.Keys == s.Keys + {key.value} && forall k :: k in s && k != key.value ==> r[k] == s[k]
    ensures forall k :: Live(r, k) <==> Live(s, k) && key.Some? && key.value != "" && k != key.value
  {
    match key
    case None => map["undefined" := None]
    case Some(k) => if k == "" then map["" := None] else s[k := None]
  }

  /** What `get` returns and what it leaves in the cache. */
  datatype Fetched = Fetched(result: Option<string>, slots: Slots)

  /**
   * `get(key)`: nothing for an empty slot or a flagged entry. Otherwise the
   * stored value; a stale entry (`expires < now`) is invalidated first and the
   * refreshed fields go to the detached object, a current one is refreshed in place.
   */
  function Fetch(s: Slots, key: string, now: int, maxAge: int): (f: Fetched)
    ensures f.result.Some? <==> Live(s, key) && !s[key].value.expired
    ensures f.result.Some? ==> f.result.value == s[key].value.value
  {
    if !Live(s, key) || s[key].value.expired then Fetched(None, s)
    else
      var e := s[key].value;
      if e.expires < now then Fetched(Some(e.value), Invalidated(s, Some(key)))
      else Fetched(Some(e.value), s[key := Some(e.(accessed := now, expires := now + maxAge))])
  }

  /** `put(k, v)` then `get(k)` at the same time gives `v`, whatever `maxAge` is. */
  lemma GetAfterPut(s: Slots, key: string, value: string, now: int, maxAge: int)
    ensures Fetch(s[key := Some(Fresh(value, now, maxAge))], key, now, maxAge).result == Some(value)
  {
  }

  /** `get` on an empty slot returns nothing and changes nothing. */
  lemma GetMissing(s: Slots, key: string, now: int, maxAge: int)
    requires !Live(s, key)
    ensures Fetch(s, key, now, maxAge) == Fetched(None, s)
  {
  }

  /** `get` on a current entry slides its expiry to `now + maxAge` and touches no other slot. */
  lemma GetRefreshes(s: Slots, key: string, now: int, maxAge: int)
    requires Live(s, key) && !s[key].value.expired && s[key].value.expires >= now
    ensures var f := Fetch(s, key, now, maxAge);
      && f.slots.Keys == s.Keys
      && f.slots[key].Some?
      && f.slots[key].value.accessed == now
      && f.slots[key].value.expires == now + maxAge
      && f.slots[key].value.value == s[key].value.value
      && forall k :: k in s && k != key ==> f.slots[k] == s[k]
  {
  }

  /** `get` on a stale entry empties the slot and yet returns the stale value. */
  lemma GetStale(s: Slots, key: string, now: int, maxAge: int)
    requires Live(s, key) && !s[key].value.expired && s[key].value.expires < now
    ensures var f := Fetch(s, key, now, maxAge);
      f.result == Some(s[key].value.value) && !Live(f.slots, key)
  {
  }

  /** `get` and `put` never set the `expired` flag. */
  lemma FetchKeepsUnflagged(s: Slots, key: string, now: int, maxAge: int)
    requires NeverFlagged(s)
    ensures NeverFlagged(Fetch(s, key, now, maxAge).slots)
  {
  }

  predicate Expiring(o: Option<Entry>, now: int) {
    o.Some? && o.value.expires < now
  }

  /** The empty seed is stale: invalidating it clears the whole cache. */
  predicate EmptyKeyExpiring(s: Slots, now: int) {
    "" in s && Expiring(s[""], now)
  }

  /** One visit of the sweep: a stale entry is invalidated, anything else is skipped. */
  function SweepOne(s: Slots, key: string, now: int): Slots {
    if Live(s, key) && s[key].value.expires < now then Invalidated(s, Some(key)) else s
  }

  /** The cache once the sweep has visited the keys in `done`, in any order. */
  function Partial(s: Slots, done: set<string>, now: int): Slots {
    if "" in done && EmptyKeyExpiring(s, now) then map["" := None]
    else map k | k in s :: if k in done && Expiring(s[k], now) then None else s[k]
  }

  /** Visiting distinct keys in order: the next one is new, and the visited set grows by it. */
  lemma VisitNext(keys: seq<string>, i: nat, done: set<string>)
    requires Distinct(keys) && i < |keys| && done == set j | 0 <= j < i :: keys[j]
    ensures keys[i] !in done
    ensures done + {keys[i]} == set j | 0 <= j < i + 1 :: keys[j]
  {
  }

  lemma SweepStep(s: Slots, done: set<string>, key: string, now: int)
    requires key in s && key !in done
    ensures SweepOne(Partial(s, done, now), key, now) == Partial(s, done + {key}, now)
  {
    var t := Partial(s, done, now);
    if "" in done && EmptyKeyExpiring(s, now) {
      assert key !in t;
    } else {
      assert t[key] == s[key];
      if Expiring(s[key], now) && key != "" {
        var r := Partial(s, done + {key}, now);
        assert t[key := None] == r;
      }
    }
  }

  /**
   * A full sweep: unless the empty seed is stale, exactly the stale slots are
   * emptied and every other slot is left as it was.
   */
  lemma {:induction false} SweepComplete(s: Slots, now: int)
    ensures !EmptyKeyExpiring(s, now) ==>
      && Partial(s, s.Keys, now).Keys == s.Keys
      && forall k :: k in s ==> Partial(s, s.Keys, now)[k] == if Expiring(s[k], now) then None else s[k]
    ensures EmptyKeyExpiring(s, now) ==> Partial(s, s.Keys, now) == map["" := None]
    ensures NeverFlagged(s) ==> NeverFlagged(Partial(s, s.Keys, now))
  {
  }

  class KeyCache {
    var storage: Slots
    var maxAge: int
    var recycleFreq: int
    var sweeping: bool      // the recycle interval is scheduled
    var session: Snapshot   // sessionStorage.spKeyCache

    ghost predicate Valid()
      reads this
    {
      NeverFlagged(storage)
    }

    /** Options default to a 5 s lifetime and a 1 s sweep; the last snapshot is restored. */
    constructor (maxAgeOption: Option<int>, recycleFreqOption: Option<int>, snapshot: Snapshot)
      ensures maxAge == maxAgeOption.GetOr(DefaultMaxAge)
      ensures recycleFreq == recycleFreqOption.GetOr(DefaultRecycleFreq)
      ensures sweeping && session == snapshot
      ensures storage == Restored(snapshot)
      ensures snapshot.Saved? && (forall k :: k in snapshot.entries ==> !snapshot.entries[k].expired) ==> Valid()
    {
      maxAge := maxAgeOption.GetOr(DefaultMaxAge);
      recycleFreq := recycleFreqOption.GetOr(DefaultRecycleFreq);
      sweeping := true;
      session := snapshot;
      storage := map[];
      new;
      RestoreState();
    }

    method SaveState()
      modifies this`session
      ensures session == Saved(LiveEntries(storage))
    {
      session := Saved(LiveEntries(storage));
    }

    method RestoreState()
      modifies this`storage
      ensures storage == Restored(session)
    {
      match session
      case Saved(m) => storage := map k | k in m :: Some(m[k]);
      case _ => storage := map[];
    }

    /** Cancels the sweep and leaves no live entry. */
    method Destroy()
      modifies this`sweeping, this`storage
      ensures !sweeping
      ensures storage == Invalidated(old(storage), None)
      ensures forall k :: !Live(storage, k)
    {
      sweeping := false;
      Invalidate(None);
    }

    method Invalidate(key: Option<string>)
      modifies this`storage
      ensures storage == Invalidated(old(storage), key)
      ensures old(Valid()) ==> Valid()
    {
      if key.None? || key.value == "" {
        storage := map[];
      }
      var name := if key.None? then "undefined" else key.value;
      storage := storage[name := None];
    }

    /** Creates or overwrites the entry; every field is reset, so both branches of the source agree. */
    method Put(key: string, value: string, now: int) returns (e: Entry)
      modifies this`storage
      ensures e == Fresh(value, now, maxAge)
      ensures storage == old(storage)[key := Some(e)]
      ensures old(Valid()) ==> Valid()
    {
      e := Fresh(value, now, maxAge);
      storage := storage[key := Some(e)];
    }

    method Get(key: string, now: int) returns (v: Option<string>)
      modifies this`storage
      ensures Fetched(v, storage) == Fetch(old(storage), key, now, maxAge)
      ensures old(Valid()) ==> Valid()
    {
      if !Live(storage, key) || storage[key].value.expired {
        return None;
      }
      var keyValue := storage[key].value;
      var stale := keyValue.expires < now;
      if stale {
        Invalidate(Some(key));
      }
      keyValue := keyValue.(accessed := now, expires := now + maxAge);
      if !stale {
        // the slot still holds the object that was just refreshed
        storage := storage[key := Some(keyValue)];
      }
      v := Some(keyValue.value);
    }

    /** A peek: no refresh, no eviction, and blind to `expires`. */
    function Lookup(key: string): (e: Option<Entry>)
      reads this
      ensures e.Some? <==> Live(storage, key) && !storage[key].value.expired
      ensures e.Some? ==> e.value == storage[key].value
    {
      if !Live(storage, key) || storage[key].value.expired then None else storage[key]
    }

    /** One tick of the recycle interval, then the snapshot is saved. */
    method Recycle(now: int)
      requires sweeping
      modifies this`storage, this`session
      ensures storage == Partial(old(storage), old(storage).Keys, now)
      ensures session == Saved(LiveEntries(storage))
      ensures old(Valid()) ==> Valid()
    {
      ghost var s0 := storage;
      ghost var done: set<string> := {};
      var keys := Enumerate(storage.Keys);
      var i := 0;
      while i < |keys|
        invariant 0 <= i <= |keys|
        invariant done == set j | 0 <= j < i :: keys[j]
        invariant storage == Partial(s0, done, now)
      {
        var key := keys[i];
        VisitNext(keys, i, done);
        SweepStep(s0, done, key, now);
        if Live(storage, key) && storage[key].value.expires < now {
          Invalidate(Some(key));
        }
        done := done + {key};
        i := i + 1;
      }
      assert keys[..i] == keys;
      assert done == s0.Keys;
      SweepComplete(s0, now);
      SaveState();
    }
  }

  /** `lookup` reports an entry whenever one is stored, even one whose expiry has passed. */
  lemma LookupIgnoresExpiry(kc: KeyCache, key: string)
    requires kc.Valid()
    ensures kc.Lookup(key).Some? <==> Live(kc.storage, key)
  {
  }
}
