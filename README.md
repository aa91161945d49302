# SunnyPass locker core in Dafny

SunnyPass keeps password-vault items in encrypted "lockers". A locker is a
document collection named after the public id of a secret. The secret is a
seed string, and its public id is `shared$` followed by the seed's hash. A
passphrase plus the seed derives the encryption key, and a key cache keeps
that key for a sliding lifetime so that the user is not asked again. This
project models, as Dafny classes and datatypes:

- the key cache (`Cache`, lib/SunnyPassKeyCache.js). It stores entries with
  a sliding expiry, sweeps them on a timer tick and snapshots them into
  session storage;
- the locker of lib/SunnyPassLocker.js (`Lockers`). It covers the canary
  check behind `unlock`, key lookup through the cache, `save`, `get` and
  `list` of encrypted items, and loading and saving metadata;
- the older monolithic service of sunnypass.js (`Legacy`). Its locker keeps
  the key in a field and parks callers that ask while it is locked; `unlock`
  drains them last-in first-out. Its registry persists `shared -> seed` in
  local storage;
- the `Secret` identity of lib/sunnypassSecret.js and src/SunnyPassSecret.js
  (`Secrets`);
- the registries of lib/SunnyPass.js (`LibRegistry`, over two caches) and
  src/SunnyPass.js (`SrcRegistry`, over a Lawnchair store);
- the Lawnchair `dom` adapter and `indexOf`
  (vendors/lawnchair/Lawnchair-chromeStorage-localStorage.js, `Lawnchair`);
- what the two registries' `list` have in common (`Listing`): one
  `getBySharedSecret` per listed id, the results collected in id order.

The cryptography and JSON are values of `Externals.Crypto` and
`Externals.Json`, which hold total functions. The properties the code relies
on are the `Sound()` predicates:
- decryption undoes encryption under the same key;
- a hash is 64 characters and a derived key 128;
- parsing undoes stringifying.

A promise is an `Outcome`. `Pending` stands for a promise that never
settles, because it only notifies or its callback throws. Store faults,
clocks, generated clues, uuids and new document ids are parameters.

The model keeps the code's own edge cases:
- `invalidate` with a falsy key (none, or the empty seed) empties the whole
  cache.
- `get` on an entry past its expiry empties the slot but still returns the
  stale value.
- The `expired` flag is never set.
- Only the sweep saves the snapshot.
- `list` in sunnypass.js rejects with a bad-password error when an item
  fails to decrypt.
- Lawnchair's `save` appends to the index only when `find` reports the key
  absent.

Two more details of the code that the model follows:
- lib/SunnyPassKeyCache.js has no queue of waiting callers, and only the
  recycle tick calls `saveState`; `put` and `invalidate` leave the snapshot
  as it was.
- A queue of parked callers exists only in the sunnypass.js locker, where
  `unlock` resolves the waiters by `pop`, newest first.

## Model

| member | source | states |
|---|---|---|
| Cache.LiveEntries | lib/SunnyPassKeyCache.js:41-49 | the snapshot holds exactly the slots that hold an entry (undefined slots are dropped) |
| Cache.Restored | lib/SunnyPassKeyCache.js:51-62 | a missing, unparseable or null snapshot restores an empty cache; a saved one restores exactly its entries |
| Cache.RestoreAfterSave | lib/SunnyPassKeyCache.js:41-62 | restoring a saved snapshot gives back every live entry unchanged and nothing else |
| Cache.Invalidated | lib/SunnyPassKeyCache.js:69-75 | a non-empty key empties only its own slot and keeps every other one; a falsy key leaves no live entry at all |
| Cache.Fetch | lib/SunnyPassKeyCache.js:101-119 | `get` returns a value exactly when the slot holds an unflagged entry, and that value is the stored one |
| Cache.GetAfterPut | lib/SunnyPassKeyCache.js:77-119 | after `put(k, v)`, `get(k)` at the same time returns `v` |
| Cache.GetMissing | lib/SunnyPassKeyCache.js:103-109 | `get` on an empty slot returns nothing and changes nothing |
| Cache.GetRefreshes | lib/SunnyPassKeyCache.js:111-118 | `get` on a current entry slides its expiry to now + maxAge and leaves every other slot alone |
| Cache.GetStale | lib/SunnyPassKeyCache.js:111-118 | `get` on a stale entry returns its value yet leaves the slot empty |
| Cache.FetchKeepsUnflagged | lib/SunnyPassKeyCache.js:86-118 | no `get` ever sets the `expired` flag |
| Cache.SweepStep | lib/SunnyPassKeyCache.js:20-30 | visiting one more key in the sweep gives the state where that key is swept too, in whatever order keys come |
| Cache.SweepComplete | lib/SunnyPassKeyCache.js:16-33 | a full sweep empties exactly the stale slots, unless the empty seed is stale, in which case it clears everything; it never sets the flag |
| Cache.KeyCache.constructor | lib/SunnyPassKeyCache.js:7-39 | options default to 5000 ms and 1000 ms, the sweep is scheduled, and the cache is what the session snapshot restores |
| Cache.KeyCache.SaveState | lib/SunnyPassKeyCache.js:41-49 | the session slot holds the live entries |
| Cache.KeyCache.RestoreState | lib/SunnyPassKeyCache.js:51-62 | the storage becomes what the session slot restores |
| Cache.KeyCache.Destroy | lib/SunnyPassKeyCache.js:64-67 | the sweep is cancelled and no live entry remains |
| Cache.KeyCache.Invalidate | lib/SunnyPassKeyCache.js:69-75 | the new storage is `Invalidated` of the old one, and the never-flagged invariant is kept |
| Cache.KeyCache.Put | lib/SunnyPassKeyCache.js:77-99 | the slot holds a fresh entry (created and accessed now, expiring now + maxAge, unflagged) and every other slot is unchanged |
| Cache.KeyCache.Get | lib/SunnyPassKeyCache.js:101-119 | result and new storage are those of `Fetch`, and the invariant is kept |
| Cache.KeyCache.Lookup | lib/SunnyPassKeyCache.js:121-128 | returns the stored entry exactly when it is present and unflagged, with no refresh |
| Cache.KeyCache.Recycle | lib/SunnyPassKeyCache.js:16-33 | one tick sweeps every key as `SweepComplete` describes, then saves the snapshot of what remains |
| Cache.LookupIgnoresExpiry | lib/SunnyPassKeyCache.js:121-128 | under the invariant, `lookup` finds every stored entry, even one past its expiry |
| Secrets.NewSecret | lib/sunnypassSecret.js:9-13 | the secret keeps its seed, and its public id is `shared$` followed by the seed's hash |
| Secrets.SharedLength | lib/sunnypassSecret.js:11 | with a 64-character hash the public id has 71 characters |
| Secrets.SharedMatchesHash | src/SunnyPassSecret.js:14-18 | two seeds get the same public id exactly when their hashes agree |
| Secrets.SharedNonEmpty | src/SunnyPassSecret.js:16 | a public id is never empty |
| Lockers.MetaName.Id | lib/SunnyPassLocker.js:43-47 | every metadata id starts with `META_` |
| Lockers.MetaNamesDistinct | lib/SunnyPassLocker.js:43-47 | distinct metadata names have distinct ids and distinct lower-cased fields |
| Lockers.ReadDoc | lib/SunnyPassLocker.js:75-84 | a read finds a document exactly when no fault occurs and the id is stored, and then finds the stored one |
| Lockers.Sealed | lib/SunnyPassLocker.js:400-409 | a saved item is a data document holding its stringified metadata and data, each encrypted with the key |
| Lockers.Unsealed | lib/SunnyPassLocker.js:526-527 | reading an item succeeds exactly when it is a data document whose two decrypted parts both parse |
| Lockers.UnsealSealed | lib/SunnyPassLocker.js:404-409 | reading back what was sealed under the same key gives the metadata and data back |
| Lockers.Summarise | lib/SunnyPassLocker.js:326-343 | a list row exists exactly when the document reads, and then carries its metadata and password/login/notes flags |
| Lockers.SummariseSealed | lib/SunnyPassLocker.js:329-335 | a saved item lists with its metadata and flags saying which of its data fields are set |
| Lockers.SummariseAll | lib/SunnyPassLocker.js:324-351 | the list succeeds exactly when every row reads, and then has one summary per row in row order |
| Lockers.CanaryAcceptsItsKey | lib/SunnyPassLocker.js:244-270 | after initialisation the initialising key is accepted, and another key is rejected exactly when it decrypts the canary to nothing |
| Lockers.KeyLookup | lib/SunnyPassLocker.js:278-297 | key lookup resolves exactly when the cache holds a non-empty unflagged key, puts it back fresh, and otherwise only notifies |
| Lockers.UnlockedKeyResolves | lib/SunnyPassLocker.js:283-294 | a derived key put in the cache at any time resolves at any later time |
| Lockers.LockedKeyPends | lib/SunnyPassLocker.js:63-65 | after `lock`, key lookup never resolves |
| Lockers.Locker.constructor | lib/SunnyPassLocker.js:16-41 | a seed is turned into a Secret, and the metadata starts empty |
| Lockers.Locker.LockAll | lib/SunnyPassLocker.js:53-56 | no locker stays unlocked |
| Lockers.Locker.IsLocked | lib/SunnyPassLocker.js:58-61 | locked exactly when the cache holds no unflagged entry for the seed |
| Lockers.Locker.Lock | lib/SunnyPassLocker.js:63-65 | the locker is locked afterwards; other lockers keep their state unless the seed is empty, in which case every locker is locked |
| Lockers.Locker.InitializeLocker | lib/SunnyPassLocker.js:206-232 | on success the canary is stored and the key returned; on a store fault nothing is written |
| Lockers.Locker.CheckEncryptionKey | lib/SunnyPassLocker.js:238-275 | accepts, rejects as invalid, initialises or hangs according to the stored canary, and writes only when initialising |
| Lockers.Locker.Unlock | lib/SunnyPassLocker.js:168-196 | resolves exactly when the derived key passes the check, and only then is the key cached fresh and the locker unlocked; a wrong key rejects as invalid, a failed canary write rejects with the store error, and an unreadable canary hangs |
| Lockers.Locker.ResolveKey | lib/SunnyPassLocker.js:278-297 | outcome and cache are those of `KeyLookup`; on success the locker is unlocked |
| Lockers.Locker.Save | lib/SunnyPassLocker.js:386-450 | without a key the save hangs and changes nothing; with one the item is sealed in place with the update date and put under its own id when it has id and revision, else posted under a new id |
| Lockers.Locker.Get | lib/SunnyPassLocker.js:511-538 | with a key, a missing item or read fault rejects, an unreadable one hangs, otherwise the decrypted metadata and data are returned |
| Lockers.Locker.List | lib/SunnyPassLocker.js:305-378 | with a key, a query fault rejects, an unreadable row rejects the list, otherwise every data document is summarised |
| Lockers.Locker.LoadMetadata | lib/SunnyPassLocker.js:67-103 | every readable metadata document is decrypted into its field, and the load resolves exactly when no read fails |
| Lockers.Locker.SaveMetadata | lib/SunnyPassLocker.js:105-143 | on success the encrypted value is stored under the metadata id and kept in clear; on a fault nothing changes |
| Lockers.MetadataRoundTrip | lib/SunnyPassLocker.js:67-143 | a metadata value saved and loaded back reads as the saved value |
| Lockers.SaveThenGet | lib/SunnyPassLocker.js:386-538 | an item saved and got back by the id the save returned has its metadata (with the update date) and its data |
| Legacy.CanaryVerdict | sunnypass.js:97-124 | a missing canary or a read fault initialises; a data document under the canary id cannot be decrypted (its `encrypted` field is undefined); otherwise a key is accepted exactly when it decrypts the canary to its clear text |
| Legacy.CanaryAcceptsItsKey | sunnypass.js:62-72 | after initialisation that key is accepted, and another key is accepted exactly when it decrypts the canary to the clue |
| Legacy.ListOne | sunnypass.js:237-249 | a row lists exactly when its metadata parses, with the decrypted tag and metadata |
| Legacy.ListSealed | sunnypass.js:291-306 | a saved item lists with its tag and its update date |
| Legacy.ListAll | sunnypass.js:235-256 | the list succeeds exactly when every row lists, one entry per row in order |
| Legacy.Locker.constructor | sunnypass.js:22-41 | a seed becomes a Secret; no key and no parked callers |
| Legacy.Locker.GetEncryptionKey | sunnypass.js:185-212 | the key now if it is set, else exactly one new waiter at the end of the queue |
| Legacy.Locker.InitializeLocker | sunnypass.js:54-85 | stores the canary (clue in clear and encrypted) unless the write fails |
| Legacy.Locker.CheckEncryptionKey | sunnypass.js:91-128 | resolves, rejects as invalid or initialises according to the canary, and hangs when a data document sits under the canary id; it writes only when initialising |
| Legacy.Locker.Unlock | sunnypass.js:130-170 | on success keeps the key and resolves every parked waiter with it, newest first; a wrong key rejects as invalid, an unreadable canary hangs, a store fault rejects, and on every failure key and queue are untouched |
| Legacy.Drained | sunnypass.js:147-150 | the drain loop resolves the queue in reverse order |
| Legacy.Locker.Lock | sunnypass.js:172-183 | forgets the key and signals the relock once |
| Legacy.LockThenAsk | sunnypass.js:172-212 | after `lock`, asking for the key parks a new waiter behind the others |
| Legacy.Locker.Save | sunnypass.js:283-321 | without a key the save hangs, its caller becomes one new waiter at the end of the queue and the documents are untouched; with a key the sealed item is posted under a new id unless the write fails |
| Legacy.Locker.List | sunnypass.js:219-275 | without a key the list hangs and its caller becomes one new waiter at the end of the queue; with one a query fault rejects, an unreadable row rejects as a bad password, otherwise every item is listed |
| Legacy.Listing | sunnypass.js:389-401 | the persisted map, or an empty one when it does not parse |
| Legacy.Registered | sunnypass.js:418-426 | `shared -> seed` is written only when the id has no truthy entry yet |
| Legacy.RegisterIdempotent | sunnypass.js:418-426 | a registered secret is found by its id, and registering it again changes nothing |
| Legacy.SunnyPass.constructor | sunnypass.js:376-380 | no lockers yet |
| Legacy.SunnyPass.List | sunnypass.js:389-401 | the persisted locker map |
| Legacy.SunnyPass.Get | sunnypass.js:408-433 | returns the memoised locker for the seed, or makes, registers and memoises a new one |
| Legacy.GetTwice | sunnypass.js:408-433 | asking twice for one seed gives the same locker |
| Legacy.SunnyPass.GetBySharedSecret | sunnypass.js:440-444 | an unknown id throws; a known one gets the locker of the persisted seed |
| Legacy.SunnyPass.Wipe | sunnypass.js:450-484 | forgets every locker and the persisted map, rejecting when destroying fails |
| Lawnchair.Position | vendors/lawnchair/Lawnchair-chromeStorage-localStorage.js:112-115 | the first position of an element, or none exactly when it is absent |
| Lawnchair.IndexOf | vendors/lawnchair/Lawnchair-chromeStorage-localStorage.js:112-115 | the first position of the item, or -1 |
| Lawnchair.FirstMatch | vendors/lawnchair/Lawnchair-chromeStorage-localStorage.js:557-559 | the first occurrence of a pattern at or after a position, or none |
| Lawnchair.ReplacePrefix | vendors/lawnchair/Lawnchair-chromeStorage-localStorage.js:557-559 | on an index entry `replace(name + '.', '')` strips exactly the collection prefix |
| Lawnchair.Find | vendors/lawnchair/Lawnchair-chromeStorage-localStorage.js:488-494 | the loop finds the first position of the key, or reports it absent |
| Lawnchair.Filter | vendors/lawnchair/Lawnchair-chromeStorage-localStorage.js:479-486 | the loop keeps every entry other than the key, in order |
| Lawnchair.Dom.constructor | vendors/lawnchair/Lawnchair-chromeStorage-localStorage.js:518-521 | a collection over whatever records and index earlier sessions left in local storage, provided the index lists each record once |
| Lawnchair.Dom.Get | vendors/lawnchair/Lawnchair-chromeStorage-localStorage.js:584-591 | a record is returned exactly when stored, with its key restored |
| Lawnchair.Dom.IndexAll | vendors/lawnchair/Lawnchair-chromeStorage-localStorage.js:464-471 | returns the index, storing an empty one on first use |
| Lawnchair.Dom.IndexAdd | vendors/lawnchair/Lawnchair-chromeStorage-localStorage.js:473-477 | appends the key to the index |
| Lawnchair.Dom.IndexDel | vendors/lawnchair/Lawnchair-chromeStorage-localStorage.js:479-486 | removes every occurrence of the key from the index |
| Lawnchair.Dom.IndexFind | vendors/lawnchair/Lawnchair-chromeStorage-localStorage.js:488-494 | the key's first index position, or none |
| Lawnchair.Dom.Save | vendors/lawnchair/Lawnchair-chromeStorage-localStorage.js:523-535 | stores the record under its key (or the uuid), indexes it once, and it can be got back |
| Lawnchair.Dom.Batch | vendors/lawnchair/Lawnchair-chromeStorage-localStorage.js:537-547 | saves every object in order and returns what each save returned; the records are those saves applied in turn, so the last write of a key wins, and the index gains each new key once, in order |
| Lawnchair.AppendedMembers | vendors/lawnchair/Lawnchair-chromeStorage-localStorage.js:473-477 | indexing keys in turn keeps the old index as a prefix and lists exactly the old and the new keys |
| Lawnchair.Dom.StoredRecords | vendors/lawnchair/Lawnchair-chromeStorage-localStorage.js:523-547 | after saves in turn, a key is stored exactly when it was or was saved, untouched keys keep their records, and each saved key holds its last save |
| Lawnchair.Dom.Keys | vendors/lawnchair/Lawnchair-chromeStorage-localStorage.js:550-568 | one key per index entry, in index order, each naming a stored record |
| Lawnchair.Dom.GetMany | vendors/lawnchair/Lawnchair-chromeStorage-localStorage.js:571-582 | one answer per requested key, as a single `get` would give |
| Lawnchair.Dom.Exists | vendors/lawnchair/Lawnchair-chromeStorage-localStorage.js:595-599 | true exactly when the key is indexed, which under the invariant means stored |
| Lawnchair.Dom.All | vendors/lawnchair/Lawnchair-chromeStorage-localStorage.js:602-615 | every indexed record in index order, each with its key |
| Lawnchair.Dom.Remove | vendors/lawnchair/Lawnchair-chromeStorage-localStorage.js:636-641 | the key leaves both index and records, and `get` no longer finds it |
| Lawnchair.Dom.RemoveMany | vendors/lawnchair/Lawnchair-chromeStorage-localStorage.js:617-635 | exactly the named records are removed, and the index loses exactly their keys, the rest keeping their order |
| Lawnchair.RemovedMembers | vendors/lawnchair/Lawnchair-chromeStorage-localStorage.js:479-486 | deleting keys in turn leaves exactly the index entries not among them |
| Lawnchair.Dom.Nuke | vendors/lawnchair/Lawnchair-chromeStorage-localStorage.js:644-652 | no record and an empty index remain |
| LibRegistry.SunnyPass.constructor | lib/SunnyPass.js:22-26 | no locker is open yet; the list cache is the persisted one |
| LibRegistry.SunnyPass.Get | lib/SunnyPass.js:69-112 | registers the secret unless listed, returns the cached locker, or opens one and caches it only when its metadata loads |
| LibRegistry.SunnyPass.GetBySharedSecret | lib/SunnyPass.js:119-138 | an unlisted id rejects; a listed one behaves as `get` on its secret |
| LibRegistry.SunnyPass.List | lib/SunnyPass.js:35-62 | never hangs; resolves with one open locker per listed id when no needed metadata load fails; rejects with an unknown error only when one fails, and, when no two listed secrets share a seed, whenever one fails |
| LibRegistry.SunnyPass.Wipe | lib/SunnyPass.js:144-179 | every key is invalidated and both caches are emptied, rejecting when destroying fails |
| SrcRegistry.SunnyPass.constructor | src/SunnyPass.js:16-20 | no open locker, over the collection earlier sessions persisted, each record filed under its own public id |
| SrcRegistry.SunnyPass.Get | src/SunnyPass.js:68-108 | always saves the secret under its public id, indexing the id once, then returns the cached locker or opens and caches one when its metadata loads |
| SrcRegistry.SunnyPass.GetBySharedSecret | src/SunnyPass.js:115-129 | an id with no record rejects; otherwise `get` on the stored secret |
| SrcRegistry.SunnyPass.List | src/SunnyPass.js:29-61 | never hangs; resolves with the lockers of the stored ids in index order when no needed metadata load fails; rejects with an unknown error only when one fails, and, when no two stored secrets share a seed, whenever one fails |
| SrcRegistry.SunnyPass.OpenEach | src/SunnyPass.js:37-47 | `getBySharedSecret` on every key, the lockers collected in index order, keeping the store and every locker already open |
| Listing.ListedStep | src/SunnyPass.js:39-47 | one more `getBySharedSecret` never hangs and keeps the lockers so far in order; a failure is recorded only for a seed that was not open, and, with distinct seeds, for every such seed whose load fails |
| Listing.ListedDone | src/SunnyPass.js:49-54 | after the last id, a recorded failure means some needed load failed, with distinct seeds every failing load is recorded, and without a failure there is one locker per id in order |
| SrcRegistry.SunnyPass.WipeLocker | src/SunnyPass.js:131-151 | opens the locker, then drops it from the cache and its record and index entry from the store; a failing open rejects and leaves the cache alone; a failing wipe rejects and keeps the newly opened locker cached |
| SrcRegistry.SunnyPass.Wipe | src/SunnyPass.js:157-192 | every key is invalidated, the store is nuked and the cache emptied |

## Left out

- Timers are left out. That covers the key cache's `$interval` (one tick is `Recycle`), the delayed `notify` calls, and sunnypass.js's five-minute relock timer. Time is the `now` parameter.
- Progress notifications and logging are left out, because they change no state.
- PouchDB replication, `allDbs` and `destroy` are left out; a failing destroy is the `destroyFails` parameter. The order in which a query emits rows is the `rows` parameter.
- `deleteById`, `unlockData` and `setName` of both lockers are not modelled. They are plain store calls outside the lock/unlock core.
- `lib/Crypto.js` is not part of this model. AES, PBKDF2, hashing and random clues are the `Crypto` functions and parameters.
- src/Lawnchair.js is not part of this model beyond what it forwards. Its promise wrapper is inlined: `SrcRegistry` calls the `dom` adapter directly. The chrome-storage adapter, `valid`, `lambda`, `fn` and `uuid` are left out; the uuid is a parameter.
- The locker class that src/SunnyPass.js imports is not part of this model; the lib locker stands in for it. Its `wipe` is the `wipeFails` parameter.
- `$angularCacheFactory` caches are maps, and the unused `this.lockers` field of the two newer registries is dropped.
- Cache.KeyCache.RestoreState: a browser without `sessionStorage`, where the source leaves the storage untouched, is not modelled.
- Legacy.Locker.Save: when the locker is locked the save is parked, and its continuation after a later unlock is not modelled.
- Legacy.Locker.List: when the locker is locked the call is parked, and its continuation after a later unlock is not modelled.
- Lockers.Locker.List: requires the rows to be exactly the data documents, because the query is not modelled.
- Lockers.Locker.LoadMetadata: a data document stored under a metadata id is read as having an empty `value`. The source passes `undefined` to decrypt, which throws inside the store callback, so its load never settles there.
- A decrypt that throws is not modelled: `decrypt` is a total function. CryptoJS can throw on a wrong key, and such a throw inside a store callback leaves the promise unsettled in `_checkEncryptionKey` (lib/SunnyPassLocker.js:261), `loadMetadata` (lib/SunnyPassLocker.js:87) and sunnypass.js's `checkEncryptionKey` (sunnypass.js:114). The model rejects or decrypts there instead. Decrypting an undefined canary field is modelled, as a promise that never settles.
- Lockers.Summarise: the password/login/notes flags are kept beside the metadata. The source writes them into `meta` itself (lib/SunnyPassLocker.js:333-335), overwriting any `password`, `login` or `notes` field the metadata had.
- Lockers.Locker.SaveMetadata: an existing document under the metadata id is replaced by a metadata document; the source keeps that document's other fields.
- LibRegistry.SunnyPass.List: states which lockers the result holds and how many, but not their order, which is the key order of the list cache.
- LibRegistry.SunnyPass.List and SrcRegistry.SunnyPass.List: `async.map` starts the `getBySharedSecret` of every id at once, before any metadata load settles; the model runs them one after another. With distinct seeds the lookups touch disjoint cache entries, so the order in which they run does not matter. With two ids sharing a seed, the source misses the cache twice and opens two lockers with two loads, where the model opens one and reuses it from the cache. So that a failing load always rejects the list is stated only when no two listed secrets share a seed.
- SrcRegistry.SunnyPass.Get: requires a non-empty public id. Lawnchair would file an empty one under a fresh uuid, and a secret made from a seed never has one.
- SrcRegistry.SunnyPass.WipeLocker: requires a non-empty public id, for the same reason.
- Lawnchair.Dom.Save: requires the key or the uuid to be non-empty, as a generated uuid always is.
