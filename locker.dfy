/**
 * The locker of lib/SunnyPassLocker.js: one encrypted collection of items,
 * named after a secret's public id, whose encryption key lives in the shared
 * key cache while the locker is unlocked.
 *
 * The collection is a map from document id to document; a store fault is a
 * boolean parameter of the operation that meets it. Each `Outcome` is how the
 * returned promise settles: `Pending` when it never settles (it only notifies,
 * or an exception is thrown inside a store callback).
 */
module Lockers {
  import opened Wrappers
  import opened Externals
  import opened Secrets
  import opened Cache

  /** `Locker.Metadata`: the ids of the metadata documents. */
  datatype MetaName = DecryptCheck | Name | Description {
    function Id(): (id: string)
      ensures |id| > 5 && id[..5] == "META_"
    {
      match this
      case DecryptCheck => "META_DECRYPT_CHECK"
      case Name => "META_NAME"
      case Description => "META_DESCRIPTION"
    }

    /** `key.toLowerCase()`: the property the value is kept under in `metadata`. */
    function Field(): string {
      match this
      case DecryptCheck => "decrypt_check"
      case Name => "name"
      case Description => "description"
    }
  }

  /** `Object.keys(Locker.Metadata)`, in declaration order. */
  const MetaNames: seq<MetaName> := [DecryptCheck, Name, Description]

  /** Distinct names keep distinct ids and distinct fields. */
  lemma MetaNamesDistinct(a: MetaName, b: MetaName)
    ensures a.Id() == b.Id() <==> a == b
    ensures a.Field() == b.Field() <==> a == b
  {
    if a != b {
      assert |a.Id()| != |b.Id()|;
      assert |a.Field()| != |b.Field()|;
    }
  }

  /** A document of the collection. */
  datatype Doc =
    | Meta(value: string)                                   // type 'meta'
    | Data(encryptedMeta: string, encryptedData: string)    // type 'data', as `save` writes it

  /** What `db.get` hands a metadata callback. */
  datatype Read = Failed | Absent | Found(doc: Doc)

  function ReadDoc(docs: map<string, Doc>, id: string, fails: bool): (r: Read)
    ensures r.Found? <==> !fails && id in docs
    ensures r.Found? ==> r.doc == docs[id]
  {
    if fails then Failed else if id in docs then Found(docs[id]) else Absent
  }

  /** The item record `get` resolves with: the document with `meta` and `data` decrypted. */
  datatype Opened = Opened(id: string, meta: Fields, data: Fields)

  /** A row of `list`: the decrypted metadata plus the three data flags. */
  datatype Summary = Summary(id: string, meta: Fields, password: bool, login: bool, notes: bool)

  /** What `save` stores for an item: its metadata and data, each stringified then encrypted. */
  function Sealed(c: Crypto, j: Json, key: string, meta: Fields, data: Fields): (d: Doc)
    ensures d.Data?
    ensures d.encryptedMeta == c.encrypt(key, j.stringify(meta))
    ensures d.encryptedData == c.encrypt(key, j.stringify(data))
  {
    Data(c.encrypt(key, j.stringify(meta)), c.encrypt(key, j.stringify(data)))
  }

  /** What `get` makes of a document; None when a decryption or a parse throws. */
  function Unsealed(c: Crypto, j: Json, key: string, d: Doc): (r: Option<(Fields, Fields)>)
    ensures r.Some? <==> d.Data? && j.parse(c.decrypt(key, d.encryptedMeta)).Some?
                                 && j.parse(c.decrypt(key, d.encryptedData)).Some?
  {
    if d.Meta? then None
    else
      var m := j.parse(c.decrypt(key, d.encryptedMeta));
      var x := j.parse(c.decrypt(key, d.encryptedData));
      if m.Some? && x.Some? then Some((m.value, x.value)) else None
  }

  /** Reading back what was sealed under the same key gives the item back. */
  lemma UnsealSealed(c: Crypto, j: Json, key: string, meta: Fields, data: Fields)
    requires c.Sound() && j.Sound()
    ensures Unsealed(c, j, key, Sealed(c, j, key, meta, data)) == Some((meta, data))
  {
    assert c.decrypt(key, c.encrypt(key, j.stringify(meta))) == j.stringify(meta);
    assert c.decrypt(key, c.encrypt(key, j.stringify(data))) == j.stringify(data);
  }

  /** One row of `list`. */
  function Summarise(c: Crypto, j: Json, key: string, id: string, d: Doc): (r: Option<Summary>)
    ensures r.Some? <==> Unsealed(c, j, key, d).Some?
    ensures r.Some? ==>
      var (m, x) := Unsealed(c, j, key, d).value;
      r.value == Summary(id, m, Truthy(x, "password"), Truthy(x, "login"), Truthy(x, "notes"))
  {
    match Unsealed(c, j, key, d)
    case None => None
    case Some((m, x)) => Some(Summary(id, m, Truthy(x, "password"), Truthy(x, "login"), Truthy(x, "notes")))
  }

  /** A saved item lists with its metadata and with flags telling which data fields are set. */
  lemma SummariseSealed(c: Crypto, j: Json, key: string, id: string, meta: Fields, data: Fields)
    requires c.Sound() && j.Sound()
    ensures Summarise(c, j, key, id, Sealed(c, j, key, meta, data))
         == Some(Summary(id, meta, Truthy(data, "password"), Truthy(data, "login"), Truthy(data, "notes")))
  {
    UnsealSealed(c, j, key, meta, data);
  }

  /** `async.map` over the query rows: every row, in order, or nothing if one throws. */
  function SummariseAll(c: Crypto, j: Json, key: string, docs: map<string, Doc>, rows: seq<string>)
    : (r: Option<seq<Summary>>)
    requires forall i :: 0 <= i < |rows| ==> rows[i] in docs
    ensures r.Some? <==> forall i :: 0 <= i < |rows| ==> Summarise(c, j, key, rows[i], docs[rows[i]]).Some?
    ensures r.Some? ==> |r.value| == |rows|
    ensures r.Some? ==> forall i :: 0 <= i < |rows| ==> Some(r.value[i]) == Summarise(c, j, key, rows[i], docs[rows[i]])
  {
    if rows == [] then Some([])
    else
      var head := Summarise(c, j, key, rows[0], docs[rows[0]]);
      var tail := SummariseAll(c, j, key, docs, rows[1..]);
      if head.Some? && tail.Some? then
        assert forall i :: 1 <= i < |rows| ==> rows[i] == rows[1..][i - 1];
        Some([head.value] + tail.value)
      else
        assert head.None? ==> !Summarise(c, j, key, rows[0], docs[rows[0]]).Some?;
        assert tail.None? ==> exists i :: 0 <= i < |rows| - 1 && !Summarise(c, j, key, rows[1..][i], docs[rows[1..][i]]).Some?;
        None
  }

  /** The verdict of `_checkEncryptionKey` on the stored canary, before any write. */
  datatype Verdict = Initialise | Accept | Reject | Unreadable

  function CanaryVerdict(c: Crypto, docs: map<string, Doc>, key: string, readFails: bool): Verdict {
    match ReadDoc(docs, DecryptCheck.Id(), readFails)
    case Found(Meta(v)) => if c.decrypt(key, v) == "" then Reject else Accept
    case Found(Data(_, _)) => Unreadable
    case _ => Initialise
  }

  /** The canary `_initializeLocker` writes: a random clue encrypted with the key. */
  function Canary(c: Crypto, key: string, clue: string): Doc {
    Meta(c.encrypt(key, clue))
  }

  /**
   * Once a locker is initialised with a key, checking the same key is accepted,
   * and checking any key that cannot decrypt the canary is rejected.
   */
  lemma CanaryAcceptsItsKey(c: Crypto, docs: map<string, Doc>, key: string, other: string, clue: string)
    requires c.Sound() && clue != ""
    ensures var d := docs[DecryptCheck.Id() := Canary(c, key, clue)];
      && CanaryVerdict(c, d, key, false) == Accept
      && (c.decrypt(other, c.encrypt(key, clue)) == "" <==> CanaryVerdict(c, d, other, false) == Reject)
  {
    assert c.decrypt(key, c.encrypt(key, clue)) == clue;
  }

  /** Whether a cache slot holds a usable key for `seed`, as `isLocked` reads it. */
  predicate Unlocked(s: Slots, seed: string) {
    Live(s, seed) && !s[seed].value.expired
  }

  /**
   * `_getEncryptionKey` on a cache state: the outcome and the cache after it.
   * A stored key resolves, even one past its expiry, and is stored again fresh;
   * a stale key under the empty seed first wipes the whole cache.
   */
  function KeyLookup(s: Slots, seed: string, now: int, maxAge: int): (r: (Outcome<string>, Slots))
    ensures r.0.Resolved? || r.0 == Pending
    ensures r.0.Resolved? <==> Unlocked(s, seed) && s[seed].value.value != ""
    ensures r.0.Resolved? ==> r.0.value == s[seed].value.value && seed in r.1
                              && r.1[seed] == Some(Fresh(r.0.value, now, maxAge))
    ensures r.0.Resolved? && seed != "" ==> r.1 == s[seed := Some(Fresh(r.0.value, now, maxAge))]
    ensures r.0.Pending? ==> r.1 == Fetch(s, seed, now, maxAge).slots
  {
    var f := Fetch(s, seed, now, maxAge);
    if f.result.None? || f.result.value == "" then (Pending, f.slots)
    else (Resolved(f.result.value), f.slots[seed := Some(Fresh(f.result.value, now, maxAge))])
  }

  /** A locker unlocked at any time resolves its derived key later, however late. */
  lemma UnlockedKeyResolves(c: Crypto, s: Slots, password: string, seed: string, at: int, now: int, maxAge: int)
    requires c.Sound()
    ensures var key := c.deriveKey(password, seed);
      KeyLookup(s[seed := Some(Fresh(key, at, maxAge))], seed, now, maxAge).0 == Resolved(key)
  {
    var key := c.deriveKey(password, seed);
    assert |key| == 128;
  }

  /** After `lock`, asking for the key only notifies. */
  lemma LockedKeyPends(s: Slots, seed: string, now: int, maxAge: int)
    ensures KeyLookup(Invalidated(s, Some(seed)), seed, now, maxAge).0 == Pending
  {
  }

  class Locker {
    const secret: Secret
    const crypto: Crypto
    const json: Json
    const cache: KeyCache
    var docs: map<string, Doc>        // the PouchDB collection named `secret.shared`
    var metadata: Fields

    /** `new Locker(secret)`: a string argument is turned into a Secret first. */
    constructor (arg: SecretArg, crypto: Crypto, json: Json, cache: KeyCache, docs: map<string, Doc>)
      ensures this.secret == Resolve(crypto, arg)
      ensures this.crypto == crypto && this.json == json && this.cache == cache
      ensures this.docs == docs && metadata == map[]
    {
      this.secret := Resolve(crypto, arg);
      this.crypto := crypto;
      this.json := json;
      this.cache := cache;
      this.docs := docs;
      metadata := map[];
    }

    /** `Locker.lockAll`: invalidates every key in the cache. */
    static method LockAll(cache: KeyCache)
      modifies cache`storage
      ensures cache.storage == Invalidated(old(cache.storage), None)
      ensures forall k :: !Unlocked(cache.storage, k)
    {
      cache.Invalidate(None);
    }

    function IsLocked(): (b: bool)
      reads this, cache
      ensures b <==> !Unlocked(cache.storage, secret.key)
    {
      var k := cache.Lookup(secret.key);
      k.None? || k.value.expired
    }

    /** `lock`: drops this locker's key; an empty seed drops every key. */
    method Lock()
      modifies cache`storage
      ensures cache.storage == Invalidated(old(cache.storage), Some(secret.key))
      ensures IsLocked()
      ensures secret.key == "" ==> forall k :: !Unlocked(cache.storage, k)
      ensures secret.key != "" ==> forall k :: k != secret.key ==> (Unlocked(cache.storage, k) <==> Unlocked(old(cache.storage), k))
    {
      cache.Invalidate(Some(secret.key));
    }

    /** `_initializeLocker`: stores the canary and resolves with the key. */
    method InitializeLocker(key: string, clue: string, writeFails: bool) returns (o: Outcome<string>)
      modifies this`docs
      ensures writeFails ==> o == Rejected(StoreFailure) && docs == old(docs)
      ensures !writeFails ==> o == Resolved(key) && docs == old(docs)[DecryptCheck.Id() := Canary(crypto, key, clue)]
    {
      if writeFails {
        return Rejected(StoreFailure);
      }
      docs := docs[DecryptCheck.Id() := Meta(crypto.encrypt(key, clue))];
      o := Resolved(key);
    }

    /** `_checkEncryptionKey`: tries the key on the canary, writing one when there is none. */
    method CheckEncryptionKey(key: string, clue: string, readFails: bool, writeFails: bool) returns (o: Outcome<string>)
      modifies this`docs
      ensures var v := CanaryVerdict(crypto, old(docs), key, readFails);
        && (v == Accept ==> o == Resolved(key) && docs == old(docs))
        && (v == Reject ==> o == Rejected(KeyInvalid) && docs == old(docs))
        && (v == Unreadable ==> o == Pending && docs == old(docs))
        && (v == Initialise && writeFails ==> o == Rejected(StoreFailure) && docs == old(docs))
        && (v == Initialise && !writeFails ==>
              o == Resolved(key) && docs == old(docs)[DecryptCheck.Id() := Canary(crypto, key, clue)])
    {
      var r := ReadDoc(docs, DecryptCheck.Id(), readFails);
      if !r.Found? {
        o := InitializeLocker(key, clue, writeFails);
        return;
      }
      match r.doc
      case Data(_, _) =>
        o := Pending;           // `doc.value` is undefined and decrypting it throws
      case Meta(v) =>
        if crypto.decrypt(key, v) == "" {
          o := Rejected(KeyInvalid);
        } else {
          o := Resolved(key);
        }
    }

    /**
     * `unlock`: derives the key from the password and the seed, checks it, and
     * caches it only when the check resolves.
     */
    method Unlock(password: string, clue: string, readFails: bool, writeFails: bool, now: int)
      returns (o: Outcome<string>)
      modifies this`docs, cache`storage
      ensures var key := crypto.deriveKey(password, secret.key);
        var v := CanaryVerdict(crypto, old(docs), key, readFails);
        && (o.Resolved? <==> v == Accept || (v == Initialise && !writeFails))
        && (o.Resolved? ==>
              o.value == key && cache.storage == old(cache.storage)[secret.key := Some(Fresh(key, now, cache.maxAge))])
        && (!o.Resolved? ==> cache.storage == old(cache.storage))
        && (v == Reject ==> o == Rejected(KeyInvalid))
        && (v == Unreadable ==> o == Pending)
        && (v == Initialise && writeFails ==> o == Rejected(StoreFailure))
        && (v == Initialise ==> docs == if writeFails then old(docs)
                                        else old(docs)[DecryptCheck.Id() := Canary(crypto, key, clue)])
        && (v != Initialise ==> docs == old(docs))
      ensures o.Resolved? ==> !IsLocked()
    {
      var key := crypto.deriveKey(password, secret.key);
      o := CheckEncryptionKey(key, clue, readFails, writeFails);
      if o.Resolved? {
        var _ := cache.Put(secret.key, key, now);
        o := Resolved(key);
      }
    }

    /** `_getEncryptionKey`: resolves with the cached key, put back with a fresh expiry, or only notifies. */
    method ResolveKey(now: int) returns (o: Outcome<string>)
      modifies cache`storage
      ensures (o, cache.storage) == KeyLookup(old(cache.storage), secret.key, now, cache.maxAge)
      ensures o.Resolved? ==> !IsLocked()
    {
      var k := cache.Get(secret.key, now);
      if k.None? || k.value == "" {
        return Pending;
      }
      var _ := cache.Put(secret.key, k.value, now);
      o := Resolved(k.value);
    }

    /**
     * `save`: encrypts the item's metadata (stamped with the date) and data into
     * it, then updates it in place when it has both an id and a revision, and
     * posts it under a store-chosen id otherwise.
     */
    method Save(item: Item, date: string, newId: string, now: int, writeFails: bool) returns (o: Outcome<string>)
      modifies this`docs, cache`storage, item
      ensures cache.storage == KeyLookup(old(cache.storage), secret.key, now, cache.maxAge).1
      ensures var k := KeyLookup(old(cache.storage), secret.key, now, cache.maxAge).0;
        && (k.Pending? ==> o == Pending && docs == old(docs) && unchanged(item))
        && (k.Resolved? ==>
              var meta := old(item.meta).GetOr(map[])["updated" := date];
              var data := old(item.data).GetOr(map[]);
              var update := NonEmpty(old(item.id)) && NonEmpty(old(item.rev));
              var target := if update then old(item.id).value else newId;
              && item.kind == Some("data") && item.meta.None? && item.data.None?
              && item.encryptedMeta.Some? && item.encryptedData.Some?
              && Data(item.encryptedMeta.value, item.encryptedData.value) == Sealed(crypto, json, k.value, meta, data)
              && (update ==> item.id == old(item.id) && item.rev == old(item.rev))
              && (!update ==> item.id.None? && item.rev.None?)
              && (writeFails ==> o == Rejected(StoreFailure) && docs == old(docs))
              && (!writeFails ==>
                    o == Resolved(target) && docs == old(docs)[target := Sealed(crypto, json, k.value, meta, data)]))
    {
      var k := ResolveKey(now);
      if !k.Resolved? {
        return Pending;
      }
      var key := k.value;
      var meta := item.meta.GetOr(map[])["updated" := date];
      var data := item.data.GetOr(map[]);
      item.kind := Some("data");
      item.encryptedMeta := Some(crypto.encrypt(key, json.stringify(meta)));
      item.meta := None;
      item.encryptedData := Some(crypto.encrypt(key, json.stringify(data)));
      item.data := None;
      var target;
      if NonEmpty(item.id) && NonEmpty(item.rev) {
        target := item.id.value;
      } else {
        item.id := None;
        item.rev := None;
        target := newId;
      }
      if writeFails {
        return Rejected(StoreFailure);
      }
      docs := docs[target := Data(item.encryptedMeta.value, item.encryptedData.value)];
      o := Resolved(target);
    }

    /** `get`: the stored item with its metadata and data decrypted. */
    method Get(itemId: string, now: int, readFails: bool) returns (o: Outcome<Opened>)
      modifies cache`storage
      ensures cache.storage == KeyLookup(old(cache.storage), secret.key, now, cache.maxAge).1
      ensures var k := KeyLookup(old(cache.storage), secret.key, now, cache.maxAge).0;
        && (k.Pending? ==> o == Pending)
        && (k.Resolved? ==>
              if readFails || itemId !in docs then o == Rejected(StoreFailure)
              else match Unsealed(crypto, json, k.value, docs[itemId])
                case None => o == Pending
                case Some((m, x)) => o == Resolved(Opened(itemId, m, x)))
    {
      var k := ResolveKey(now);
      if !k.Resolved? {
        return Pending;
      }
      if readFails || itemId !in docs {
        return Rejected(StoreFailure);
      }
      var u := Unsealed(crypto, json, k.value, docs[itemId]);
      if u.None? {
        return Pending;         // the parse throws inside the store callback
      }
      o := Resolved(Opened(itemId, u.value.0, u.value.1));
    }

    /**
     * `list`: every data document of the collection, decrypted, with flags for
     * the data fields that are set. `rows` are the ids the query emits.
     */
    method List(rows: seq<string>, now: int, queryFails: bool) returns (o: Outcome<seq<Summary>>)
      requires forall id :: id in rows <==> id in docs && docs[id].Data?
      modifies cache`storage
      ensures cache.storage == KeyLookup(old(cache.storage), secret.key, now, cache.maxAge).1
      ensures var k := KeyLookup(old(cache.storage), secret.key, now, cache.maxAge).0;
        && (k.Pending? ==> o == Pending)
        && (k.Resolved? ==>
              if queryFails then o == Rejected(StoreFailure)
              else match SummariseAll(crypto, json, k.value, docs, rows)
                case None => o == Rejected(ParseError)
                case Some(s) => o == Resolved(s))
    {
      var k := ResolveKey(now);
      if !k.Resolved? {
        return Pending;
      }
      if queryFails {
        return Rejected(StoreFailure);
      }
      var s := SummariseAll(crypto, json, k.value, docs, rows);
      if s.None? {
        return Rejected(ParseError);
      }
      o := Resolved(s.value);
    }

    /**
     * `loadMetadata`: decrypts every stored metadata document with the seed into
     * `metadata`; a store fault on one of them rejects, but the others still load.
     */
    method LoadMetadata(faults: set<MetaName>) returns (o: Outcome<()>)
      modifies this`metadata
      ensures metadata == LoadAll(crypto, secret.key, docs, faults, old(metadata), MetaNames)
      ensures o == if faults == {} then Resolved(()) else Rejected(StoreFailure)
    {
      var failed := false;
      for i := 0 to |MetaNames|
        invariant metadata == LoadAll(crypto, secret.key, docs, faults, old(metadata), MetaNames[..i])
        invariant failed <==> exists j :: 0 <= j < i && MetaNames[j] in faults
      {
        assert MetaNames[..i + 1] == MetaNames[..i] + [MetaNames[i]];
        LoadAllSnoc(crypto, secret.key, docs, faults, old(metadata), MetaNames[..i], MetaNames[i]);
        var n := MetaNames[i];
        var r := ReadDoc(docs, n.Id(), n in faults);
        match r
        case Failed =>
          failed := true;
        case Absent =>
        case Found(d) =>
          metadata := metadata[n.Field() := crypto.decrypt(secret.key, MetaValue(d))];
      }
      assert MetaNames[..3] == MetaNames;
      assert faults != {} ==> exists j :: 0 <= j < 3 && MetaNames[j] in faults by {
        if faults != {} {
          var n :| n in faults;
          assert n == MetaNames[0] || n == MetaNames[1] || n == MetaNames[2];
        }
      }
      o := if failed then Rejected(StoreFailure) else Resolved(());
    }

    /**
     * `saveMetadata`: stores the value encrypted with the seed under the
     * metadata id and keeps it in clear in `metadata`.
     */
    method SaveMetadata(n: MetaName, value: string, readFails: bool, writeFails: bool) returns (o: Outcome<Doc>)
      modifies this`docs, this`metadata
      ensures readFails || writeFails ==> o == Rejected(StoreFailure) && docs == old(docs) && metadata == old(metadata)
      ensures !readFails && !writeFails ==>
        && o == Resolved(Meta(crypto.encrypt(secret.key, value)))
        && docs == old(docs)[n.Id() := Meta(crypto.encrypt(secret.key, value))]
        && metadata == old(metadata)[n.Field() := value]
    {
      if readFails || writeFails {
        return Rejected(StoreFailure);
      }
      var doc := Meta(crypto.encrypt(secret.key, value));
      docs := docs[n.Id() := doc];
      metadata := metadata[n.Field() := value];
      o := Resolved(doc);
    }
  }

  /**
   * Saving an item and then getting it back by the id the save resolved with,
   * at any later time and with no store fault, gives back its metadata (with
   * the update date) and its data.
   */
  method SaveThenGet(l: Locker, item: Item, date: string, newId: string, now: int, later: int)
    returns (saved: Outcome<string>, got: Outcome<Opened>)
    requires l.crypto.Sound() && l.json.Sound()
    modifies l`docs, l.cache`storage, item
    ensures saved.Resolved? ==>
      got == Resolved(Opened(saved.value, old(item.meta).GetOr(map[])["updated" := date], old(item.data).GetOr(map[])))
  {
    ghost var meta, data := item.meta.GetOr(map[])["updated" := date], item.data.GetOr(map[]);
    ghost var s0 := l.cache.storage;
    saved := l.Save(item, date, newId, now, false);
    if !saved.Resolved? {
      return saved, Pending;
    }
    ghost var key := KeyLookup(s0, l.secret.key, now, l.cache.maxAge).0.value;
    UnsealSealed(l.crypto, l.json, key, meta, data);
    got := l.Get(saved.value, later, false);
  }

  /** The item object callers hand to `save`, which updates it in place. */
  class Item {
    var id: Option<string>            // _id
    var rev: Option<string>           // _rev
    var kind: Option<string>          // type
    var meta: Option<Fields>
    var data: Option<Fields>
    var encryptedMeta: Option<string>
    var encryptedData: Option<string>

    constructor (id: Option<string>, rev: Option<string>, meta: Option<Fields>, data: Option<Fields>)
      ensures this.id == id && this.rev == rev && this.meta == meta && this.data == data
      ensures kind.None? && encryptedMeta.None? && encryptedData.None?
    {
      this.id := id;
      this.rev := rev;
      this.meta := meta;
      this.data := data;
      kind := None;
      encryptedMeta := None;
      encryptedData := None;
    }
  }

  predicate NonEmpty(o: Option<string>) {
    o.Some? && o.value != ""
  }

  /** The `value` property of a document; a data document has none. */
  function MetaValue(d: Doc): string {
    if d.Meta? then d.value else ""
  }

  /** `loadMetadata`'s effect for one name. */
  function LoadOne(c: Crypto, seed: string, docs: map<string, Doc>, faults: set<MetaName>, m: Fields, n: MetaName): Fields {
    match ReadDoc(docs, n.Id(), n in faults)
    case Found(d) => m[n.Field() := c.decrypt(seed, MetaValue(d))]
    case _ => m
  }

  function LoadAll(c: Crypto, seed: string, docs: map<string, Doc>, faults: set<MetaName>, m: Fields, ns: seq<MetaName>)
    : Fields
    decreases |ns|
  {
    if ns == [] then m
    else LoadAll(c, seed, docs, faults, LoadOne(c, seed, docs, faults, m, ns[0]), ns[1..])
  }

  lemma {:induction false} LoadAllSnoc(c: Crypto, seed: string, docs: map<string, Doc>, faults: set<MetaName>,
                                       m: Fields, ns: seq<MetaName>, n: MetaName)
    ensures LoadAll(c, seed, docs, faults, m, ns + [n])
         == LoadOne(c, seed, docs, faults, LoadAll(c, seed, docs, faults, m, ns), n)
    decreases |ns|
  {
    if ns == [] {
      assert [n][1..] == [];
    } else {
      assert (ns + [n])[1..] == ns[1..] + [n];
      LoadAllSnoc(c, seed, docs, faults, LoadOne(c, seed, docs, faults, m, ns[0]), ns[1..], n);
    }
  }

  /**
   * A metadata value saved and then loaded back, with no fault on its
   * document, reads as what was saved.
   */
  lemma MetadataRoundTrip(c: Crypto, seed: string, docs: map<string, Doc>, faults: set<MetaName>,
                          m: Fields, n: MetaName, value: string)
    requires c.Sound() && n !in faults
    ensures LoadAll(c, seed, docs[n.Id() := Meta(c.encrypt(seed, value))], faults, m, MetaNames)[n.Field()] == value
  {
    var d := docs[n.Id() := Meta(c.encrypt(seed, value))];
    assert c.decrypt(seed, c.encrypt(seed, value)) == value;
    var m1 := LoadOne(c, seed, d, faults, m, DecryptCheck);
    var m2 := LoadOne(c, seed, d, faults, m1, Name);
    var m3 := LoadOne(c, seed, d, faults, m2, Description);
    assert MetaNames[1..] == [Name, Description];
    assert MetaNames[1..][1..] == [Description];
    assert MetaNames[1..][1..][1..] == [];
    calc {
      LoadAll(c, seed, d, faults, m, MetaNames);
      LoadAll(c, seed, d, faults, m1, [Name, Description]);
      LoadAll(c, seed, d, faults, m2, [Description]);
      LoadAll(c, seed, d, faults, m3, []);
    }
    MetaNamesDistinct(n, DecryptCheck);
    MetaNamesDistinct(n, Name);
    MetaNamesDistinct(n, Description);
  }
}
