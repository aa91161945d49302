/**
 * The monolithic service of sunnypass.js: a locker that keeps its encryption
 * key in a field and parks the callers that ask for it while locked, and the
 * registry that memoises lockers per seed and persists `shared -> key`.
 *
 * A parked caller is a waiter id; resolving it appends `(id, key)` to
 * `settled`, the order in which the waiters' promises resolve.
 */
module Legacy {
  import opened Wrappers
  import opened Externals
  import opened Secrets
  import opened Seqs

  const DecryptCheckId := "META_DECRYPT_CHECK"

  /** A document of a legacy locker's collection. */
  datatype Doc =
    | Canary(clear: string, encrypted: string)                              // type 'meta'
    | Item(encryptedTag: string, encryptedData: string, encryptedMeta: string) // type 'data'

  /** What `getEncryptionKey` hands back: the key now, or a ticket for the next unlock. */
  datatype KeyRequest = Ready(key: string) | Queued(waiter: nat)

  /** A row of `list`: the decrypted metadata and tag. */
  datatype Listed = Listed(id: string, meta: Fields, tag: string)

  /**
   * The verdict of `checkEncryptionKey` on the stored canary, before any write.
   * `Unreadable`: the document has no `encrypted` field, decrypting `undefined`
   * throws inside the store callback, and the check never settles.
   */
  datatype Verdict = Initialise | Accept | Reject | Unreadable

  function CanaryVerdict(c: Crypto, docs: map<string, Doc>, key: string, readFails: bool): (v: Verdict)
    ensures v == Initialise <==> readFails || DecryptCheckId !in docs
    ensures v == Unreadable <==> !readFails && DecryptCheckId in docs && docs[DecryptCheckId].Item?
    ensures v == Accept <==> !readFails && DecryptCheckId in docs && docs[DecryptCheckId].Canary?
                             && docs[DecryptCheckId].clear == c.decrypt(key, docs[DecryptCheckId].encrypted)
  {
    if readFails || DecryptCheckId !in docs then Initialise
    else match docs[DecryptCheckId]
      case Canary(clear, encrypted) => if clear == c.decrypt(key, encrypted) then Accept else Reject
      case Item(_, _, _) => Unreadable
  }

  /** The canary `initializeLocker` writes: the clue in clear and encrypted. */
  function NewCanary(c: Crypto, key: string, clue: string): Doc {
    Canary(clue, c.encrypt(key, clue))
  }

  /**
   * After initialisation with a key, that key is accepted, and another key is
   * accepted exactly when it decrypts the canary back to the clue.
   */
  lemma CanaryAcceptsItsKey(c: Crypto, docs: map<string, Doc>, key: string, other: string, clue: string)
    requires c.Sound()
    ensures var d := docs[DecryptCheckId := NewCanary(c, key, clue)];
      && CanaryVerdict(c, d, key, false) == Accept
      && (CanaryVerdict(c, d, other, false) == Accept <==> c.decrypt(other, c.encrypt(key, clue)) == clue)
  {
    assert c.decrypt(key, c.encrypt(key, clue)) == clue;
  }

  /** What `save` posts for a tag and a password. */
  function SealedItem(c: Crypto, j: Json, key: string, tag: string, password: string, date: string): Doc {
    Item(c.encrypt(key, tag),
         c.encrypt(key, j.stringify(map["password" := password])),
         c.encrypt(key, j.stringify(map["updated" := date])))
  }

  /** One row of `list`; None when the metadata does not parse. */
  function ListOne(c: Crypto, j: Json, key: string, id: string, d: Doc): (r: Option<Listed>)
    ensures r.Some? <==> d.Item? && j.parse(c.decrypt(key, d.encryptedMeta)).Some?
    ensures r.Some? ==> r.value.id == id && r.value.tag == c.decrypt(key, d.encryptedTag)
                        && Some(r.value.meta) == j.parse(c.decrypt(key, d.encryptedMeta))
  {
    if d.Canary? then None
    else
      match j.parse(c.decrypt(key, d.encryptedMeta))
      case None => None
      case Some(m) => Some(Listed(id, m, c.decrypt(key, d.encryptedTag)))
  }

  /** A saved item lists with its tag and its update date. */
  lemma ListSealed(c: Crypto, j: Json, key: string, id: string, tag: string, password: string, date: string)
    requires c.Sound() && j.Sound()
    ensures ListOne(c, j, key, id, SealedItem(c, j, key, tag, password, date))
         == Some(Listed(id, map["updated" := date], tag))
  {
    var d := SealedItem(c, j, key, tag, password, date);
    assert c.decrypt(key, d.encryptedMeta) == j.stringify(map["updated" := date]);
    assert c.decrypt(key, d.encryptedTag) == tag;
  }

  /** `async.map` over the query rows: all of them in order, or None if one fails. */
  function ListAll(c: Crypto, j: Json, key: string, docs: map<string, Doc>, rows: seq<string>)
    : (r: Option<seq<Listed>>)
    requires forall i :: 0 <= i < |rows| ==> rows[i] in docs
    ensures r.Some? <==> forall i :: 0 <= i < |rows| ==> ListOne(c, j, key, rows[i], docs[rows[i]]).Some?
    ensures r.Some? ==> |r.value| == |rows|
    ensures r.Some? ==> forall i :: 0 <= i < |rows| ==> Some(r.value[i]) == ListOne(c, j, key, rows[i], docs[rows[i]])
  {
    if rows == [] then Some([])
    else
      var head := ListOne(c, j, key, rows[0], docs[rows[0]]);
      var tail := ListAll(c, j, key, docs, rows[1..]);
      if head.Some? && tail.Some? then
        assert forall i :: 1 <= i < |rows| ==> rows[i] == rows[1..][i - 1];
        Some([head.value] + tail.value)
      else
        assert tail.None? ==> exists i :: 0 <= i < |rows| - 1 && !ListOne(c, j, key, rows[1..][i], docs[rows[1..][i]]).Some?;
        None
  }

  /** Pairs each waiter with the key it is resolved with. */
  function Tagged(ids: seq<nat>, key: string): (r: seq<(nat, string)>)
    ensures |r| == |ids|
    ensures forall i :: 0 <= i < |ids| ==> r[i] == (ids[i], key)
  {
    seq(|ids|, i requires 0 <= i < |ids| => (ids[i], key))
  }

  /** `if (!encryptionKey)`: no key, or the empty string. */
  predicate HasKey(k: Option<string>) {
    k.Some? && k.value != ""
  }

  class Locker {
    const secret: Secret
    const crypto: Crypto
    const json: Json
    var docs: map<string, Doc>              // the remote PouchDB collection
    var encryptionKey: Option<string>
    var waiters: seq<nat>                   // encryptionKeyPromises
    var nextWaiter: nat
    var settled: seq<(nat, string)>         // waiters resolved by unlock, in resolution order
    var relocks: nat                        // how many times relockDeferred has resolved

    ghost predicate Valid()
      reads this
    {
      WaitersFresh(waiters, settled, nextWaiter)
    }

    /** `new Locker(secret)`: a string argument is turned into a Secret first. */
    constructor (arg: SecretArg, crypto: Crypto, json: Json, docs: map<string, Doc>)
      ensures secret == Resolve(crypto, arg) && this.crypto == crypto && this.json == json
      ensures this.docs == docs && encryptionKey.None?
      ensures waiters == [] && settled == [] && relocks == 0
      ensures Valid()
    {
      secret := Resolve(crypto, arg);
      this.crypto := crypto;
      this.json := json;
      this.docs := docs;
      encryptionKey := None;
      waiters := [];
      nextWaiter := 0;
      settled := [];
      relocks := 0;
    }

    /** `getEncryptionKey`: the key at once if there is one, else a new waiter at the end of the queue. */
    method GetEncryptionKey() returns (r: KeyRequest)
      modifies this`waiters, this`nextWaiter
      ensures HasKey(encryptionKey) ==> r == Ready(encryptionKey.value) && waiters == old(waiters)
      ensures !HasKey(encryptionKey) ==>
                r.Queued? && waiters == old(waiters) + [r.waiter]
                && (old(Valid()) ==> r.waiter !in old(waiters))
      ensures old(Valid()) ==> Valid()
    {
      if encryptionKey.None? || encryptionKey.value == "" {
        r := Queued(nextWaiter);
        waiters := waiters + [nextWaiter];
        nextWaiter := nextWaiter + 1;
      } else {
        r := Ready(encryptionKey.value);
      }
    }

    /** `initializeLocker`: stores a canary for the key. */
    method InitializeLocker(key: string, clue: string, writeFails: bool) returns (o: Outcome<Doc>)
      modifies this`docs
      ensures writeFails ==> o == Rejected(StoreFailure) && docs == old(docs)
      ensures !writeFails ==> o == Resolved(NewCanary(crypto, key, clue))
                              && docs == old(docs)[DecryptCheckId := NewCanary(crypto, key, clue)]
    {
      if writeFails {
        return Rejected(StoreFailure);
      }
      var doc := Canary(clue, crypto.encrypt(key, clue));
      docs := docs[DecryptCheckId := doc];
      o := Resolved(doc);
    }

    /** `checkEncryptionKey`: compares the canary's clear text with its decryption under the key. */
    method CheckEncryptionKey(key: string, clue: string, readFails: bool, writeFails: bool) returns (ok: Outcome<()>)
      modifies this`docs
      ensures var v := CanaryVerdict(crypto, old(docs), key, readFails);
        && (v == Accept ==> ok == Resolved(()) && docs == old(docs))
        && (v == Reject ==> ok == Rejected(KeyInvalid) && docs == old(docs))
        && (v == Unreadable ==> ok == Pending && docs == old(docs))
        && (v == Initialise && writeFails ==> ok == Rejected(StoreFailure) && docs == old(docs))
        && (v == Initialise && !writeFails ==>
              ok == Resolved(()) && docs == old(docs)[DecryptCheckId := NewCanary(crypto, key, clue)])
    {
      if readFails || DecryptCheckId !in docs {
        var init := InitializeLocker(key, clue, writeFails);
        ok := if init.Resolved? then Resolved(()) else Rejected(StoreFailure);
        return;
      }
      match docs[DecryptCheckId]
      case Item(_, _, _) =>
        ok := Pending;          // `doc.encrypted` is undefined and decrypting it throws
      case Canary(clear, encrypted) =>
        if clear == crypto.decrypt(key, encrypted) {
          ok := Resolved(());
        } else {
          ok := Rejected(KeyInvalid);
        }
    }

    /**
     * `unlock`: derives the key, checks it, and on success keeps it and
     * resolves every parked waiter with it, last parked first.
     */
    method Unlock(password: string, clue: string, readFails: bool, writeFails: bool) returns (o: Outcome<string>)
      modifies this`docs, this`encryptionKey, this`waiters, this`settled
      ensures var key := crypto.deriveKey(password, secret.key);
        var v := CanaryVerdict(crypto, old(docs), key, readFails);
        && (o.Resolved? <==> v == Accept || (v == Initialise && !writeFails))
        && (o.Resolved? ==>
              && o.value == key && encryptionKey == Some(key) && waiters == []
              && settled == old(settled) + Tagged(Reversed(old(waiters)), key))
        && (!o.Resolved? ==>
              && o == (if v == Reject then Rejected(KeyInvalid)
                       else if v == Unreadable then Pending
                       else Rejected(StoreFailure))
              && encryptionKey == old(encryptionKey) && waiters == old(waiters) && settled == old(settled))
        && (v == Initialise && !writeFails ==> docs == old(docs)[DecryptCheckId := NewCanary(crypto, key, clue)])
        && (!(v == Initialise && !writeFails) ==> docs == old(docs))
      ensures o.Resolved? ==> forall w :: w in old(waiters) ==> (w, o.value) in settled
      ensures old(Valid()) ==> Valid()
    {
      var key := crypto.deriveKey(password, secret.key);
      var ok := CheckEncryptionKey(key, clue, readFails, writeFails);
      if ok.Pending? {
        return Pending;
      } else if ok.Rejected? {
        return Rejected(ok.error);
      }
      encryptionKey := Some(key);
      ghost var w0, s0, d0 := waiters, settled, docs;
      while |waiters| > 0
        invariant |waiters| <= |w0| && waiters == w0[..|waiters|]
        invariant |settled| == |s0| + |w0| - |waiters| && settled[..|s0|] == s0
        invariant forall i :: |s0| <= i < |settled| ==> settled[i] == (w0[|w0| - 1 - (i - |s0|)], key)
        invariant old(Valid()) ==> WaitersFresh(waiters, settled, nextWaiter)
        invariant docs == d0 && encryptionKey == Some(key)
      {
        if old(Valid()) {
          PopWaiter(waiters, settled, nextWaiter, key);
        }
        var d := waiters[|waiters| - 1];
        waiters := waiters[..|waiters| - 1];
        settled := settled + [(d, key)];
      }
      Drained(w0, s0, settled, key);
      forall w | w in w0 ensures (w, key) in settled {
        ReversedMembers(w0);
        var i :| 0 <= i < |w0| && Reversed(w0)[i] == w;
        assert settled[|s0| + i] == (w, key);
      }
      o := Resolved(key);
    }

    /** `lock`: forgets the key and signals the relock; parked waiters stay parked. */
    method Lock()
      modifies this`encryptionKey, this`relocks
      ensures encryptionKey.None? && relocks == old(relocks) + 1
      ensures !HasKey(encryptionKey)
    {
      encryptionKey := None;
      relocks := relocks + 1;
    }

    /**
     * `save`: posts the encrypted tag, password and date under a store-chosen
     * id. Without a key the caller is parked and the save waits for an unlock,
     * which this model does not continue.
     */
    method Save(tag: string, password: string, date: string, newId: string, writeFails: bool)
      returns (o: Outcome<string>)
      modifies this`docs, this`waiters, this`nextWaiter
      ensures !HasKey(encryptionKey) ==>
        && o == Pending && docs == old(docs)
        && |waiters| == |old(waiters)| + 1 && waiters[..|old(waiters)|] == old(waiters)
        && (old(Valid()) ==> waiters[|old(waiters)|] !in old(waiters))
      ensures HasKey(encryptionKey) ==>
        && waiters == old(waiters)
        && (writeFails ==> o == Rejected(StoreFailure) && docs == old(docs))
        && (!writeFails ==>
              o == Resolved(newId) && docs == old(docs)[newId := SealedItem(crypto, json, encryptionKey.value, tag, password, date)])
      ensures old(Valid()) ==> Valid()
    {
      var r := GetEncryptionKey();
      if r.Queued? {
        assert waiters[..|old(waiters)|] == old(waiters);
        return Pending;
      }
      if writeFails {
        return Rejected(StoreFailure);
      }
      docs := docs[newId := Item(crypto.encrypt(r.key, tag),
                                 crypto.encrypt(r.key, json.stringify(map["password" := password])),
                                 crypto.encrypt(r.key, json.stringify(map["updated" := date])))];
      o := Resolved(newId);
    }

    /** `list`: every data document with its metadata and tag decrypted; `rows` are the ids the query emits. */
    method List(rows: seq<string>, queryFails: bool) returns (o: Outcome<seq<Listed>>)
      requires forall id :: id in rows <==> id in docs && docs[id].Item?
      modifies this`waiters, this`nextWaiter
      ensures !HasKey(encryptionKey) ==>
        && o == Pending
        && |waiters| == |old(waiters)| + 1 && waiters[..|old(waiters)|] == old(waiters)
        && (old(Valid()) ==> waiters[|old(waiters)|] !in old(waiters))
      ensures HasKey(encryptionKey) ==>
        && waiters == old(waiters)
        && (queryFails ==> o == Rejected(StoreFailure))
        && (!queryFails ==> match ListAll(crypto, json, encryptionKey.value, docs, rows)
              case None => o == Rejected(BadPassword)
              case Some(s) => o == Resolved(s))
      ensures old(Valid()) ==> Valid()
    {
      var r := GetEncryptionKey();
      if r.Queued? {
        assert waiters[..|old(waiters)|] == old(waiters);
        return Pending;
      }
      if queryFails {
        return Rejected(StoreFailure);
      }
      var s := ListAll(crypto, json, r.key, docs, rows);
      o := if s.None? then Rejected(BadPassword) else Resolved(s.value);
    }
  }

  /**
   * Waiter ids are distinct, below the next id to hand out, and never both
   * waiting and settled.
   */
  ghost predicate WaitersFresh(waiters: seq<nat>, settled: seq<(nat, string)>, next: nat) {
    && Distinct(waiters)
    && (forall i :: 0 <= i < |waiters| ==> waiters[i] < next)
    && (forall j :: 0 <= j < |settled| ==> settled[j].0 < next)
    && (forall i, j :: 0 <= i < |waiters| && 0 <= j < |settled| ==> waiters[i] != settled[j].0)
  }

  /** Resolving the last waiter moves it from the queue to the settled record and keeps the ids fresh. */
  lemma PopWaiter(waiters: seq<nat>, settled: seq<(nat, string)>, next: nat, key: string)
    requires WaitersFresh(waiters, settled, next) && |waiters| > 0
    ensures WaitersFresh(waiters[..|waiters| - 1], settled + [(waiters[|waiters| - 1], key)], next)
  {
  }

  /** The drain loop's record of resolutions is the queue reversed, each with the key. */
  lemma Drained(w0: seq<nat>, s0: seq<(nat, string)>, s: seq<(nat, string)>, key: string)
    requires |s| == |s0| + |w0| && s[..|s0|] == s0
    requires forall i :: |s0| <= i < |s| ==> s[i] == (w0[|w0| - 1 - (i - |s0|)], key)
    ensures s == s0 + Tagged(Reversed(w0), key)
  {
    var t := Tagged(Reversed(w0), key);
    forall i | 0 <= i < |w0| ensures s[|s0| + i] == t[i] {
      ReversedAt(w0, i);
    }
    assert s == s0 + t by {
      forall i | 0 <= i < |s| ensures s[i] == (s0 + t)[i] {
        if i < |s0| {
          assert s[i] == s[..|s0|][i];
        }
      }
    }
  }

  /** After `lock`, the next caller asking for the key is parked behind those already waiting. */
  method LockThenAsk(l: Locker) returns (r: KeyRequest)
    requires l.Valid()
    modifies l`encryptionKey, l`relocks, l`waiters, l`nextWaiter
    ensures r.Queued? && r.waiter !in old(l.waiters)
    ensures l.waiters == old(l.waiters) + [r.waiter]
    ensures l.Valid()
  {
    l.Lock();
    r := l.GetEncryptionKey();
  }

  /** `localStorage.lockers` as `list` reads it. */
  datatype Persisted = Parsed(lockers: map<string, string>) | Unparseable

  /** `list`: the persisted `shared -> key` map, or an empty one when it does not parse. */
  function Listing(p: Persisted): (m: map<string, string>)
    ensures p.Unparseable? ==> m == map[]
    ensures p.Parsed? ==> m == p.lockers
  {
    if p.Parsed? then p.lockers else map[]
  }

  /** The persisted map after `get` registers a secret: written only when its shared id is absent or empty. */
  function Registered(p: Persisted, s: Secret): (r: Persisted)
    ensures Truthy(Listing(p), s.shared) ==> r == p
    ensures !Truthy(Listing(p), s.shared) ==> r == Parsed(Listing(p)[s.shared := s.key])
  {
    if Truthy(Listing(p), s.shared) then p else Parsed(Listing(p)[s.shared := s.key])
  }

  /** A registered secret can be found again by its shared id, and registering it again changes nothing. */
  lemma RegisterIdempotent(p: Persisted, s: Secret)
    requires s.key != ""
    ensures s.shared in Listing(Registered(p, s))
    ensures Registered(Registered(p, s), s) == Registered(p, s)
    ensures Truthy(Listing(p), s.shared) ==> Listing(Registered(p, s))[s.shared] == Listing(p)[s.shared]
    ensures !Truthy(Listing(p), s.shared) ==> Listing(Registered(p, s))[s.shared] == s.key
  {
  }

  /** The `SunnyPass` service object of sunnypass.js. */
  class SunnyPass {
    const crypto: Crypto
    const json: Json
    var lockers: map<string, Locker>     // by seed
    var persisted: Persisted             // localStorage.lockers

    ghost predicate Valid()
      reads this
    {
      forall k :: k in lockers ==> lockers[k].secret.key == k
    }

    constructor (crypto: Crypto, json: Json, persisted: Persisted)
      ensures this.crypto == crypto && this.json == json
      ensures lockers == map[] && this.persisted == persisted && Valid()
    {
      this.crypto := crypto;
      this.json := json;
      lockers := map[];
      this.persisted := persisted;
    }

    function List(): (m: map<string, string>)
      reads this
      ensures m == Listing(persisted)
    {
      if persisted.Parsed? then persisted.lockers else map[]
    }

    /**
     * `get`: the locker already made for the seed, or a new one, registering
     * `shared -> key` in the persisted map unless the shared id is there.
     * `docs` is the collection a new locker opens.
     */
    method Get(arg: SecretArg, docs: map<string, Doc>) returns (l: Locker)
      requires Valid()
      modifies this
      ensures Valid()
      ensures var s := Resolve(crypto, arg);
        && lockers.Keys == old(lockers).Keys + {s.key}
        && l == lockers[s.key] && l.secret.key == s.key
        && (s.key in old(lockers) ==> l == old(lockers)[s.key] && lockers == old(lockers) && persisted == old(persisted))
        && (s.key !in old(lockers) ==>
              && fresh(l) && l.secret == s && l.docs == docs && l.waiters == []
              && lockers == old(lockers)[s.key := l]
              && persisted == Registered(old(persisted), s))
    {
      var s := Resolve(crypto, arg);
      if s.key !in lockers {
        var m := List();
        if !(s.shared in m && m[s.shared] != "") {
          persisted := Parsed(m[s.shared := s.key]);
        }
        var made := new Locker(Given(s), crypto, json, docs);
        lockers := lockers[s.key := made];
      }
      l := lockers[s.key];
    }

    /**
     * `getBySharedSecret`: `get` on the key persisted for the id; an unknown id
     * hands `get` undefined, which throws.
     */
    method GetBySharedSecret(shared: string, docs: map<string, Doc>) returns (o: Outcome<Locker>)
      requires Valid()
      modifies this
      ensures Valid()
      ensures shared !in old(List()) ==> o == Rejected(TypeError) && lockers == old(lockers) && persisted == old(persisted)
      ensures shared in old(List()) ==> o.Resolved?
      ensures shared in old(List()) ==> var key := old(List())[shared];
        && o.value.secret.key == key
        && key in lockers && o.value == lockers[key]
        && (key in old(lockers) ==> o.value == old(lockers)[key])
    {
      var m := List();
      if shared !in m {
        return Rejected(TypeError);
      }
      var l := Get(Seed(m[shared]), docs);
      o := Resolved(l);
    }

    /** `wipe`: forgets every locker and the persisted map, whether or not destroying the databases fails. */
    method Wipe(destroyFails: bool) returns (o: Outcome<()>)
      modifies this
      ensures lockers == map[] && persisted == Unparseable && List() == map[]
      ensures o == if destroyFails then Rejected(StoreFailure) else Resolved(())
      ensures Valid()
    {
      lockers := map[];
      persisted := Unparseable;
      o := if destroyFails then Rejected(StoreFailure) else Resolved(());
    }
  }

  /** Asking the registry twice for one seed gives the same locker. */
  method GetTwice(sp: SunnyPass, seed: string, docs: map<string, Doc>) returns (l1: Locker, l2: Locker)
    requires sp.Valid()
    modifies sp
    ensures l1 == l2
  {
    l1 := sp.Get(Seed(seed), docs);
    l2 := sp.Get(Seed(seed), docs);
  }
}
