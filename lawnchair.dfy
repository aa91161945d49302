/**
 * The Lawnchair `dom` adapter over `localStorage`
 * (vendors/lawnchair/Lawnchair-chromeStorage-localStorage.js): records stored
 * under "name.<key>" and an ordered index of those full keys stored under
 * "name._index_". JSON serialisation of records and of the index is the
 * identity here.
 */
module Lawnchair {
  import opened Wrappers
  import opened Seqs

  /** A record handed back to a caller: the stored object with its `key` property set again. */
  datatype Keyed<V> = Keyed(key: string, record: V)

  /** What `remove` is given: a key, or a record whose `key` property names it. */
  datatype Target<V> = ByKey(key: string) | ByRecord(item: Keyed<V>)

  predicate HasPrefix(s: string, p: string) {
    |p| <= |s| && s[..|p|] == p
  }

  /** A full key of collection `name`: "name." followed by a non-empty key. */
  predicate Owned(name: string, full: string) {
    HasPrefix(full, name + ".") && |full| > |name| + 1
  }

  /** The position of the first `x` in `s`, if any. */
  function Position<T(==)>(s: seq<T>, x: T): (p: Option<nat>)
    ensures p.None? <==> x !in s
    ensures p.Some? ==> p.value < |s| && s[p.value] == x && forall j :: 0 <= j < p.value ==> s[j] != x
  {
    if s == [] then None
    else if s[0] == x then Some(0)
    else match Position(s[1..], x)
      case None => None
      case Some(i) => Some(i + 1)
  }

  predicate MatchesAt(s: string, p: string, j: nat) {
    j + |p| <= |s| && s[j..j + |p|] == p
  }

  /** The first position at or after `from` where `p` occurs in `s`. */
  function FirstMatch(s: string, p: string, from: nat): (r: Option<nat>)
    decreases |s| - from
    ensures r.Some? ==> from <= r.value && MatchesAt(s, p, r.value)
    ensures r.Some? ==> forall j: nat :: from <= j < r.value ==> !MatchesAt(s, p, j)
    ensures r.None? ==> forall j: nat :: from <= j ==> !MatchesAt(s, p, j)
  {
    if from + |p| > |s| then None
    else if MatchesAt(s, p, from) then Some(from)
    else FirstMatch(s, p, from + 1)
  }

  /** `s.replace(p, '')` with a string pattern: only the first occurrence goes. */
  function ReplaceFirst(s: string, p: string): string {
    match FirstMatch(s, p, 0)
    case None => s
    case Some(i) => s[..i] + s[i + |p|..]
  }

  /** On an index entry, which starts with the pattern, `replace` strips exactly that prefix. */
  lemma ReplacePrefix(s: string, p: string)
    requires HasPrefix(s, p)
    ensures ReplaceFirst(s, p) == s[|p|..]
  {
    assert s[0..|p|] == p;
  }

  /** `Lawnchair.prototype.indexOf`: the first position of `item`, or -1. */
  method IndexOf<T(==)>(ary: seq<T>, item: T) returns (i: int)
    ensures i == match Position(ary, item) case None => -1 case Some(p) => p
  {
    var k := 0;
    while k < |ary|
      invariant 0 <= k <= |ary|
      invariant forall j :: 0 <= j < k ==> ary[j] != item
    {
      if ary[k] == item {
        return k;
      }
      k := k + 1;
    }
    return -1;
  }

  /** The loop of the indexer's `find`: the first position of `key`, or `false` (None). */
  method Find(a: seq<string>, key: string) returns (pos: Option<nat>)
    ensures pos == Position(a, key)
  {
    var i := 0;
    while i < |a|
      invariant 0 <= i <= |a|
      invariant forall j :: 0 <= j < i ==> a[j] != key
    {
      if key == a[i] {
        return Some(i);
      }
      i := i + 1;
    }
    return None;
  }

  /** The loop of the indexer's `del`: every entry other than `key`, in order. */
  method Filter(a: seq<string>, key: string) returns (r: seq<string>)
    ensures r == Without(a, key)
  {
    r := [];
    var i := 0;
    while i < |a|
      invariant 0 <= i <= |a|
      invariant r == Without(a[..i], key)
    {
      WithoutAppend(a[..i], a[i], key);
      assert a[..i + 1] == a[..i] + [a[i]];
      if a[i] != key {
        r := r + [a[i]];
      }
      i := i + 1;
    }
    assert a[..i] == a;
  }

  /** The index after `add` of each full key that `find` does not report, in order. */
  function Appended(idx: seq<string>, fulls: seq<string>): seq<string>
    decreases |fulls|
  {
    if fulls == [] then idx
    else
      var p := Appended(idx, fulls[..|fulls| - 1]);
      var x := fulls[|fulls| - 1];
      if x in p then p else p + [x]
  }

  /** Appending keeps the old index as a prefix and adds exactly the saved keys. */
  lemma {:induction false} AppendedMembers(idx: seq<string>, fulls: seq<string>)
    decreases |fulls|
    ensures |idx| <= |Appended(idx, fulls)| && Appended(idx, fulls)[..|idx|] == idx
    ensures forall x :: x in Appended(idx, fulls) <==> x in idx || x in fulls
  {
    if fulls != [] {
      var x := fulls[|fulls| - 1];
      AppendedMembers(idx, fulls[..|fulls| - 1]);
      assert fulls == fulls[..|fulls| - 1] + [x];
    }
  }

  /** The index after `del` of each full key in turn. */
  function Removed(idx: seq<string>, fulls: seq<string>): seq<string>
    decreases |fulls|
  {
    if fulls == [] then idx
    else Without(Removed(idx, fulls[..|fulls| - 1]), fulls[|fulls| - 1])
  }

  /** Deleting keeps exactly the entries that are not deleted keys. */
  lemma {:induction false} RemovedMembers(idx: seq<string>, fulls: seq<string>)
    decreases |fulls|
    ensures forall x :: x in Removed(idx, fulls) <==> x in idx && x !in fulls
  {
    if fulls != [] {
      var x := fulls[|fulls| - 1];
      RemovedMembers(idx, fulls[..|fulls| - 1]);
      WithoutMembers(Removed(idx, fulls[..|fulls| - 1]), x);
      assert fulls == fulls[..|fulls| - 1] + [x];
    }
  }

  lemma AppendedSnoc(idx: seq<string>, fulls: seq<string>, x: string)
    ensures Appended(idx, fulls + [x]) == var p := Appended(idx, fulls); if x in p then p else p + [x]
  {
    assert (fulls + [x])[..|fulls|] == fulls;
  }

  lemma RemovedSnoc(idx: seq<string>, fulls: seq<string>, x: string)
    ensures Removed(idx, fulls + [x]) == Without(Removed(idx, fulls), x)
  {
    assert (fulls + [x])[..|fulls|] == fulls;
  }

  /** The key `remove` uses: a record without a truthy `key` is stringified as an object. */
  function TargetKey<V>(t: Target<V>): string {
    match t
    case ByKey(k) => k
    case ByRecord(r) => if r.key != "" then r.key else "[object Object]"
  }

  /**
   * What localStorage may hold for collection `name`: records under full keys
   * and an index listing each of them exactly once.
   */
  ghost predicate Indexed<V>(name: string, records: map<string, V>, index: Option<seq<string>>) {
    && (index.None? ==> records == map[])
    && Distinct(index.GetOr([]))
    && (forall k :: k in records <==> k in index.GetOr([]))
    && (forall i :: 0 <= i < |index.GetOr([])| ==> Owned(name, index.GetOr([])[i]))
  }

  class Dom<V> {
    const name: string
    var records: map<string, V>      // localStorage items under "name.<key>"
    var index: Option<seq<string>>   // the array under "name._index_"; None until first read

    function Index(): seq<string>
      reads this
    {
      index.GetOr([])
    }

    /** The index lists every record exactly once, and nothing else. */
    ghost predicate Valid()
      reads this
    {
      Indexed(name, records, index)
    }

    /** `init`: the adapter of collection `name` over what localStorage already holds for it. */
    constructor (name: string, records: map<string, V>, index: Option<seq<string>>)
      requires Indexed(name, records, index)
      ensures this.name == name && this.records == records && this.index == index
      ensures Valid()
    {
      this.name := name;
      this.records := records;
      this.index := index;
    }

    function FullKey(key: string): string {
      name + "." + key
    }

    /** `get(key)`: the stored record with its key restored, or null. */
    function Get(key: string): (r: Option<Keyed<V>>)
      reads this
      ensures r.Some? <==> FullKey(key) in records
      ensures r.Some? ==> r.value.key == key && r.value.record == records[FullKey(key)]
    {
      if FullKey(key) in records then Some(Keyed(key, records[FullKey(key)])) else None
    }

    /** The indexer's `all`: the index, stored as empty on first use. */
    method IndexAll() returns (a: seq<string>)
      modifies this`index
      ensures a == old(Index()) && index == Some(a)
    {
      if index.None? {
        index := Some([]);
      }
      a := index.value;
    }

    method IndexAdd(key: string)
      modifies this`index
      ensures index == Some(old(Index()) + [key])
    {
      var a := IndexAll();
      index := Some(a + [key]);
    }

    method IndexDel(key: string)
      modifies this`index
      ensures index == Some(Without(old(Index()), key))
    {
      var a := IndexAll();
      var r := Filter(a, key);
      index := Some(r);
    }

    method IndexFind(key: string) returns (pos: Option<nat>)
      modifies this`index
      ensures pos == Position(old(Index()), key)
      ensures index == Some(old(Index()))
    {
      var a := IndexAll();
      pos := Find(a, key);
    }

    /**
     * `save(obj)`: stores the record under its key (a fresh uuid when the key
     * is falsy) and appends the full key to the index only when `find` reports
     * it absent.
     */
    method Save(key: string, value: V, uuid: string) returns (saved: Keyed<V>)
      requires Valid()
      requires key != "" || uuid != ""
      modifies this
      ensures Valid()
      ensures saved == Keyed(if key != "" then key else uuid, value)
      ensures records == old(records)[FullKey(saved.key) := value]
      ensures Index() == if FullKey(saved.key) in old(Index()) then old(Index()) else old(Index()) + [FullKey(saved.key)]
      ensures Get(saved.key) == Some(saved)
    {
      var full := name + "." + (if key != "" then key else uuid);
      records := records[full := value];
      var pos := IndexFind(full);
      if pos.None? {
        IndexAdd(full);
      }
      saved := Keyed(full[|name| + 1..], value);
      assert full[..|name| + 1] == name + ".";
      assert Owned(name, full);
    }

    /** The full keys of records handed back by `save`. */
    function Fulls(saved: seq<Keyed<V>>): seq<string> {
      seq(|saved|, i requires 0 <= i < |saved| => FullKey(saved[i].key))
    }

    /** The records after storing each saved record in turn. */
    function Stored(m: map<string, V>, saved: seq<Keyed<V>>): map<string, V>
      decreases |saved|
    {
      if saved == [] then m
      else Stored(m, saved[..|saved| - 1])[FullKey(saved[|saved| - 1].key) := saved[|saved| - 1].record]
    }

    /**
     * Storing in turn adds exactly the saved keys, keeps every other record,
     * and leaves under each key the last record saved there.
     */
    lemma {:induction false} StoredRecords(m: map<string, V>, saved: seq<Keyed<V>>)
      decreases |saved|
      ensures forall k :: k in Stored(m, saved) <==> k in m || k in Fulls(saved)
      ensures forall k :: k in m && k !in Fulls(saved) ==> Stored(m, saved)[k] == m[k]
      ensures forall i :: 0 <= i < |saved| && (forall j :: i < j < |saved| ==> saved[j].key != saved[i].key) ==>
        FullKey(saved[i].key) in Stored(m, saved) && Stored(m, saved)[FullKey(saved[i].key)] == saved[i].record
    {
      if saved != [] {
        var n := |saved| - 1;
        var before := saved[..n];
        StoredRecords(m, before);
        assert Fulls(saved) == Fulls(before) + [FullKey(saved[n].key)];
        forall i | 0 <= i < |saved| && (forall j :: i < j < |saved| ==> saved[j].key != saved[i].key)
          ensures FullKey(saved[i].key) in Stored(m, saved) && Stored(m, saved)[FullKey(saved[i].key)] == saved[i].record
        {
          if i < n {
            FullKeyInjective(saved[i].key, saved[n].key);
            forall j | i < j < n ensures before[j].key != before[i].key {
              assert before[j] == saved[j];
            }
          }
        }
      }
    }

    /**
     * `batch`: saves each object in turn and collects what each save handed
     * back. A key saved twice keeps the later value, records under other keys
     * stay, and the index gains each new full key once, in order.
     */
    method Batch(items: seq<(string, V)>, uuids: seq<string>) returns (saved: seq<Keyed<V>>)
      requires Valid()
      requires |uuids| == |items|
      requires forall i :: 0 <= i < |items| ==> items[i].0 != "" || uuids[i] != ""
      modifies this
      ensures Valid()
      ensures |saved| == |items|
      ensures forall i :: 0 <= i < |items| ==>
        saved[i] == Keyed(if items[i].0 != "" then items[i].0 else uuids[i], items[i].1)
      ensures records == Stored(old(records), saved)
      ensures Index() == Appended(old(Index()), Fulls(saved))
      ensures forall k :: k in records <==> k in old(records) || k in Fulls(saved)
      ensures forall k :: k in old(records) && k !in Fulls(saved) ==> records[k] == old(records)[k]
      ensures forall i :: 0 <= i < |saved| && (forall j :: i < j < |saved| ==> saved[j].key != saved[i].key) ==>
        Get(saved[i].key) == Some(saved[i])
    {
      saved := [];
      var i := 0;
      while i < |items|
        invariant 0 <= i <= |items|
        invariant Valid()
        invariant |saved| == i
        invariant forall j :: 0 <= j < i ==>
          saved[j] == Keyed(if items[j].0 != "" then items[j].0 else uuids[j], items[j].1)
        invariant records == Stored(old(records), saved)
        invariant Index() == Appended(old(Index()), Fulls(saved))
      {
        ghost var before := saved;
        var r := Save(items[i].0, items[i].1, uuids[i]);
        saved := saved + [r];
        SavedShape(items, uuids, before, r);
        assert Fulls(saved) == Fulls(before) + [FullKey(r.key)];
        AppendedSnoc(old(Index()), Fulls(before), FullKey(r.key));
        i := i + 1;
      }
      StoredRecords(old(records), saved);
    }

    lemma SavedShape(items: seq<(string, V)>, uuids: seq<string>, before: seq<Keyed<V>>, r: Keyed<V>)
      requires |before| < |items| == |uuids|
      requires forall j :: 0 <= j < |before| ==>
        before[j] == Keyed(if items[j].0 != "" then items[j].0 else uuids[j], items[j].1)
      requires r == Keyed(if items[|before|].0 != "" then items[|before|].0 else uuids[|before|], items[|before|].1)
      ensures forall j :: 0 <= j < |before| + 1 ==>
        (before + [r])[j] == Keyed(if items[j].0 != "" then items[j].0 else uuids[j], items[j].1)
    {
    }

    lemma FullKeyInjective(a: string, b: string)
      requires a != b
      ensures FullKey(a) != FullKey(b)
    {
      var p := name + ".";
      assert FullKey(a)[|p|..] == a && FullKey(b)[|p|..] == b;
    }

    /** `keys`: the index in insertion order, each entry with "name." removed. */
    method Keys() returns (ks: seq<string>)
      requires Valid()
      modifies this`index
      ensures Valid() && records == old(records)
      ensures Index() == old(Index())
      ensures |ks| == |Index()|
      ensures forall i :: 0 <= i < |ks| ==> FullKey(ks[i]) == Index()[i] && Get(ks[i]).Some?
    {
      var a := IndexAll();
      var prefix := name + ".";
      ks := seq(|a|, i requires 0 <= i < |a| => ReplaceFirst(a[i], prefix));
      forall i | 0 <= i < |ks|
        ensures FullKey(ks[i]) == Index()[i]
      {
        ReplacePrefix(a[i], prefix);
        assert a[i] == prefix + a[i][|prefix|..];
      }
    }

    /** `get` on an array of keys: one answer per key, null for a missing record. */
    method GetMany(keys: seq<string>) returns (rs: seq<Option<Keyed<V>>>)
      ensures |rs| == |keys|
      ensures forall i :: 0 <= i < |keys| ==> rs[i] == Get(keys[i])
    {
      rs := [];
      var i := 0;
      while i < |keys|
        invariant 0 <= i <= |keys|
        invariant |rs| == i
        invariant forall j :: 0 <= j < i ==> rs[j] == Get(keys[j])
      {
        var k := name + "." + keys[i];
        var obj := if k in records then Some(Keyed(keys[i], records[k])) else None;
        rs := rs + [obj];
        i := i + 1;
      }
    }

    /** `exists(key)`: whether "name.key" is in the index. */
    method Exists(key: string) returns (b: bool)
      modifies this`index
      ensures b <==> FullKey(key) in old(Index())
      ensures index == Some(old(Index()))
      ensures old(Valid()) ==> (b <==> Get(key).Some?)
    {
      var pos := IndexFind(name + "." + key);
      b := pos.Some?;
    }

    /** `all`: one record per index entry, in index order, each tagged with its key. */
    method All() returns (rs: seq<Keyed<V>>)
      requires Valid()
      modifies this`index
      ensures Valid() && records == old(records)
      ensures Index() == old(Index()) && index.Some?
      ensures |rs| == |Index()|
      ensures forall i :: 0 <= i < |rs| ==>
        FullKey(rs[i].key) == Index()[i] && rs[i].record == records[Index()[i]] && rs[i].key != ""
    {
      var idx := IndexAll();
      var prefix := name + ".";
      rs := [];
      var i := 0;
      while i < |idx|
        invariant 0 <= i <= |idx|
        invariant index == Some(idx)
        invariant |rs| == i
        invariant forall j :: 0 <= j < i ==>
          FullKey(rs[j].key) == idx[j] && rs[j].record == records[idx[j]] && rs[j].key != ""
      {
        var k := idx[i];
        ReplacePrefix(k, prefix);
        assert k == prefix + k[|prefix|..];
        rs := rs + [Keyed(ReplaceFirst(k, prefix), records[k])];
        i := i + 1;
      }
    }

    /** `remove`: drops every index occurrence of the full key, then the record. */
    method Remove(t: Target<V>)
      requires Valid()
      modifies this
      ensures Valid()
      ensures index == Some(Without(old(Index()), FullKey(TargetKey(t))))
      ensures records == old(records) - {FullKey(TargetKey(t))}
      ensures Get(TargetKey(t)).None?
    {
      var key := name + "." + TargetKey(t);
      IndexDel(key);
      records := records - {key};
      WithoutDistinct(old(Index()), key);
      WithoutMembers(old(Index()), key);
      forall i | 0 <= i < |index.GetOr([])| ensures Owned(name, index.GetOr([])[i]) {
        assert index.GetOr([])[i] in old(Index());
      }
    }

    /** The full keys an array of targets names. */
    function TargetKeys(ts: seq<Target<V>>): set<string> {
      if ts == [] then {} else TargetKeys(ts[..|ts| - 1]) + {FullKey(TargetKey(ts[|ts| - 1]))}
    }

    /** The same full keys, in array order. */
    function TargetFulls(ts: seq<Target<V>>): (r: seq<string>)
      ensures |r| == |ts| && forall i :: 0 <= i < |ts| ==> r[i] == FullKey(TargetKey(ts[i]))
    {
      seq(|ts|, i requires 0 <= i < |ts| => FullKey(TargetKey(ts[i])))
    }

    lemma RemoveManyStep(idx: seq<string>, m: map<string, V>, ts: seq<Target<V>>, i: nat)
      requires i < |ts|
      ensures Removed(idx, TargetFulls(ts[..i + 1])) == Without(Removed(idx, TargetFulls(ts[..i])), FullKey(TargetKey(ts[i])))
      ensures m - TargetKeys(ts[..i + 1]) == m - TargetKeys(ts[..i]) - {FullKey(TargetKey(ts[i]))}
    {
      assert ts[..i + 1][..i] == ts[..i];
      assert TargetFulls(ts[..i + 1]) == TargetFulls(ts[..i]) + [FullKey(TargetKey(ts[i]))];
      RemovedSnoc(idx, TargetFulls(ts[..i]), FullKey(TargetKey(ts[i])));
      assert TargetKeys(ts[..i + 1]) == TargetKeys(ts[..i]) + {FullKey(TargetKey(ts[i]))};
    }

    /** `remove` on an array: each element in turn; the other records and the index order stay. */
    method RemoveMany(ts: seq<Target<V>>)
      requires Valid()
      modifies this
      ensures Valid()
      ensures records == old(records) - TargetKeys(ts)
      ensures Index() == Removed(old(Index()), TargetFulls(ts))
    {
      ghost var idx0 := Index();
      var i := 0;
      assert TargetFulls(ts[..0]) == [];
      while i < |ts|
        invariant 0 <= i <= |ts|
        invariant Valid()
        invariant records == old(records) - TargetKeys(ts[..i])
        invariant Index() == Removed(idx0, TargetFulls(ts[..i]))
      {
        RemoveManyStep(idx0, old(records), ts, i);
        Remove(ts[i]);
        i := i + 1;
      }
      assert ts[..i] == ts;
    }

    /** `nuke`: removes every record listed by `all`, leaving an empty index. */
    method Nuke()
      requires Valid()
      modifies this
      ensures Valid()
      ensures index == Some([]) && records == map[]
    {
      var rs := All();
      ghost var ix := Index();
      var i := 0;
      while i < |rs|
        invariant 0 <= i <= |rs|
        invariant Valid()
        invariant Index() == ix[i..] && index.Some?
      {
        assert FullKey(TargetKey(ByRecord(rs[i]))) == ix[i];
        WithoutHead(ix[i..]);
        Remove(ByRecord(rs[i]));
        i := i + 1;
      }
      assert records == map[];
    }
  }
}
