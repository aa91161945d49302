/**
 * What the two registries' `list` have in common: it opens one locker per
 * listed secret and collects them in the order of `ks`. The lookups that
 * `async.map` starts together are taken here one after another, so a seed
 * opened along the way is the seed of a secret already visited. `list` maps
 * listed ids to secrets.
 */
module Listing {
  import opened Wrappers
  import opened Seqs
  import opened Secrets
  import opened Lockers

  /** No two listed secrets share a seed, so no listed locker is opened on behalf of another. */
  ghost predicate SeedsDistinct(list: map<string, Secret>) {
    forall a, b :: a in list && b in list && a != b ==> list[a].key != list[b].key
  }

  /** Every seed open in `now` was open in `before` or belongs to one of the first `i` listed ids. */
  ghost predicate OpenedFrom<L>(now: map<string, L>, before: map<string, L>, list: map<string, Secret>, ks: seq<string>, i: nat) {
    forall k :: k in now ==> k in before || exists j :: 0 <= j < i && j < |ks| && ks[j] in list && list[ks[j]].key == k
  }

  /** Opening the seed of the `i`-th listed id keeps `OpenedFrom` one step further. */
  lemma OpenedStep<L>(now: map<string, L>, next: map<string, L>, before: map<string, L>, list: map<string, Secret>, ks: seq<string>, i: nat)
    requires i < |ks| && ks[i] in list
    requires OpenedFrom(now, before, list, ks, i)
    requires next.Keys <= now.Keys + {list[ks[i]].key}
    ensures OpenedFrom(next, before, list, ks, i + 1)
  {
  }

  /**
   * Under distinct seeds, a listed secret whose seed was not open before the
   * list began is still not open when its turn comes.
   */
  lemma SeedNotYetOpened<L>(now: map<string, L>, before: map<string, L>, list: map<string, Secret>, ks: seq<string>, i: nat)
    requires SeedsDistinct(list) && Distinct(ks) && i < |ks| && ks[i] in list
    requires list[ks[i]].key !in before
    requires OpenedFrom(now, before, list, ks, i)
    ensures list[ks[i]].key !in now
  {
    forall j | 0 <= j < i && ks[j] in list
      ensures list[ks[j]].key != list[ks[i]].key
    {
      assert ks[j] != ks[i];
    }
  }

  /** `results` holds, in order, the lockers opened for the first `i` listed ids. */
  ghost predicate OpenedInOrder<L>(results: seq<L>, cached: map<string, L>, list: map<string, Secret>, ks: seq<string>, i: nat) {
    && |results| == i <= |ks|
    && forall j :: 0 <= j < i ==> ks[j] in list && list[ks[j]].key in cached && results[j] == cached[list[ks[j]].key]
  }

  /** Appending the locker opened for the `i`-th id, while keeping every open locker, extends the order. */
  lemma OpenedInOrderStep<L>(results: seq<L>, now: map<string, L>, next: map<string, L>, list: map<string, Secret>, ks: seq<string>, i: nat, v: L)
    requires OpenedInOrder(results, now, list, ks, i) && i < |ks| && ks[i] in list
    requires forall k :: k in now ==> k in next && next[k] == now[k]
    requires list[ks[i]].key in next && next[list[ks[i]].key] == v
    ensures OpenedInOrder(results + [v], next, list, ks, i + 1)
  {
  }

  /**
   * What `list` knows once it has visited the first `i` ids of `ks`, starting
   * from the open lockers `before`; `faultsOf` says which metadata documents
   * of a shared id cannot be read.
   */
  ghost predicate Listed<L>(results: seq<L>, failed: bool, cache: map<string, L>, before: map<string, L>,
                         list: map<string, Secret>, ks: seq<string>, i: nat, faultsOf: string -> set<MetaName>)
  {
    && i <= |ks| && Distinct(ks) && (forall j :: 0 <= j < |ks| ==> ks[j] in list)
    && (forall k :: k in before ==> k in cache && cache[k] == before[k])
    && (!failed ==> OpenedInOrder(results, cache, list, ks, i))
    && (failed ==> exists full :: full in list && faultsOf(list[full].shared) != {} && list[full].key !in before)
    && ((forall full :: full in list && faultsOf(list[full].shared) != {} ==> list[full].key in before) ==> !failed)
    && OpenedFrom(cache, before, list, ks, i)
    && (SeedsDistinct(list) ==>
          forall j :: 0 <= j < i && faultsOf(list[ks[j]].shared) != {} && list[ks[j]].key !in before ==> failed)
  }

  /** Opening the locker of the `i`-th id, as `getBySharedSecret` does, keeps `Listed` one step further. */
  lemma ListedStep<L>(results: seq<L>, failed: bool, now: map<string, L>, next: map<string, L>,
                   before: map<string, L>, list: map<string, Secret>, ks: seq<string>, i: nat,
                   faultsOf: string -> set<MetaName>, r: Outcome<L>)
    requires Listed(results, failed, now, before, list, ks, i, faultsOf) && i < |ks|
    requires var s := list[ks[i]];
      && (s.key in now ==> r == Resolved(now[s.key]) && next == now)
      && (s.key !in now && faultsOf(s.shared) == {} ==> r.Resolved? && next == now[s.key := r.value])
      && (s.key !in now && faultsOf(s.shared) != {} ==> r == Rejected(StoreFailure) && next == now)
    ensures !r.Pending?
    ensures Listed(if r.Resolved? then results + [r.value] else results, failed || r.Rejected?, next, before, list, ks, i + 1, faultsOf)
  {
    var s := list[ks[i]];
    OpenedStep(now, next, before, list, ks, i);
    if SeedsDistinct(list) && s.key !in before {
      SeedNotYetOpened(now, before, list, ks, i);
    }
    if r.Resolved? && !failed {
      OpenedInOrderStep(results, now, next, list, ks, i, r.value);
    }
  }

  /** Once every id is visited, `list` failed exactly when some listed locker could not be opened. */
  lemma ListedDone<L>(results: seq<L>, failed: bool, cache: map<string, L>, before: map<string, L>,
                   list: map<string, Secret>, ks: seq<string>, faultsOf: string -> set<MetaName>)
    requires Listed(results, failed, cache, before, list, ks, |ks|, faultsOf)
    requires forall full :: full in list ==> full in ks
    ensures failed ==> exists full :: full in list && faultsOf(list[full].shared) != {} && list[full].key !in before
    ensures SeedsDistinct(list) && (exists full :: full in list && faultsOf(list[full].shared) != {} && list[full].key !in before)
            ==> failed
    ensures !failed ==>
      && |results| == |ks|
      && forall j :: 0 <= j < |ks| ==> list[ks[j]].key in cache && results[j] == cache[list[ks[j]].key]
  {
    if SeedsDistinct(list) && exists full :: full in list && faultsOf(list[full].shared) != {} && list[full].key !in before {
      var full :| full in list && faultsOf(list[full].shared) != {} && list[full].key !in before;
      var j :| 0 <= j < |ks| && ks[j] == full;
    }
  }
}
