/**
 * The retention pruner: re-lists the report prefixes of the month, sorts them, and
 * deletes every object under every prefix but the last, recording each prefix it
 * went through.
 */
module Prune {
  import opened LexOrder
  import opened ObjectStore

  /** Python's `xs[:-1]`: all elements but the last, and nothing for an empty list. */
  function AllButLast(xs: seq<string>): (r: seq<string>)
    ensures r <= xs
    ensures |r| == if xs == [] then 0 else |xs| - 1
  {
    if xs == [] then [] else xs[..|xs| - 1]
  }

  /** The report prefixes a pruning pass deletes, in the order it deletes them. */
  function ReportsToPrune(objects: map<string, Payload>, monthDir: string): seq<string> {
    AllButLast(SortedList(CommonPrefixes(objects, monthDir)))
  }

  /** `k` lies under one of `dirs`. */
  predicate UnderAny(k: string, dirs: seq<string>) {
    exists i :: 0 <= i < |dirs| && dirs[i] <= k
  }

  /** The objects left once everything under `dirs` is deleted. */
  function WithoutDirs(objects: map<string, Payload>, dirs: seq<string>): map<string, Payload> {
    map k | k in objects && !UnderAny(k, dirs) :: objects[k]
  }

  /** Deleting what lies under one more prefix. */
  lemma WithoutOneMoreDir(objects: map<string, Payload>, dirs: seq<string>, i: nat)
    requires i < |dirs|
    ensures WithoutDirs(objects, dirs[..i + 1])
            == WithoutDirs(objects, dirs[..i]) - KeysUnder(WithoutDirs(objects, dirs[..i]), dirs[i])
  {
    var before := WithoutDirs(objects, dirs[..i]);
    var after := WithoutDirs(objects, dirs[..i + 1]);
    forall k
      ensures UnderAny(k, dirs[..i + 1]) <==> UnderAny(k, dirs[..i]) || dirs[i] <= k
    {
      if UnderAny(k, dirs[..i + 1]) {
        var j :| 0 <= j < i + 1 && dirs[..i + 1][j] <= k;
        if j < i {
          assert dirs[..i][j] == dirs[j];
        }
      }
      if UnderAny(k, dirs[..i]) {
        var j :| 0 <= j < i && dirs[..i][j] <= k;
        assert dirs[..i + 1][j] == dirs[j];
      }
      if dirs[i] <= k {
        assert dirs[..i + 1][i] == dirs[i];
      }
    }
    assert after.Keys == (before - KeysUnder(before, dirs[i])).Keys;
  }

  /** The inner loop: lists the keys under `d` and deletes them one by one. */
  method DeleteAllUnder(store: Store, d: string)
    modifies store
    ensures store.objects == old(store.objects) - KeysUnder(old(store.objects), d)
  {
    var contents := KeysUnder(store.objects, d);
    var remaining := contents;
    while remaining != {}
      invariant remaining <= contents
      invariant store.objects == old(store.objects) - (contents - remaining)
      decreases remaining
    {
      var key :| key in remaining;
      store.DeleteObject(key);
      assert old(store.objects) - (contents - (remaining - {key}))
             == old(store.objects) - (contents - remaining) - {key};
      remaining := remaining - {key};
    }
  }

  /**
   * The loop over the prefixes to prune: for each, deletes every key under it and
   * records the prefix.
   */
  method DeleteReports(store: Store, toPrune: seq<string>) returns (deleted: seq<string>)
    modifies store
    ensures deleted == toPrune
    ensures store.objects == WithoutDirs(old(store.objects), toPrune)
  {
    deleted := [];
    var i := 0;
    while i < |toPrune|
      invariant 0 <= i <= |toPrune|
      invariant deleted == toPrune[..i]
      invariant store.objects == WithoutDirs(old(store.objects), toPrune[..i])
    {
      var d := toPrune[i];
      DeleteAllUnder(store, d);
      deleted := deleted + [d];
      WithoutOneMoreDir(old(store.objects), toPrune, i);
      assert toPrune[..i + 1] == toPrune[..i] + [d];
      i := i + 1;
    }
    assert toPrune[..i] == toPrune;
  }

  /**
   * The pruning step: re-lists the month's report prefixes, sorts them, and prunes
   * all but the last.
   */
  method PruneOldReports(store: Store, monthDir: string) returns (deleted: seq<string>)
    modifies store
    ensures deleted == ReportsToPrune(old(store.objects), monthDir)
    ensures store.objects == WithoutDirs(old(store.objects), deleted)
  {
    var allDirs := SortedList(CommonPrefixes(store.objects, monthDir));
    deleted := DeleteReports(store, AllButLast(allDirs));
  }

  /** All but the last of a strictly sorted list: the elements that are not the greatest. */
  lemma AllButLastOfSorted(all: seq<string>, dirs: set<string>)
    requires StrictlySorted(all)
    requires forall x :: x in all <==> x in dirs
    ensures StrictlySorted(AllButLast(all))
    ensures forall d :: d in AllButLast(all) <==> d in dirs && !IsGreatest(d, dirs)
  {
    if all != [] {
      var n := |all| - 1;
      LastOfStrictlySorted(all, dirs);
      GreatestIsUnique(dirs);
      forall d
        ensures d in all[..n] <==> d in dirs && !IsGreatest(d, dirs)
      {
        if d in all[..n] {
          var j :| 0 <= j < n && all[..n][j] == d;
          assert LexLt(all[j], all[n]);
        }
        if d in dirs && !IsGreatest(d, dirs) {
          var j :| 0 <= j < |all| && all[j] == d;
          assert all[..n][j] == d;
        }
      }
    }
  }

  /** The pruned prefixes are, in ascending order, every report prefix of the month but the greatest. */
  lemma PrunedPrefixes(objects: map<string, Payload>, monthDir: string)
    ensures StrictlySorted(ReportsToPrune(objects, monthDir))
    ensures forall d :: d in ReportsToPrune(objects, monthDir)
                        <==> d in CommonPrefixes(objects, monthDir) && !IsGreatest(d, CommonPrefixes(objects, monthDir))
  {
    AllButLastOfSorted(SortedList(CommonPrefixes(objects, monthDir)), CommonPrefixes(objects, monthDir));
  }

  /**
   * What a pruning pass leaves: only deletions; every object outside the month and
   * every object under the month's greatest report prefix stays; every object under
   * any other report prefix of the month is gone.
   */
  lemma PruneEffect(objects: map<string, Payload>, monthDir: string)
    ensures forall k :: k in WithoutDirs(objects, ReportsToPrune(objects, monthDir))
                        ==> k in objects && WithoutDirs(objects, ReportsToPrune(objects, monthDir))[k] == objects[k]
    ensures forall k :: k in objects && !(monthDir <= k)
                        ==> k in WithoutDirs(objects, ReportsToPrune(objects, monthDir))
    ensures forall k, d :: k in objects && IsGreatest(d, CommonPrefixes(objects, monthDir)) && d <= k
                           ==> k in WithoutDirs(objects, ReportsToPrune(objects, monthDir))
    ensures forall k, d :: k in objects && d in CommonPrefixes(objects, monthDir)
                           && !IsGreatest(d, CommonPrefixes(objects, monthDir)) && d <= k
                           ==> k !in WithoutDirs(objects, ReportsToPrune(objects, monthDir))
  {
    var dirs := CommonPrefixes(objects, monthDir);
    var pruned := ReportsToPrune(objects, monthDir);
    PrunedPrefixes(objects, monthDir);
    PruneEffectOn(objects, monthDir, dirs, pruned);
  }

  /** `PruneEffect` for any list of prefixes that holds exactly the non-greatest report prefixes. */
  lemma PruneEffectOn(objects: map<string, Payload>, monthDir: string, dirs: set<string>, pruned: seq<string>)
    requires dirs == CommonPrefixes(objects, monthDir)
    requires forall d :: d in pruned <==> d in dirs && !IsGreatest(d, dirs)
    ensures forall k :: k in objects && !(monthDir <= k) ==> !UnderAny(k, pruned)
    ensures forall k, d :: k in objects && IsGreatest(d, dirs) && d <= k ==> !UnderAny(k, pruned)
    ensures forall k, d :: k in objects && d in dirs && !IsGreatest(d, dirs) && d <= k ==> UnderAny(k, pruned)
  {
    forall k | k in objects && !(monthDir <= k)
      ensures !UnderAny(k, pruned)
    {
      if UnderAny(k, pruned) {
        var j :| 0 <= j < |pruned| && pruned[j] <= k;
        assert pruned[j] in pruned;
        CommonPrefixShape(objects, monthDir, pruned[j]);
      }
    }
    forall k, d | k in objects && IsGreatest(d, dirs) && d <= k
      ensures !UnderAny(k, pruned)
    {
      if UnderAny(k, pruned) {
        var j :| 0 <= j < |pruned| && pruned[j] <= k;
        assert pruned[j] in pruned;
        CommonPrefixShape(objects, monthDir, pruned[j]);
        CommonPrefixShape(objects, monthDir, d);
        ChildPrefixOfKeyUnique(monthDir, pruned[j], d, k);
      }
    }
    forall k, d | k in objects && d in dirs && !IsGreatest(d, dirs) && d <= k
      ensures UnderAny(k, pruned)
    {
      var j :| 0 <= j < |pruned| && pruned[j] == d;
    }
  }
}
