/**
 * The grouping and filtering passes of the preset-dictionary builder
 * (`zdict_experiments/gen_dict.py`): substrings filed by count, those inside
 * a longer kept one dropped (within one count, then within a sliding window
 * of counts), and the survivors ranked by count and length.
 */
module SubstringGroups {
  import opened Strings
  import opened SortedListing

  const SLIDING_WINDOW_SIZE: nat := 400

  /** `groups` maps each count to the non-empty set of substrings with exactly that count. */
  predicate Partitioned(counts: map<string, nat>, groups: map<nat, set<string>>)
  {
    && (forall s :: s in counts ==> counts[s] in groups && s in groups[counts[s]])
    && (forall c, s :: c in groups && s in groups[c] ==> s in counts && counts[s] == c)
    && (forall c :: c in groups ==> groups[c] != {})
  }

  /** A substring filed under a count has that count. */
  lemma {:induction false} PartitionedMember(counts: map<string, nat>, groups: map<nat, set<string>>, c: nat, s: string)
    requires Partitioned(counts, groups) && c in groups && s in groups[c]
    ensures s in counts && counts[s] == c
  {
  }

  /** The third step, `reversed_counts`: every substring filed under its count. */
  method ReverseCounts(counts: map<string, nat>) returns (groups: map<nat, set<string>>)
    ensures Partitioned(counts, groups)
  {
    groups := map[];
    var remaining := counts.Keys;
    while remaining != {}
      invariant remaining <= counts.Keys
      invariant forall s :: s in counts && s !in remaining ==> counts[s] in groups && s in groups[counts[s]]
      invariant forall c, s :: c in groups && s in groups[c] ==> s in counts && s !in remaining && counts[s] == c
      invariant forall c :: c in groups ==> groups[c] != {}
      decreases remaining
    {
      var s :| s in remaining;
      var count := counts[s];
      if count !in groups {
        groups := groups[count := {}];
      }
      groups := groups[count := groups[count] + {s}];
      remaining := remaining - {s};
    }
  }

  // ---------------------------------------------------------------- dropping contained substrings

  /**
   * `kept` is what is left of `group` once every entry contained in a longer
   * kept one is removed: no kept entry is inside another, every removed entry
   * is inside a kept one, and a non-empty group keeps something.
   */
  predicate Reduced(group: set<string>, kept: set<string>)
  {
    && kept <= group
    && (forall x, y :: x in kept && y in kept && x != y ==> !IsSubstring(x, y))
    && (forall x :: x in group && x !in kept ==> exists y :: y in kept && y != x && IsSubstring(x, y))
    && (group != {} ==> kept != {})
  }

  /** The key that sorts strings longest first. */
  function LongestFirst(x: string): (int, int)
  {
    (-|x|, 0)
  }

  /**
   * The loop both passes share, over entries listed largest first: an entry is
   * kept in `seen` unless one already seen contains it, in which case it is
   * removed from `group`. No kept entry is inside another, every dropped entry
   * is inside a kept one, and a non-empty list keeps something. The containment
   * test, Python's `entry in existing`, is the parameter `inside`; all the
   * loop needs of it is that an entry is inside one no larger than itself only
   * when the two are equal.
   */
  method Sweep<T(==)>(order: seq<T>, group: set<T>, inside: (T, T) -> bool, size: T -> nat)
    returns (kept: set<T>, seen: set<T>)
    requires forall x, y :: inside(x, y) && size(y) <= size(x) ==> x == y
    requires forall i, j :: 0 <= i < j < |order| ==> order[i] != order[j] && size(order[i]) >= size(order[j])
    ensures forall x :: x in seen ==> x in order
    ensures forall x :: x in kept <==> x in group && (x in seen || x !in order)
    ensures forall x, y :: x in seen && y in seen && x != y ==> !inside(x, y)
    ensures forall x :: x in order && x !in seen ==> exists y :: y in seen && y != x && inside(x, y)
    ensures order != [] ==> seen != {}
  {
    kept, seen := group, {};
    ghost var dropped: set<T> := {};
    for i := 0 to |order|
      invariant forall j :: 0 <= j < i ==> order[j] in seen || order[j] in dropped
      invariant forall j :: i <= j < |order| ==> order[j] !in seen && order[j] !in dropped
      invariant forall x :: x in seen || x in dropped ==> x in order
      invariant seen !! dropped
      invariant forall x :: x in kept <==> x in group && x !in dropped
      invariant forall x, y :: x in seen && y in seen && x != y ==> !inside(x, y)
      invariant forall x :: x in dropped ==> exists y :: y in seen && y != x && inside(x, y)
      invariant i < |order| ==> forall y :: y in seen ==> size(y) >= size(order[i])
      invariant i > 0 ==> seen != {}
    {
      var entry := order[i];
      if exists existing :: existing in seen && inside(entry, existing) {
        kept := kept - {entry};
        dropped := dropped + {entry};
        continue;
      }
      seen := seen + {entry};
    }
  }

  /** `sorted(entries, key=len, reverse=True)`: the entries, longest first. */
  method LongestFirstOrder(entries: set<string>) returns (order: seq<string>)
    ensures Lists(order, entries)
    ensures forall i, j :: 0 <= i < j < |order| ==> order[i] != order[j] && |order[i]| >= |order[j]|
  {
    order := ListSorted(entries, LongestFirst);
    forall i, j | 0 <= i < j < |order| ensures |order[i]| >= |order[j]| {
      assert LexLeq(LongestFirst(order[i]), LongestFirst(order[j]));
    }
  }

  /** A string occurs in one no longer than itself only when the two are equal. */
  lemma {:induction false} InsideNoLonger(x: string, y: string)
    requires IsSubstring(x, y) && |y| <= |x|
    ensures x == y
  {
    var a: nat :| a <= |y| && OccursAt(x, y, a);
    assert a == 0;
    assert y[0..|y|] == y;
  }

  /** Python's `in` on strings meets what the shared loop asks of its containment test. */
  lemma {:induction false} SubstringIsInside()
    ensures forall x, y :: IsSubstring(x, y) && |y| <= |x| ==> x == y
  {
    forall x, y | IsSubstring(x, y) && |y| <= |x| ensures x == y {
      InsideNoLonger(x, y);
    }
  }

  /** One group of the same-count pass: entries longest first, each dropped when a kept one contains it. */
  method DropContained(group: set<string>) returns (kept: set<string>)
    ensures Reduced(group, kept)
  {
    var order := LongestFirstOrder(group);
    SubstringIsInside();
    var seen;
    kept, seen := Sweep(order, group, IsSubstring, s => |s|);
  }

  /** The same-count pass: every group reduced on its own. */
  method SameCountPass(groups: map<nat, set<string>>) returns (result: map<nat, set<string>>)
    ensures result.Keys == groups.Keys
    ensures forall c :: c in groups ==> Reduced(groups[c], result[c])
  {
    result := groups;
    var remaining := groups.Keys;
    while remaining != {}
      invariant remaining <= groups.Keys && result.Keys == groups.Keys
      invariant forall c :: c in groups && c !in remaining ==> Reduced(groups[c], result[c])
      decreases remaining
    {
      var count :| count in remaining;
      var kept := DropContained(groups[count]);
      result := result[count := kept];
      remaining := remaining - {count};
    }
  }

  /** The key that sorts counts largest first. */
  function LargestFirst(c: nat): (int, int)
  {
    (-(c as int), 0)
  }

  /** `x` is contained in another entry `y` of a group whose count is at most `count`. */
  predicate InsideLessCommon(groups: map<nat, set<string>>, count: nat, x: string)
  {
    exists d, y :: d in groups && d <= count && y in groups[d] && y != x && IsSubstring(x, y)
  }

  /**
   * One step of the sliding-window pass: the window is the group at `idx` plus
   * whole groups of the following (smaller) counts until it holds 400 entries
   * or the counts run out; entries of the window are visited longest first, and
   * an entry inside a kept longer one is discarded from the group at `idx` only.
   */
  method WindowStep(groups: map<nat, set<string>>, allCounts: seq<nat>, idx: nat) returns (group: set<string>)
    requires Lists(allCounts, groups.Keys) && SortedBy(allCounts, LargestFirst)
    requires idx < |allCounts|
    ensures group <= groups[allCounts[idx]]
    ensures forall x :: x in groups[allCounts[idx]] && x !in group ==> InsideLessCommon(groups, allCounts[idx], x)
  {
    var count := allCounts[idx];
    var window := Window(groups, allCounts, idx);
    var order := LongestFirstOrder(window);
    SubstringIsInside();
    var seen;
    group, seen := Sweep(order, groups[count], IsSubstring, s => |s|);
    forall x | x in groups[count] && x !in group ensures InsideLessCommon(groups, count, x) {
      var y :| y in seen && y != x && IsSubstring(x, y);
      var k :| idx <= k < |allCounts| && y in groups[allCounts[k]];
      if k > idx {
        assert LexLeq(LargestFirst(allCounts[idx]), LargestFirst(allCounts[k]));
      }
    }
  }

  /**
   * The window for the count at `idx`: its group and the whole groups of the
   * next counts, until it holds 400 entries or the counts run out.
   */
  method Window(groups: map<nat, set<string>>, allCounts: seq<nat>, idx: nat) returns (window: set<string>)
    requires Lists(allCounts, groups.Keys)
    requires idx < |allCounts|
    ensures groups[allCounts[idx]] <= window
    ensures forall y :: y in window ==> exists k :: idx <= k < |allCounts| && y in groups[allCounts[k]]
  {
    window := groups[allCounts[idx]];
    var j := idx;
    while |window| < SLIDING_WINDOW_SIZE && j + 1 < |allCounts|
      invariant idx <= j < |allCounts| && groups[allCounts[idx]] <= window
      decreases |allCounts| - j
      invariant forall y :: y in window ==> exists k :: idx <= k < |allCounts| && y in groups[allCounts[k]]
    {
      j := j + 1;
      window := window + groups[allCounts[j]];
    }
  }

  /** The sliding-window pass over the counts, largest first. */
  method SlidingWindowPass(groups: map<nat, set<string>>) returns (result: map<nat, set<string>>)
    ensures result.Keys == groups.Keys
    ensures forall c :: c in groups ==> result[c] <= groups[c]
    ensures forall c, x :: c in groups && x in groups[c] && x !in result[c] ==> InsideLessCommon(groups, c, x)
  {
    var allCounts := ListSorted(groups.Keys, LargestFirst);
    result := groups;
    for idx := 0 to |allCounts|
      invariant result.Keys == groups.Keys
      invariant forall c :: c in groups ==> result[c] <= groups[c]
      invariant forall k :: idx <= k < |allCounts| ==> result[allCounts[k]] == groups[allCounts[k]]
      invariant forall c, x :: c in groups && x in groups[c] && x !in result[c] ==> InsideLessCommon(groups, c, x)
    {
      var count := allCounts[idx];
      var group := WindowStep(result, allCounts, idx);
      forall x | x in groups[count] && x !in group ensures InsideLessCommon(groups, count, x) {
        assert InsideLessCommon(result, count, x);
        var d, y :| d in result && d <= count && y in result[d] && y != x && IsSubstring(x, y);
        assert y in groups[d];
      }
      ghost var before := result;
      result := result[count := group];
      forall k | idx + 1 <= k < |allCounts| ensures result[allCounts[k]] == groups[allCounts[k]] {
        assert allCounts[k] != count;
      }
      forall c, x | c in groups && x in groups[c] && x !in result[c] ensures InsideLessCommon(groups, c, x) {
        if c != count {
          assert result[c] == before[c];
        }
      }
    }
    assert forall c :: c in groups ==> c in allCounts;
  }

  // ---------------------------------------------------------------- ranking

  /** `groups` files no substring under two counts. */
  predicate Disjoint(groups: map<nat, set<string>>)
  {
    forall c, d, s :: c in groups && d in groups && s in groups[c] && s in groups[d] ==> c == d
  }

  /** Groups cut down from a partition by count still file no substring under two counts. */
  lemma {:induction false} SubGroupsDisjoint(counts: map<string, nat>, groups: map<nat, set<string>>, sub: map<nat, set<string>>)
    requires Partitioned(counts, groups)
    requires forall c :: c in sub ==> c in groups && sub[c] <= groups[c]
    ensures Disjoint(sub)
  {
    forall c, d, s | c in sub && d in sub && s in sub[c] && s in sub[d] ensures c == d {
      assert s in groups[c] && s in groups[d];
      assert counts[s] == c && counts[s] == d;
    }
  }

  /** `filtered_counts`: every substring left in a group, mapped to that group's count. */
  method Flattened(groups: map<nat, set<string>>) returns (counts: map<string, nat>)
    requires Disjoint(groups)
    ensures forall s :: s in counts <==> exists c :: c in groups && s in groups[c]
    ensures forall c, s :: c in groups && s in groups[c] ==> counts[s] == c
  {
    counts := map[];
    var remaining := groups.Keys;
    while remaining != {}
      invariant remaining <= groups.Keys
      invariant forall s :: s in counts <==> exists c :: c in groups && c !in remaining && s in groups[c]
      invariant forall c, s :: c in groups && c !in remaining && s in groups[c] ==> counts[s] == c
      decreases remaining
    {
      var size :| size in remaining;
      var entries := groups[size];
      ghost var before := counts;
      while entries != {}
        invariant entries <= groups[size]
        invariant forall s :: s in counts <==> s in before || (s in groups[size] && s !in entries)
        invariant forall s :: s in before ==> counts[s] == before[s]
        invariant forall s :: s in groups[size] && s !in entries ==> counts[s] == size
        decreases entries
      {
        var entry :| entry in entries;
        counts := counts[entry := size];
        entries := entries - {entry};
      }
      remaining := remaining - {size};
    }
  }

  /** The ranking key: most common first, then shortest first. */
  function RankKey(counts: map<string, nat>): string -> (int, int)
  {
    x => if x in counts then (-(counts[x] as int), |x|) else (0, 0)
  }

  /** `ranked` goes by count, largest first, and within a count by length, shortest first. */
  predicate Ranked(counts: map<string, nat>, ranked: seq<string>)
  {
    && Lists(ranked, counts.Keys)
    && forall i, j :: 0 <= i < j < |ranked| ==>
         counts[ranked[i]] > counts[ranked[j]] || (counts[ranked[i]] == counts[ranked[j]] && |ranked[i]| <= |ranked[j]|)
  }

  /** The two stable sorts, by length and then by count in reverse. */
  method Rank(counts: map<string, nat>) returns (ranked: seq<string>)
    ensures Ranked(counts, ranked)
  {
    ranked := ListSorted(counts.Keys, RankKey(counts));
    forall i, j | 0 <= i < j < |ranked|
      ensures counts[ranked[i]] > counts[ranked[j]] || (counts[ranked[i]] == counts[ranked[j]] && |ranked[i]| <= |ranked[j]|)
    {
      assert LexLeq(RankKey(counts)(ranked[i]), RankKey(counts)(ranked[j]));
    }
  }

}
