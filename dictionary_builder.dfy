/**
 * The preset-dictionary builder (`zdict_experiments/gen_dict.py`): count the
 * substrings of the upper-cased part names, keep the frequent ones, drop those
 * contained in a longer kept one (first within one count, then within a
 * sliding window of counts), rank the rest by count and length, and chain them
 * into one "portmanteau" string, most common at the end.
 *
 * Python's set iteration order is unspecified; where the script sorts a set,
 * the model lists it in some order that the sort key allows.
 */
module DictionaryBuilder {
  import opened Strings
  import opened SubstringCounts
  import opened SubstringGroups
  import opened Portmanteau

  /**
   * Every substring missing from `filtered` lies inside another substring of
   * `counts` that is no more common: the only reason the passes drop one.
   */
  predicate DroppedOnlyInside(counts: map<string, nat>, filtered: map<string, nat>)
  {
    forall s :: s in counts && s !in filtered ==>
      exists t :: t in counts && t != s && counts[t] <= counts[s] && IsSubstring(s, t)
  }

  /**
   * The passes from the retained counts to `filtered_counts`: what is left is
   * a part of the counts, each substring under its own count, and a substring
   * is dropped only when a no more common one contains it.
   */
  method ReduceCounts(counts: map<string, nat>) returns (filtered: map<string, nat>)
    ensures forall s :: s in filtered ==> s in counts && filtered[s] == counts[s]
    ensures DroppedOnlyInside(counts, filtered)
  {
    var groups := ReverseCounts(counts);
    var reduced := SameCountPass(groups);
    var windowed := SlidingWindowPass(reduced);
    assert forall c :: c in windowed ==> windowed[c] <= groups[c];
    SubGroupsDisjoint(counts, groups, windowed);
    filtered := Flattened(windowed);
    forall s | s in filtered ensures s in counts && filtered[s] == counts[s] {
      var c :| c in windowed && s in windowed[c];
      assert filtered[s] == c;
      assert c in reduced && c in groups;
      assert s in groups[c];
      PartitionedMember(counts, groups, c, s);
    }
    forall s | s in counts && s !in filtered
      ensures exists t :: t in counts && t != s && counts[t] <= counts[s] && IsSubstring(s, t)
    {
      var c := counts[s];
      assert s in groups[c];
      if s !in reduced[c] {
        var t :| t in reduced[c] && t != s && IsSubstring(s, t);
        PartitionedMember(counts, groups, c, t);
      } else {
        assert s !in windowed[c];
        var d, t :| d in reduced && d <= c && t in reduced[d] && t != s && IsSubstring(s, t);
        PartitionedMember(counts, groups, d, t);
      }
    }
  }

  /**
   * The script up to `filtered_counts`: every substring left was counted at
   * least seven times, is kept under exactly that count, and occurs in an
   * upper-cased part name before that name's last character; every frequent
   * substring dropped lies inside a no more common frequent one.
   */
  method FilteredCounts(lines: seq<string>) returns (filtered: map<string, nat>)
    ensures forall s :: s in filtered ==> filtered[s] == AllSubstrings(lines)[s] >= MIN_SUBSTRING_REPEATS
    ensures forall s :: s in filtered ==>
      exists k: nat, a: nat, e: nat :: k < |lines| && Counted(Upper(lines[k]), s, a, e)
    ensures DroppedOnlyInside(Frequent(AllSubstrings(lines)), filtered)
  {
    var all := CountSubstrings(lines);
    filtered := ReduceCounts(Frequent(all));
    forall s | s in filtered
      ensures filtered[s] == all[s] >= MIN_SUBSTRING_REPEATS
      ensures exists k: nat, a: nat, e: nat :: k < |lines| && Counted(Upper(lines[k]), s, a, e)
    {
      FrequentMembers(all, s);
      CountedSubstrings(lines, s);
    }
  }

  /**
   * The whole script, from the part names to the dictionary: the substrings
   * left are ranked by count and length, and the dictionary is built from them.
   */
  method GenerateDictionary(lines: seq<string>) returns (ranked: seq<string>, filtered: map<string, nat>, zdict: string)
    ensures Ranked(filtered, ranked)
    ensures forall s :: s in filtered ==> filtered[s] == AllSubstrings(lines)[s] >= MIN_SUBSTRING_REPEATS
    ensures forall s :: s in filtered ==>
      exists k: nat, a: nat, e: nat :: k < |lines| && Counted(Upper(lines[k]), s, a, e)
    ensures DroppedOnlyInside(Frequent(AllSubstrings(lines)), filtered)
    ensures zdict == Built(ranked, [])
  {
    filtered := FilteredCounts(lines);
    ranked := Rank(filtered);
    zdict := BuildDictionary(ranked);
  }
}
