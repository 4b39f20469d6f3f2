/** A Python dict display `{k1: v1, k2: v2, ...}`: its entries are inserted
    left to right, so a key written twice keeps the value written last. */
module Dicts {

  /** The dictionary a display with these entries evaluates to. */
  function FromEntries<K, V>(entries: seq<(K, V)>): (m: map<K, V>)
    ensures |m| <= |entries|
    ensures entries != [] ==>
      entries[|entries| - 1].0 in m && m[entries[|entries| - 1].0] == entries[|entries| - 1].1
  {
    if entries == [] then map[]
    else
      var last := entries[|entries| - 1];
      FromEntries(entries[..|entries| - 1])[last.0 := last.1]
  }

  /** No key is written twice in the display. */
  ghost predicate DistinctKeys<K, V>(entries: seq<(K, V)>)
  {
    forall i, j :: 0 <= i < j < |entries| ==> entries[i].0 != entries[j].0
  }

  /** Every key keeps the value of the last entry written for it: an entry
      that no later entry overwrites is found in the dictionary. */
  lemma {:induction false} FromEntriesLastWins<K, V>(entries: seq<(K, V)>, i: int)
    requires 0 <= i < |entries|
    requires forall j :: i < j < |entries| ==> entries[j].0 != entries[i].0
    ensures entries[i].0 in FromEntries(entries) && FromEntries(entries)[entries[i].0] == entries[i].1
  {
    if i < |entries| - 1 {
      var prefix := entries[..|entries| - 1];
      assert prefix[i] == entries[i];
      FromEntriesLastWins(prefix, i);
    }
  }

  /** The dictionary's keys are exactly the keys written in the display. */
  lemma {:induction false} FromEntriesKeys<K, V>(entries: seq<(K, V)>)
    ensures FromEntries(entries).Keys == set i | 0 <= i < |entries| :: entries[i].0
  {
    if entries != [] {
      var prefix := entries[..|entries| - 1];
      FromEntriesKeys(prefix);
      var keys := set i | 0 <= i < |entries| :: entries[i].0;
      var prefixKeys := set i | 0 <= i < |prefix| :: prefix[i].0;
      assert keys == prefixKeys + {entries[|entries| - 1].0} by {
        forall k | k in keys ensures k in prefixKeys + {entries[|entries| - 1].0} {
          var i :| 0 <= i < |entries| && entries[i].0 == k;
          if i < |prefix| { assert prefix[i].0 == k; }
        }
      }
    }
  }

  /** When no key is written twice, every entry of the display is found under
      its key, and the dictionary has as many entries as the display. */
  lemma {:induction false} FromEntriesDistinct<K, V>(entries: seq<(K, V)>)
    requires DistinctKeys(entries)
    ensures |FromEntries(entries)| == |entries|
    ensures forall i :: 0 <= i < |entries| ==>
      entries[i].0 in FromEntries(entries) && FromEntries(entries)[entries[i].0] == entries[i].1
  {
    if entries != [] {
      var prefix := entries[..|entries| - 1];
      var last := entries[|entries| - 1];
      assert DistinctKeys(prefix);
      FromEntriesDistinct(prefix);
      FromEntriesKeys(prefix);
      assert last.0 !in FromEntries(prefix);
      forall i | 0 <= i < |entries|
        ensures entries[i].0 in FromEntries(entries) && FromEntries(entries)[entries[i].0] == entries[i].1
      {
        if i < |prefix| {
          assert prefix[i] == entries[i];
        }
      }
    }
  }
}
