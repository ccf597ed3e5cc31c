/** Sums of keyed amounts: split by key they add up to the whole. */
module KeyedSums {
  type Entries = seq<(string, int)>

  function Total(entries: Entries): (r: int) {
    if entries == [] then 0 else Total(entries[..|entries| - 1]) + entries[|entries| - 1].1
  }

  function TotalFor(entries: Entries, key: string): (r: int) {
    if entries == [] then 0
    else
      var last := entries[|entries| - 1];
      TotalFor(entries[..|entries| - 1], key) + if last.0 == key then last.1 else 0
  }

  function TotalOver(keys: seq<string>, entries: Entries): (r: int) {
    if keys == [] then 0
    else TotalOver(keys[..|keys| - 1], entries) + TotalFor(entries, keys[|keys| - 1])
  }

  ghost predicate DistinctStrings(keys: seq<string>) {
    forall i, j | 0 <= i < j < |keys| :: keys[i] != keys[j]
  }

  lemma {:induction false} OneMoreEntry(keys: seq<string>, entries: Entries, entry: (string, int))
    requires DistinctStrings(keys)
    ensures TotalOver(keys, entries + [entry]) == TotalOver(keys, entries) + if entry.0 in keys then entry.1 else 0
  {
    if keys != [] {
      var n := |keys| - 1;
      OneMoreEntry(keys[..n], entries, entry);
      assert (entries + [entry])[..|entries|] == entries;
      assert keys == keys[..n] + [keys[n]];
      assert keys[n] !in keys[..n];
    }
  }

  /** When every entry belongs to one of the keys, and no key occurs twice, the sums by key add up to the total. */
  lemma {:induction false} SumsByKeyAddUp(keys: seq<string>, entries: Entries)
    requires DistinctStrings(keys)
    requires forall i | 0 <= i < |entries| :: entries[i].0 in keys
    ensures TotalOver(keys, entries) == Total(entries)
  {
    if entries == [] {
      NoEntries(keys);
    } else {
      var n := |entries| - 1;
      SumsByKeyAddUp(keys, entries[..n]);
      OneMoreEntry(keys, entries[..n], entries[n]);
      assert entries[..n] + [entries[n]] == entries;
    }
  }

  lemma {:induction false} NoEntries(keys: seq<string>)
    ensures TotalOver(keys, []) == 0
  {
    if keys != [] { NoEntries(keys[..|keys| - 1]); }
  }
}
