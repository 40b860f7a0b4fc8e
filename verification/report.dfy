/**
 * The report tap: the entries of the final cell-count map, sorted ascending by count
 * (`[...map.entries()].sort((a, b) => a[1] - b[1])`), one printed line per entry.
 */
module Report {

  /** A `[cell, count]` entry of the map. */
  type Entry = (string, nat)

  predicate SortedByCount(lines: seq<Entry>)
  {
    forall i, j :: 0 <= i < j < |lines| ==> lines[i].1 <= lines[j].1
  }

  /** Inserts after every entry with a count not above `e`'s, so equal counts keep their order. */
  function Insert(e: Entry, sorted: seq<Entry>): (r: seq<Entry>)
    ensures |r| == |sorted| + 1
  {
    if sorted == [] then [e]
    else if e.1 < sorted[0].1 then [e] + sorted
    else [sorted[0]] + Insert(e, sorted[1..])
  }

  /** Inserting into a list sorted by count keeps it sorted and adds exactly that entry. */
  lemma {:induction false} InsertKeepsOrder(e: Entry, sorted: seq<Entry>)
    requires SortedByCount(sorted)
    ensures Insert(e, sorted)[0] == e || (sorted != [] && Insert(e, sorted)[0] == sorted[0])
    ensures SortedByCount(Insert(e, sorted))
    ensures multiset(Insert(e, sorted)) == multiset(sorted) + multiset{e}
  {
    InsertPermutes(e, sorted);
    if sorted == [] {
    } else if e.1 < sorted[0].1 {
      var r := [e] + sorted;
      forall i, j | 0 <= i < j < |r|
        ensures r[i].1 <= r[j].1
      {
        if i == 0 {
          assert r[j] == sorted[j - 1];
        } else {
          assert r[i] == sorted[i - 1] && r[j] == sorted[j - 1];
        }
      }
    } else {
      var tail := sorted[1..];
      var rest := Insert(e, tail);
      InsertKeepsOrder(e, tail);
      assert sorted[0].1 <= rest[0].1;
      var r := [sorted[0]] + rest;
      forall i, j | 0 <= i < j < |r|
        ensures r[i].1 <= r[j].1
      {
        if i == 0 {
          assert r[j] == rest[j - 1];
        } else {
          assert r[i] == rest[i - 1] && r[j] == rest[j - 1];
        }
      }
    }
  }

  /** Inserting adds exactly that entry, wherever it lands. */
  lemma {:induction false} InsertPermutes(e: Entry, sorted: seq<Entry>)
    ensures multiset(Insert(e, sorted)) == multiset(sorted) + multiset{e}
  {
    if sorted != [] && e.1 >= sorted[0].1 {
      var tail := sorted[1..];
      InsertPermutes(e, tail);
      assert sorted == [sorted[0]] + tail;
      assert Insert(e, sorted) == [sorted[0]] + Insert(e, tail);
    }
  }

  /** The comparator sort, as a stable insertion sort. */
  function SortByCount(entries: seq<Entry>): (sorted: seq<Entry>)
    ensures |sorted| == |entries|
  {
    if entries == [] then []
    else Insert(entries[|entries| - 1], SortByCount(entries[..|entries| - 1]))
  }

  /** The sort's result is ascending by count and a permutation of its input. */
  lemma {:induction false} SortByCountSorts(entries: seq<Entry>)
    ensures SortedByCount(SortByCount(entries))
    ensures multiset(SortByCount(entries)) == multiset(entries)
  {
    if entries != [] {
      var prefix, last := entries[..|entries| - 1], entries[|entries| - 1];
      var sortedPrefix := SortByCount(prefix);
      SortByCountSorts(prefix);
      InsertKeepsOrder(last, sortedPrefix);
      assert SortByCount(entries) == Insert(last, sortedPrefix);
      assert entries == prefix + [last];
      assert multiset(entries) == multiset(prefix) + multiset{last};
    }
  }

  /** `[...map.entries()]`: every entry of the map once, in an order this model leaves open. */
  method Entries(counts: map<string, nat>) returns (entries: seq<Entry>)
    ensures multiset(entries) == multiset(counts.Items)
  {
    var rest := counts;
    entries := [];
    while rest != map[]
      invariant multiset(entries) + multiset(rest.Items) == multiset(counts.Items)
      decreases rest.Keys
    {
      var k :| k in rest;
      var e := (k, rest[k]);
      ItemsWithout(rest, k);
      entries := entries + [e];
      rest := rest - {k};
    }
  }

  /** The report's lines: ascending by count, and exactly the map's entries. */
  method SortedReport(counts: map<string, nat>) returns (lines: seq<Entry>)
    ensures SortedByCount(lines)
    ensures multiset(lines) == multiset(counts.Items)
  {
    var entries := Entries(counts);
    lines := SortByCount(entries);
    SortByCountSorts(entries);
  }

  /**
   * A sequence with the map's entries as its multiset lists every cell exactly once, with its
   * count: one line per key, no key twice, no line without a key.
   */
  lemma ListsEachEntryOnce(lines: seq<Entry>, counts: map<string, nat>)
    requires multiset(lines) == multiset(counts.Items)
    ensures forall i :: 0 <= i < |lines| ==> lines[i].0 in counts && counts[lines[i].0] == lines[i].1
    ensures forall k :: k in counts ==> exists i :: 0 <= i < |lines| && lines[i] == (k, counts[k])
    ensures forall i, j :: 0 <= i < j < |lines| ==> lines[i].0 != lines[j].0
    ensures |lines| == |counts|
  {
    forall i | 0 <= i < |lines|
      ensures lines[i].0 in counts && counts[lines[i].0] == lines[i].1
    {
      assert lines[i] in multiset(lines);
      assert lines[i] in counts.Items;
    }
    forall k | k in counts
      ensures exists i :: 0 <= i < |lines| && lines[i] == (k, counts[k])
    {
      assert (k, counts[k]) in counts.Items;
      assert (k, counts[k]) in multiset(lines);
    }
    forall i, j | 0 <= i < j < |lines|
      ensures lines[i].0 != lines[j].0
    {
      if lines[i].0 == lines[j].0 {
        RepeatedEntry(lines, i, j);
      }
    }
    assert |lines| == |multiset(lines)| == |counts.Items|;
  }

  /** An entry at two positions occurs at least twice in the multiset. */
  lemma RepeatedEntry(lines: seq<Entry>, i: nat, j: nat)
    requires i < j < |lines| && lines[i] == lines[j]
    ensures multiset(lines)[lines[j]] >= 2
  {
    var e := lines[j];
    assert lines == lines[..j] + [e] + lines[j + 1..];
    assert e in lines[..j];
  }

  /** Removing a key removes exactly its entry. */
  lemma ItemsWithout(m: map<string, nat>, k: string)
    requires k in m
    ensures m.Items == (m - {k}).Items + {(k, m[k])}
    ensures (k, m[k]) !in (m - {k}).Items
  {
    forall e | e in m.Items
      ensures e in (m - {k}).Items + {(k, m[k])}
    {
      if e.0 != k {
        assert e.0 in m - {k};
      }
    }
  }
}
