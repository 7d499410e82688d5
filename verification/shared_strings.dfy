/**
 * The shared string table: a Hash from string to dense id in first-seen order, plus a
 * counter of every lookup. The workbook writes its keys in id order and the counter as
 * the `count` attribute of sharedStrings.xml.
 */
module SharedStrings {
  import opened Interning

  datatype Table = Table(strings: seq<string>, references: nat)

  /** SharedStringTable.new. */
  function Empty(): (t: Table)
    ensures |t.strings| == 0 && t.references == 0
    ensures Valid(t) && IsEmpty(t)
    ensures forall s :: Lookup(t, s).1 == 0 && Lookup(t, s).0.strings == [s]
  {
    Table([], 0)
  }

  /** Hash#size: the number of distinct strings. */
  function Size(t: Table): nat
  {
    |t.strings|
  }

  /** Hash#empty?. */
  predicate IsEmpty(t: Table)
  {
    |t.strings| == 0
  }

  /** The table invariant: ids are dense and distinct, and every id was handed out by a lookup. */
  predicate Valid(t: Table)
  {
    DistinctKeys(t.strings, Itself) && t.references >= |t.strings|
  }

  /** SharedStringTable#[]: counts the lookup and returns the string's id, storing it first if new. */
  function Lookup(t: Table, s: string): (r: (Table, nat))
    ensures r.0.references == t.references + 1
    ensures s in t.strings ==> r.0.strings == t.strings && r.1 < |t.strings| && t.strings[r.1] == s
    ensures s !in t.strings ==> r.0.strings == t.strings + [s] && r.1 == |t.strings|
    ensures r.1 < |r.0.strings| && r.0.strings[r.1] == s
  {
    var (strings, id) := InternBy(t.strings, Itself, s);
    assert HasKey(t.strings, Itself, s) <==> s in t.strings by {
      if s in t.strings {
        var j :| 0 <= j < |t.strings| && t.strings[j] == s;
        assert Itself(t.strings[j]) == Itself(s);
      }
    }
    (Table(strings, t.references + 1), id)
  }

  /** Every lookup keeps the table valid, and a string already present keeps its first id. */
  lemma LookupValid(t: Table, s: string)
    requires Valid(t)
    ensures Valid(Lookup(t, s).0)
    ensures s in t.strings ==> Lookup(t, s).1 == FindBy(t.strings, Itself, s)
  {
    InternKeepsDistinct(t.strings, Itself, s);
  }

  /** The table after looking up each of xs in turn. */
  function LookupAll(t: Table, xs: seq<string>): Table
    decreases |xs|
  {
    if |xs| == 0 then t else LookupAll(Lookup(t, xs[0]).0, xs[1..])
  }

  /** xs without repetitions, each string at its first occurrence. */
  function Dedup(xs: seq<string>): (r: seq<string>)
    decreases |xs|
  {
    if |xs| == 0 then []
    else
      var prefix := Dedup(xs[..|xs| - 1]);
      if xs[|xs| - 1] in prefix then prefix else prefix + [xs[|xs| - 1]]
  }

  lemma {:induction false} DedupElements(xs: seq<string>)
    ensures forall s :: s in Dedup(xs) <==> s in xs
    decreases |xs|
  {
    if |xs| > 0 {
      DedupElements(xs[..|xs| - 1]);
      assert xs == xs[..|xs| - 1] + [xs[|xs| - 1]];
    }
  }

  lemma {:induction false} LookupAllSnoc(t: Table, xs: seq<string>, s: string)
    ensures LookupAll(t, xs + [s]) == Lookup(LookupAll(t, xs), s).0
    decreases |xs|
  {
    if |xs| > 0 {
      assert (xs + [s])[1..] == xs[1..] + [s];
      LookupAllSnoc(Lookup(t, xs[0]).0, xs[1..], s);
    }
  }

  /**
   * Looking up xs in a fresh table leaves exactly the distinct strings of xs, in
   * first-seen order, and counts every lookup.
   */
  lemma {:induction false} LookupAllFromEmpty(xs: seq<string>)
    ensures LookupAll(Empty(), xs).strings == Dedup(xs)
    ensures LookupAll(Empty(), xs).references == |xs|
    ensures Valid(LookupAll(Empty(), xs))
    decreases |xs|
  {
    if |xs| > 0 {
      var init := xs[..|xs| - 1];
      var s := xs[|xs| - 1];
      LookupAllFromEmpty(init);
      assert xs == init + [s];
      LookupAllSnoc(Empty(), init, s);
      DedupElements(init);
      LookupValid(LookupAll(Empty(), init), s);
    }
  }
}
