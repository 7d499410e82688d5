/**
 * IO::Hash: every part is written into one text stream, and a Hash from path to the
 * stream offsets where the part started and ended lets `fetch` cut it out again.
 * The stream is only ever appended to, so its current offset is its length.
 */
module HashSink {
  import opened Wrappers
  import opened Sinks

  /**
   * `offsets[p]` is the Array stored under p: its start offset, then one end offset per
   * `close` that found p current. `keys` is the Hash's key order (first insertion).
   */
  datatype HashSink = HashSink(stream: string, keys: seq<string>, offsets: map<string, seq<nat>>, path: Option<string>)

  const Init: HashSink := HashSink("", [], map[], None)

  /** The offsets under one key point into the stream, and the first end is not before the start. */
  predicate Span(o: seq<nat>, len: nat)
  {
    |o| >= 1 && (forall i | 0 <= i < |o| :: o[i] <= len) && (|o| >= 2 ==> o[0] <= o[1])
  }

  predicate DistinctStrings(ks: seq<string>)
  {
    forall i, j | 0 <= i < j < |ks| :: ks[i] != ks[j]
  }

  /** The states the sink can reach: the key order lists the Hash's keys once each. */
  predicate Valid(s: HashSink)
  {
    && DistinctStrings(s.keys)
    && (forall i | 0 <= i < |s.keys| :: s.keys[i] in s.offsets)
    && (forall k | k in s.offsets :: k in s.keys && Span(s.offsets[k], |s.stream|))
    && (s.path.Some? ==> s.path.value in s.offsets)
  }

  /** `close`: records the current offset as the end of the current part, if there is one. */
  function CloseHash(s: HashSink): (r: HashSink)
    requires Valid(s)
    ensures Valid(r)
    ensures r.stream == s.stream && r.keys == s.keys && r.path == s.path
    ensures s.path.None? ==> r == s
    ensures s.path.Some? ==> r.offsets == s.offsets[s.path.value := s.offsets[s.path.value] + [|s.stream|]]
  {
    if s.path.Some? then
      var p := s.path.value;
      s.(offsets := s.offsets[p := s.offsets[p] + [|s.stream|]])
    else s
  }

  /** `add_file(p)`: closes the current part, then starts p at the current offset. */
  function AddFileHash(s: HashSink, p: string): (r: HashSink)
    requires Valid(s)
    ensures Valid(r)
    ensures r.stream == s.stream && r.path == Some(p)
    ensures r.offsets[p] == [|s.stream|]
    ensures p in s.offsets ==> r.keys == s.keys
    ensures p !in s.offsets ==> r.keys == s.keys + [p]
    ensures forall k | k in s.offsets && k != p :: k in r.offsets && r.offsets[k] == CloseHash(s).offsets[k]
  {
    var c := CloseHash(s);
    StartedValid(c, p);
    Started(c, p)
  }

  /** The part p begins at the current offset; a new path joins the end of the key order. */
  function Started(c: HashSink, p: string): HashSink
  {
    HashSink(c.stream, if p in c.offsets then c.keys else c.keys + [p], c.offsets[p := [|c.stream|]], Some(p))
  }

  lemma StartedValid(c: HashSink, p: string)
    requires Valid(c)
    ensures Valid(Started(c, p))
  {
    var r := Started(c, p);
    assert DistinctStrings(r.keys) by {
      if p !in c.offsets {
        assert p !in c.keys;
        forall i, j | 0 <= i < j < |r.keys|
          ensures r.keys[i] != r.keys[j]
        {
          if j == |c.keys| {
            assert r.keys[i] == c.keys[i];
          }
        }
      }
    }
    assert forall i | 0 <= i < |r.keys| :: r.keys[i] in r.offsets by {
      forall i | 0 <= i < |r.keys|
        ensures r.keys[i] in r.offsets
      {
        if i < |c.keys| {
          assert r.keys[i] == c.keys[i];
        }
      }
    }
    assert forall k | k in r.offsets :: k in r.keys && Span(r.offsets[k], |r.stream|) by {
      forall k | k in r.offsets
        ensures k in r.keys && Span(r.offsets[k], |r.stream|)
      {
        if k != p {
          assert k in c.keys && Span(c.offsets[k], |c.stream|);
        }
      }
    }
  }

  /** `<<`: the data goes to the end of the stream. */
  function AppendHash(s: HashSink, d: string): (r: HashSink)
    requires Valid(s)
    ensures Valid(r)
    ensures r.stream == s.stream + d && r.keys == s.keys && r.offsets == s.offsets && r.path == s.path
  {
    s.(stream := s.stream + d)
  }

  function Step(s: HashSink, e: Event): (r: HashSink)
    requires Valid(s)
    ensures Valid(r)
  {
    match e
    case AddFile(p) => AddFileHash(s, p)
    case Append(d) => AppendHash(s, d)
    case Close => CloseHash(s)
  }

  /** The sink after the events of a log, from a fresh one. */
  function Run(log: Log): (s: HashSink)
    ensures Valid(s)
    decreases |log|
  {
    if |log| == 0 then Init else Step(Run(log[..|log| - 1]), log[|log| - 1])
  }

  /**
   * `fetch(p)`: the text between p's start and first end offset. A path never added raises
   * KeyError; a part that was never closed has no end offset, and `to - from` on nil raises.
   */
  function Fetch(s: HashSink, p: string): (r: Result<string>)
    requires Valid(s)
    ensures p !in s.offsets <==> r == Err(KeyNotFound(p))
    ensures p in s.offsets && |s.offsets[p]| < 2 <==> r == Err(MissingMethod("-"))
    ensures r.Ok? ==> |r.value| == s.offsets[p][1] - s.offsets[p][0]
  {
    if p !in s.offsets then Err(KeyNotFound(p))
    else
      var o := s.offsets[p];
      if |o| < 2 then Err(MissingMethod("-"))
      else Ok(s.stream[o[0]..o[1]])
  }

  /** `[]`: like `fetch`, but a path never added gives nil; other failures still raise. */
  function Lookup(s: HashSink, p: string): (r: Result<Option<string>>)
    requires Valid(s)
    ensures p !in s.offsets ==> r == Ok(None)
    ensures p in s.offsets ==> (r.Ok? <==> Fetch(s, p).Ok?)
    ensures r.Ok? && r.value.Some? ==> Fetch(s, p) == Ok(r.value.value)
  {
    match Fetch(s, p)
    case Ok(v) => Ok(Some(v))
    case Err(e) => if e.KeyNotFound? then Ok(None) else Err(e)
  }

  function FetchAll(s: HashSink, ks: seq<string>): (r: Result<seq<Entry>>)
    requires Valid(s)
    ensures r.Ok? ==> |r.value| == |ks| && forall i | 0 <= i < |ks| :: r.value[i].0 == ks[i] && Fetch(s, ks[i]) == Ok(r.value[i].1)
    ensures (forall i | 0 <= i < |ks| :: Fetch(s, ks[i]).Ok?) ==> r.Ok?
  {
    if |ks| == 0 then Ok([])
    else
      var v :- Fetch(s, ks[0]);
      var rest :- FetchAll(s, ks[1..]);
      assert forall i | 1 <= i < |ks| :: ks[i] == ks[1..][i - 1];
      Ok([(ks[0], v)] + rest)
  }

  /** `to_h`: every path, in the order it was first added, with its fetched text. */
  function ToH(s: HashSink): (r: Result<seq<Entry>>)
    requires Valid(s)
  {
    FetchAll(s, s.keys)
  }

  /**
   * The paths of a list of parts in the order they first appear, each once: the key
   * order of a Ruby Hash after one `[]=` per part.
   */
  function Keys(entries: seq<Entry>): (r: seq<string>)
    decreases |entries|
  {
    if |entries| == 0 then []
    else
      var before := Keys(entries[..|entries| - 1]);
      var k := entries[|entries| - 1].0;
      if k in before then before else before + [k]
  }

  /** The text of the last part written under path k ('' when there is none). */
  function LastText(entries: seq<Entry>, k: string): string
    decreases |entries|
  {
    if |entries| == 0 then ""
    else if entries[|entries| - 1].0 == k then entries[|entries| - 1].1
    else LastText(entries[..|entries| - 1], k)
  }

  /**
   * What a Hash keyed by path holds after storing each part in turn: one entry per path,
   * at the place the path was first stored, with the text of the part stored last.
   */
  function Collapse(entries: seq<Entry>): (r: seq<Entry>)
  {
    var ks := Keys(entries);
    seq(|ks|, i requires 0 <= i < |ks| => (ks[i], LastText(entries, ks[i])))
  }

  /** A log whose `add_file` calls name pairwise different paths. */
  predicate DistinctPaths(log: Log)
  {
    DistinctStrings(Paths(log))
  }

  /** With pairwise different paths nothing is overwritten: the Hash holds every part as written. */
  lemma {:induction false} CollapseDistinct(entries: seq<Entry>)
    requires forall i, j | 0 <= i < j < |entries| :: entries[i].0 != entries[j].0
    ensures Collapse(entries) == entries
    decreases |entries|
  {
    KeysDistinct(entries);
  }

  lemma {:induction false} KeysDistinct(entries: seq<Entry>)
    requires forall i, j | 0 <= i < j < |entries| :: entries[i].0 != entries[j].0
    ensures |Keys(entries)| == |entries|
    ensures forall i | 0 <= i < |entries| :: Keys(entries)[i] == entries[i].0 && LastText(entries, entries[i].0) == entries[i].1
    decreases |entries|
  {
    if |entries| > 0 {
      var n := |entries| - 1;
      var init := entries[..n];
      KeysDistinct(init);
      assert entries[n].0 !in Keys(init) by {
        forall i | 0 <= i < n
          ensures Keys(init)[i] != entries[n].0
        {
          assert Keys(init)[i] == entries[i].0;
        }
      }
      forall i | 0 <= i < |entries|
        ensures Keys(entries)[i] == entries[i].0 && LastText(entries, entries[i].0) == entries[i].1
      {
        if i < n {
          assert init[i] == entries[i];
          assert entries[i].0 != entries[n].0;
        }
      }
    }
  }

  /**
   * The sink's state matches the parts of the log, the last one still open: the key order
   * is the order paths were first added, and every other path has a start and an end
   * cutting out the text of the part last written under it.
   */
  predicate Tracks(s: HashSink, entries: seq<Entry>)
  {
    && s.keys == Keys(entries)
    && (|entries| == 0 ==> s.path.None?)
    && (|entries| > 0 ==> Open(s, entries[|entries| - 1]))
    && (forall k | k in s.offsets && (|entries| == 0 || k != entries[|entries| - 1].0) :: Finished(s, (k, LastText(entries, k))))
  }

  predicate Finished(s: HashSink, e: Entry)
  {
    e.0 in s.offsets && |s.offsets[e.0]| == 2 && s.offsets[e.0][0] <= s.offsets[e.0][1] <= |s.stream|
    && s.stream[s.offsets[e.0][0]..s.offsets[e.0][1]] == e.1
  }

  predicate Open(s: HashSink, e: Entry)
  {
    s.path == Some(e.0) && e.0 in s.offsets && |s.offsets[e.0]| == 1 && s.offsets[e.0][0] <= |s.stream|
    && s.stream[s.offsets[e.0][0]..] == e.1
  }

  /** Closing finishes the open part, so every path then cuts out its last part. */
  lemma CloseFinishes(s: HashSink, entries: seq<Entry>)
    requires Valid(s) && Tracks(s, entries) && |entries| > 0
    ensures forall k | k in CloseHash(s).offsets :: Finished(CloseHash(s), (k, LastText(entries, k)))
  {
    var n := |entries| - 1;
    var cur := entries[n].0;
    assert LastText(entries, cur) == entries[n].1;
    forall k | k in CloseHash(s).offsets
      ensures Finished(CloseHash(s), (k, LastText(entries, k)))
    {
      if k == cur {
        CloseFinishesOpen(s, entries[n]);
      } else {
        CloseKeepsFinished(s, (k, LastText(entries, k)));
      }
    }
  }

  lemma CloseFinishesOpen(s: HashSink, e: Entry)
    requires Valid(s) && Open(s, e)
    ensures Finished(CloseHash(s), e)
  {
    var a := s.offsets[e.0][0];
    assert CloseHash(s).offsets[e.0] == [a, |s.stream|];
    assert s.stream[a..|s.stream|] == s.stream[a..];
  }

  lemma CloseKeepsFinished(s: HashSink, e: Entry)
    requires Valid(s) && Finished(s, e) && s.path != Some(e.0)
    ensures Finished(CloseHash(s), e)
  {
  }

  lemma AddFileTracks(s: HashSink, entries: seq<Entry>, p: string)
    requires Valid(s) && Tracks(s, entries)
    ensures Tracks(AddFileHash(s, p), entries + [(p, "")])
  {
    var c := CloseHash(s);
    var r := AddFileHash(s, p);
    var E2 := entries + [(p, "")];
    assert E2[..|entries|] == entries;
    assert p in c.offsets <==> p in s.keys;
    assert r.keys == Keys(E2);
    if |entries| > 0 {
      CloseFinishes(s, entries);
    }
    forall k | k in r.offsets && k != p
      ensures Finished(r, (k, LastText(E2, k)))
    {
      assert LastText(E2, k) == LastText(entries, k);
      assert Finished(c, (k, LastText(entries, k)));
    }
    assert r.stream[|s.stream|..] == "";
  }

  lemma AppendTracks(s: HashSink, entries: seq<Entry>, d: string)
    requires Valid(s) && Tracks(s, entries) && |entries| > 0
    ensures Tracks(AppendHash(s, d), Extend(entries, d))
  {
    var r := AppendHash(s, d);
    var E2 := Extend(entries, d);
    var n := |entries| - 1;
    assert E2[..n] == entries[..n];
    assert Keys(E2) == Keys(entries);
    forall k | k in r.offsets && k != entries[n].0
      ensures Finished(r, (k, LastText(E2, k)))
    {
      assert LastText(E2, k) == LastText(entries[..n], k) == LastText(entries, k);
      assert Finished(s, (k, LastText(entries, k)));
      var o := s.offsets[k];
      assert r.stream[o[0]..o[1]] == s.stream[o[0]..o[1]];
    }
    var a := s.offsets[entries[n].0][0];
    assert r.stream[a..] == s.stream[a..] + d;
  }

  /** Any well-formed log not yet closed, re-added paths included: the sink tracks its parts. */
  lemma {:induction false} RunTracks(log: Log)
    requires WellFormed(log) && (|log| > 0 ==> !log[|log| - 1].Close?)
    ensures Tracks(Run(log), Entries(log))
    decreases |log|
  {
    if |log| > 0 {
      var n := |log| - 1;
      var init := log[..n];
      var e := log[n];
      SplitLast(log);
      WellFormedPrefix(log, n);
      if n > 0 {
        RunTracks(init);
        StartedHasEntry(init);
      }
      EntriesSnoc(init, e);
      match e
      case AddFile(p) =>
        AddFileTracks(Run(init), Entries(init), p);
      case Append(d) =>
        AppendTracks(Run(init), Entries(init), d);
      case Close =>
        assert false;
    }
  }

  /**
   * A closed log: `to_h` gives one entry per path, in the order it was first added, with
   * the text appended while its last part was current ('' when nothing was). A path added
   * again keeps its place and only its last part survives; with pairwise different paths
   * that is every part as written.
   */
  lemma HashRecordsEntries(log: Log)
    requires WellFormed(log) && |log| > 0 && log[|log| - 1].Close?
    ensures ToH(Run(log)) == Ok(Collapse(Entries(log)))
    ensures DistinctPaths(log) ==> ToH(Run(log)) == Ok(Entries(log))
  {
    var n := |log| - 1;
    var init := log[..n];
    SplitLast(log);
    WellFormedPrefix(log, n);
    EntriesSnoc(init, Close);
    RunTracks(init);
    StartedHasEntry(init);
    assert Run(log) == CloseHash(Run(init));
    ClosedFetches(Run(init), Entries(init));
    if DistinctPaths(log) {
      CollapseDistinct(Entries(log));
    }
  }

  /** Once the open part is closed, `to_h` gives the Hash the tracked parts collapse to. */
  lemma ClosedFetches(s: HashSink, entries: seq<Entry>)
    requires Valid(s) && Tracks(s, entries) && |entries| > 0
    ensures ToH(CloseHash(s)) == Ok(Collapse(entries))
  {
    var c := CloseHash(s);
    var C := Collapse(entries);
    CloseFinishes(s, entries);
    forall i | 0 <= i < |c.keys|
      ensures c.keys[i] == C[i].0 && Fetch(c, c.keys[i]) == Ok(C[i].1)
    {
      assert c.keys[i] in c.offsets;
      FinishedFetch(c, (c.keys[i], LastText(entries, c.keys[i])));
    }
    FetchAllMatches(c, c.keys, C);
  }

  lemma FinishedFetch(s: HashSink, e: Entry)
    requires Valid(s) && Finished(s, e)
    ensures Fetch(s, e.0) == Ok(e.1)
  {
  }

  lemma {:induction false} FetchAllMatches(s: HashSink, ks: seq<string>, entries: seq<Entry>)
    requires Valid(s) && |ks| == |entries|
    requires forall i | 0 <= i < |ks| :: ks[i] == entries[i].0 && Fetch(s, ks[i]) == Ok(entries[i].1)
    ensures FetchAll(s, ks) == Ok(entries)
    decreases |ks|
  {
    if |ks| > 0 {
      FetchAllMatches(s, ks[1..], entries[1..]);
      assert entries == [(ks[0], entries[0].1)] + entries[1..];
    }
  }

  /** `fetch` of a never-added path raises, and `[]` turns just that failure into nil. */
  lemma MissingPath(s: HashSink, p: string)
    requires Valid(s) && p !in s.keys
    ensures Fetch(s, p) == Err(KeyNotFound(p))
    ensures Lookup(s, p) == Ok(None)
  {
  }

  /** Adding a path a second time starts it over but keeps its place in `to_h`. */
  lemma ReAddKeepsOrder(s: HashSink, p: string)
    requires Valid(s) && p in s.keys
    ensures AddFileHash(s, p).keys == s.keys
    ensures AddFileHash(s, p).offsets[p] == [|s.stream|]
  {
  }

  /** Writing a, b, then a again: `to_h` keeps a first, with the text of its second part. */
  lemma ReAddExample(a: string, b: string, x: string, y: string, z: string)
    requires a != b
    ensures ToH(Run(ReAddLog(a, b, x, y, z))) == Ok([(a, z), (b, y)])
  {
    HashRecordsEntries(ReAddLog(a, b, x, y, z));
    ReAddLogEntries(a, b, x, y, z);
    ReAddCollapse(a, b, x, y, z);
  }

  function ReAddLog(a: string, b: string, x: string, y: string, z: string): Log
  {
    [AddFile(a), Append(x), AddFile(b), Append(y), AddFile(a), Append(z), Close]
  }

  lemma ReAddLogEntries(a: string, b: string, x: string, y: string, z: string)
    ensures Entries(ReAddLog(a, b, x, y, z)) == [(a, x), (b, y), (a, z)]
  {
    var l2 := [AddFile(a)] + [Append(x)];
    var l4 := l2 + [AddFile(b)] + [Append(y)];
    var l6 := l4 + [AddFile(a)] + [Append(z)];
    assert ReAddLog(a, b, x, y, z) == l6 + [Close];
    EntriesSnoc(l6, Close);
    AddThenAppend([], a, x);
    assert [] + [AddFile(a)] + [Append(x)] == l2;
    AddThenAppend(l2, b, y);
    AddThenAppend(l4, a, z);
  }

  /** A part opened and written once holds exactly that text. */
  lemma AddThenAppend(log: Log, p: string, x: string)
    ensures Entries(log + [AddFile(p)] + [Append(x)]) == Entries(log) + [(p, x)]
  {
    EntriesSnoc(log, AddFile(p));
    EntriesSnoc(log + [AddFile(p)], Append(x));
    assert "" + x == x;
  }

  lemma ReAddCollapse(a: string, b: string, x: string, y: string, z: string)
    requires a != b
    ensures Collapse([(a, x), (b, y), (a, z)]) == [(a, z), (b, y)]
  {
    var E: seq<Entry> := [(a, x), (b, y), (a, z)];
    assert E[..1] == [(a, x)] && E[..2][..1] == E[..1] && E[..2] == [(a, x), (b, y)];
    assert Keys(E[..1]) == [a] && Keys(E[..2]) == [a, b];
    assert Keys(E) == [a, b];
    assert LastText(E, a) == z;
    assert LastText(E, b) == LastText(E[..2], b) == y;
  }

}
