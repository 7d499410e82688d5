/**
 * IO::Stream: every part is framed in one text stream as its path and a newline, then
 * its text, then a newline when the next part starts or the sink is closed.
 */
module StreamSink {
  import opened Wrappers
  import opened Sinks

  datatype StreamSink = StreamSink(out: string, path: Option<string>)

  const Init: StreamSink := StreamSink("", None)

  /** `close`: ends the current part with a newline, if a part was ever started. */
  function CloseSink(s: StreamSink): (r: StreamSink)
    ensures s.path.None? ==> r == s
    ensures s.path.Some? ==> r.out == s.out + "\n" && r.path == s.path
  {
    if s.path.Some? then s.(out := s.out + "\n") else s
  }

  function Step(s: StreamSink, e: Event): (r: StreamSink)
    ensures e.Append? ==> r == s.(out := s.out + e.data)
    ensures e.AddFile? ==> r == StreamSink(CloseSink(s).out + e.path + "\n", Some(e.path))
    ensures e.Close? ==> r == CloseSink(s)
  {
    match e
    case AddFile(p) =>
      var c := CloseSink(s);
      StreamSink(c.out + p + "\n", Some(p))
    case Append(d) => s.(out := s.out + d)
    case Close => CloseSink(s)
  }

  /** The sink after the events of a log, from a fresh one. */
  function Run(log: Log): StreamSink
    decreases |log|
  {
    if |log| == 0 then Init else Step(Run(log[..|log| - 1]), log[|log| - 1])
  }

  /** A finished part in the stream: path, newline, text, newline. */
  function Frame(e: Entry): string
  {
    e.0 + "\n" + e.1 + "\n"
  }

  /** All parts framed one after another. */
  function Render(entries: seq<Entry>): string
    decreases |entries|
  {
    if |entries| == 0 then "" else Render(entries[..|entries| - 1]) + Frame(entries[|entries| - 1])
  }

  /** The stream while the last part is still open: its closing newline is not written yet. */
  function OpenText(entries: seq<Entry>): string
  {
    if |entries| == 0 then ""
    else
      var n := |entries| - 1;
      Render(entries[..n]) + entries[n].0 + "\n" + entries[n].1
  }

  /** The state after the log's events matches its parts, the last one still open. */
  predicate Tracks(s: StreamSink, entries: seq<Entry>)
  {
    s.out == OpenText(entries) && (s.path.Some? <==> |entries| > 0)
  }

  lemma ClosedRender(entries: seq<Entry>)
    requires |entries| > 0
    ensures Render(entries) == OpenText(entries) + "\n"
  {
    var n := |entries| - 1;
    assert Render(entries) == Render(entries[..n]) + Frame(entries[n]);
    FrameRegroups(Render(entries[..n]), entries[n].0, entries[n].1);
  }

  /** The closing newline of the last frame can be split off. */
  lemma FrameRegroups(r: string, p: string, t: string)
    ensures r + Frame((p, t)) == (r + p + "\n" + t) + "\n"
  {
  }

  /** `close` finishes the open part's frame: the stream is then every part framed. */
  lemma CloseRenders(s: StreamSink, entries: seq<Entry>)
    requires Tracks(s, entries)
    ensures CloseSink(s).out == Render(entries)
  {
    if |entries| > 0 {
      ClosedRender(entries);
    }
  }

  /** `add_file` closes the open part's frame and starts a new part with its path line. */
  lemma AddFileTracks(s: StreamSink, entries: seq<Entry>, p: string)
    requires Tracks(s, entries)
    ensures Tracks(Step(s, AddFile(p)), entries + [(p, "")])
  {
    var E2 := entries + [(p, "")];
    assert E2[..|entries|] == entries;
    if |entries| > 0 {
      ClosedRender(entries);
    }
    assert Step(s, AddFile(p)).out == Render(entries) + p + "\n";
  }

  lemma AppendTracks(s: StreamSink, entries: seq<Entry>, d: string)
    requires Tracks(s, entries) && |entries| > 0
    ensures Tracks(Step(s, Append(d)), Extend(entries, d))
  {
    var k := |entries| - 1;
    var E2 := Extend(entries, d);
    assert E2[..k] == entries[..k];
    var pre := Render(entries[..k]) + entries[k].0 + "\n";
    assert pre + entries[k].1 + d == pre + (entries[k].1 + d);
  }

  lemma {:induction false} RunOpen(log: Log)
    requires WellFormed(log) && (|log| > 0 ==> !log[|log| - 1].Close?)
    ensures Run(log).out == OpenText(Entries(log))
    ensures Run(log).path.Some? <==> |Entries(log)| > 0
    decreases |log|
  {
    if |log| > 0 {
      var n := |log| - 1;
      var init := log[..n];
      var e := log[n];
      SplitLast(log);
      WellFormedPrefix(log, n);
      if n > 0 {
        RunOpen(init);
        StartedHasEntry(init);
      }
      EntriesSnoc(init, e);
      match e
      case AddFile(p) =>
        AddFileTracks(Run(init), Entries(init), p);
      case Append(d) =>
        AppendTracks(Run(init), Entries(init), d);
      case Close =>
        assert false;
    }
  }

  /** A closed log writes every part framed as path, newline, text, newline, and nothing else. */
  lemma StreamRendersEntries(log: Log)
    requires WellFormed(log) && |log| > 0 && log[|log| - 1].Close?
    ensures Run(log).out == Render(Entries(log))
  {
    var n := |log| - 1;
    SplitLast(log);
    WellFormedPrefix(log, n);
    RunOpen(log[..n]);
    EntriesSnoc(log[..n], Close);
    if n > 0 {
      StartedHasEntry(log[..n]);
      ClosedRender(Entries(log[..n]));
    }
  }

  /** An empty part still takes two lines: its path and an empty one. */
  lemma EmptyPart(p: string, q: string)
    ensures Run([AddFile(p), AddFile(q), Close]).out == p + "\n" + "\n" + q + "\n" + "\n"
  {
    var log := [AddFile(p), AddFile(q), Close];
    var one := [AddFile(p)];
    var two := [AddFile(p), AddFile(q)];
    assert one[..0] == [];
    assert Run(one[..0]) == Init;
    assert "" + p + "\n" == p + "\n";
    var s1 := Run(one);
    assert s1 == Step(Init, AddFile(p));
    assert s1 == StreamSink(p + "\n", Some(p));
    assert two[..1] == one;
    var s2 := Run(two);
    assert s2 == StreamSink(p + "\n" + "\n" + q + "\n", Some(q));
    assert log[..2] == two;
    assert Run(log) == CloseSink(s2);
  }

  /** Every further `close` writes one more newline once a part was started, and nothing before. */
  lemma CloseAgain(s: StreamSink)
    ensures s.path.Some? ==> Step(Step(s, Close), Close).out == s.out + "\n" + "\n"
    ensures s.path.None? ==> Step(s, Close) == s
  {
  }
}
