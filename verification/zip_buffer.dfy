/**
 * The buffering in front of a ZIP streamer, shared by Xlsxtream::ZipKitWriter and
 * Xlsxtream::IO::ZipKit: appended text collects in a buffer that is handed to the current
 * entry writer once it holds 64 KiB, and when the entry is finished. The streamer itself
 * (compression, ZIP framing) is abstract: the model records the calls made on it as a log,
 * `AddFile(p)` for `write_deflated_file(p)`, `Append(chunk)` for the entry writer's `<<`
 * and `Close` for the entry writer's `close`.
 */
module ZipBuffer {
  import opened Wrappers
  import opened Sinks
  import opened Text

  const BufferSize: nat := 64 * 1024

  /** Objects a writer closes when it is closed. */
  datatype Closable = Streamer | OutputFile

  /**
   * `current` is the path of the entry writer held in `@wf` (nil before the first
   * `add_file`); it is kept after that entry is closed, as the source never clears it.
   */
  datatype ZipWriter = ZipWriter(calls: Log, buffer: string, current: Option<string>, closeList: seq<Closable>, closed: seq<Closable>)

  /** `new(streamer, close: list)`. */
  function NewWriter(closeList: seq<Closable>): (w: ZipWriter)
    ensures w.calls == [] && w.buffer == "" && w.current.None? && w.closed == []
    ensures w.closeList == closeList && Tracks(w, [])
  {
    ZipWriter([], "", None, closeList, [])
  }

  /** `flush_buffer`: the whole buffer goes to the entry writer; without one, `nil << buffer` raises. */
  function FlushBuffer(w: ZipWriter): (r: Result<ZipWriter>)
    ensures w.current.None? <==> r == Err(MissingMethod("<<"))
    ensures r.Ok? ==> r.value == w.(calls := w.calls + [Append(w.buffer)], buffer := "")
    ensures r.Ok? ==> Entries(r.value.calls) == Extend(Entries(w.calls), w.buffer) && r.value.buffer == ""
  {
    EntriesSnoc(w.calls, Append(w.buffer));
    if w.current.None? then Err(MissingMethod("<<"))
    else Ok(w.(calls := w.calls + [Append(w.buffer)], buffer := ""))
  }

  /** `<<`: appends to the buffer and flushes it exactly when it reaches the buffer size. */
  function Push(w: ZipWriter, data: string): (r: Result<ZipWriter>)
    ensures r.Ok? ==> |r.value.buffer| < BufferSize
    ensures |w.buffer + data| < BufferSize ==> r == Ok(w.(buffer := w.buffer + data))
    ensures |w.buffer + data| >= BufferSize && w.current.Some? ==>
              r == Ok(w.(calls := w.calls + [Append(w.buffer + data)], buffer := ""))
    ensures r.Err? <==> |w.buffer + data| >= BufferSize && w.current.None?
  {
    var grown := w.(buffer := w.buffer + data);
    if |grown.buffer| >= BufferSize then FlushBuffer(grown) else Ok(grown)
  }

  /** `flush_file`: with an entry writer held, hands it what is buffered, then closes it. */
  function FlushFile(w: ZipWriter): (r: ZipWriter)
    ensures w.current.None? ==> r == w
    ensures w.current.Some? && |w.buffer| > 0 ==> r == w.(calls := w.calls + [Append(w.buffer), Close], buffer := "")
    ensures w.current.Some? && |w.buffer| == 0 ==> r == w.(calls := w.calls + [Close])
    ensures w.current.Some? ==> Entries(r.calls) == Extend(Entries(w.calls), w.buffer) && r.buffer == ""
    ensures r.current == w.current && r.closeList == w.closeList && r.closed == w.closed
  {
    if w.current.None? then w
    else if |w.buffer| > 0 then
      ChunkThenClose(w.calls, w.buffer);
      w.(calls := w.calls + [Append(w.buffer)] + [Close], buffer := "")
    else
      EntriesSnoc(w.calls, Close);
      ExtendEmpty(Entries(w.calls));
      w.(calls := w.calls + [Close])
  }

  /** `add_file(p)`: finishes the current entry, then opens p. */
  function AddFileZip(w: ZipWriter, p: string): (r: ZipWriter)
    ensures r.current == Some(p) && r.calls == FlushFile(w).calls + [AddFile(p)]
    ensures r.buffer == FlushFile(w).buffer
    ensures w.current.Some? ==> Entries(r.calls) == Extend(Entries(w.calls), w.buffer) + [(p, "")] && r.buffer == ""
    ensures w.current.None? ==> Entries(r.calls) == Entries(w.calls) + [(p, "")] && r.buffer == w.buffer
  {
    var f := FlushFile(w);
    EntriesSnoc(f.calls, AddFile(p));
    f.(calls := f.calls + [AddFile(p)], current := Some(p))
  }

  /** `close`: finishes the current entry, then closes every object in the close list, in order. */
  function CloseZip(w: ZipWriter): (r: ZipWriter)
    ensures r.calls == FlushFile(w).calls && r.closed == w.closed + w.closeList
    ensures w.current.Some? ==> Entries(r.calls) == Extend(Entries(w.calls), w.buffer) && r.buffer == ""
  {
    var f := FlushFile(w);
    f.(closed := f.closed + f.closeList)
  }

  function Step(w: ZipWriter, e: Event): Result<ZipWriter>
  {
    match e
    case AddFile(p) => Ok(AddFileZip(w, p))
    case Append(d) => Push(w, d)
    case Close => Ok(CloseZip(w))
  }

  /** The writer after a sequence of sink calls, stopping at the first that raises. */
  function Run(w0: ZipWriter, log: Log): Result<ZipWriter>
    decreases |log|
  {
    if |log| == 0 then Ok(w0)
    else
      var w :- Run(w0, log[..|log| - 1]);
      Step(w, log[|log| - 1])
  }

  /** `ZipKitWriter.new(streamer)`: the default close list is empty. */
  function ZipKitWriter(): (w: ZipWriter)
    ensures w.closeList == [] && w.closed == [] && Tracks(w, [])
    ensures w == WithOutputTo(CallerStreamer)
  {
    NewWriter([])
  }

  /** `IO::ZipKit.new(body)`: the same buffering, and `close` always closes the streamer. */
  function IoZipKit(): (w: ZipWriter)
    ensures w.closeList == [Streamer] && w.closed == [] && Tracks(w, [])
    ensures w == WithOutputTo(Writable)
  {
    NewWriter([Streamer])
  }

  /** What `with_output_to` can be given, as far as the choice of close list goes. */
  datatype Output =
    | ExistingWriter(writer: ZipWriter)  // already a ZipKitWriter
    | CallerStreamer                     // a ZipKit::Streamer the caller opened and will close
    | FilePath                           // a path: a file is opened and a streamer made on it
    | Writable                           // an IO-like object responding to `<<`

  /** `with_output_to`: an existing writer comes back unchanged; otherwise a fresh writer. */
  function WithOutputTo(o: Output): (w: ZipWriter)
    ensures o.ExistingWriter? ==> w == o.writer
    ensures o.CallerStreamer? ==> w == NewWriter([])
    ensures o.FilePath? ==> w == NewWriter([Streamer, OutputFile])
    ensures o.Writable? ==> w == NewWriter([Streamer])
    ensures !o.ExistingWriter? ==> Tracks(w, []) && w.closed == []
    ensures !o.ExistingWriter? ==> (Streamer in w.closeList <==> !o.CallerStreamer?)
    ensures !o.ExistingWriter? ==> (OutputFile in w.closeList <==> o.FilePath?)
  {
    match o
    case ExistingWriter(writer) => writer
    case CallerStreamer => NewWriter([])
    case FilePath => NewWriter([Streamer, OutputFile])
    case Writable => NewWriter([Streamer])
  }

  /**
   * Between calls on a well-formed log: the entries the streamer received, with the buffer
   * still to come added to the last, are the entries the log wrote; the buffer stays below
   * the buffer size; the writer holds the last entry opened.
   */
  predicate Tracks(w: ZipWriter, entries: seq<Entry>)
  {
    && Extend(Entries(w.calls), w.buffer) == entries
    && |w.buffer| < BufferSize
    && |Entries(w.calls)| == |entries|
    && (|entries| == 0 <==> w.current.None?)
    && (|entries| == 0 ==> w.buffer == "")
    && (|entries| > 0 ==> w.current == Some(entries[|entries| - 1].0))
  }

  /** Handing over a last chunk and closing the entry writer adds the chunk to the last part. */
  lemma ChunkThenClose(calls: Log, d: string)
    ensures Entries(calls + [Append(d), Close]) == Extend(Entries(calls), d)
  {
    EntriesSnoc(calls, Append(d));
    EntriesSnoc(calls + [Append(d)], Close);
    assert calls + [Append(d), Close] == calls + [Append(d)] + [Close];
  }

  /** Finishing the entry moves the buffer into it: the streamer then holds every part in full. */
  lemma FlushFileDelivers(w: ZipWriter, entries: seq<Entry>)
    requires Tracks(w, entries)
    ensures Entries(FlushFile(w).calls) == entries && FlushFile(w).buffer == ""
  {
    var f := FlushFile(w);
    if w.current.None? {
      ExtendEmpty(Entries(w.calls));
    } else if |w.buffer| > 0 {
      ChunkThenClose(w.calls, w.buffer);
    } else {
      EntriesSnoc(w.calls, Close);
      ExtendEmpty(Entries(w.calls));
    }
  }

  lemma AddFileKeeps(w: ZipWriter, entries: seq<Entry>, p: string)
    requires Tracks(w, entries)
    ensures Tracks(AddFileZip(w, p), entries + [(p, "")])
  {
    var f := FlushFile(w);
    FlushFileDelivers(w, entries);
    EntriesSnoc(f.calls, AddFile(p));
    ExtendEmpty(entries + [(p, "")]);
  }

  lemma PushKeeps(w: ZipWriter, entries: seq<Entry>, d: string)
    requires Tracks(w, entries) && |entries| > 0
    ensures Push(w, d).Ok? && Tracks(Push(w, d).value, Extend(entries, d))
  {
    var r := Push(w, d).value;
    ExtendTwice(Entries(w.calls), w.buffer, d);
    if |w.buffer + d| >= BufferSize {
      EntriesSnoc(w.calls, Append(w.buffer + d));
      ExtendEmpty(Extend(Entries(w.calls), w.buffer + d));
    }
  }

  /** An open log (well-formed, not yet closed) runs without raising and keeps the writer in step. */
  lemma {:induction false} RunTracks(w0: ZipWriter, log: Log)
    requires w0 == NewWriter(w0.closeList)
    requires WellFormed(log) && (|log| > 0 ==> !log[|log| - 1].Close?)
    ensures Run(w0, log).Ok? && Tracks(Run(w0, log).value, Entries(log))
    ensures Run(w0, log).value.closeList == w0.closeList && Run(w0, log).value.closed == []
    decreases |log|
  {
    if |log| > 0 {
      var n := |log| - 1;
      var init := log[..n];
      var e := log[n];
      SplitLast(log);
      WellFormedPrefix(log, n);
      if n > 0 {
        RunTracks(w0, init);
        StartedHasEntry(init);
      }
      var w := Run(w0, init).value;
      EntriesSnoc(init, e);
      match e
      case AddFile(p) =>
        AddFileKeeps(w, Entries(init), p);
      case Append(d) =>
        PushKeeps(w, Entries(init), d);
      case Close =>
        assert false;
    }
  }

  /**
   * A closed log: each entry the streamer received holds exactly the text appended while it
   * was current, an entry with no appends is empty, and the close list was closed once.
   */
  lemma ZipDeliversEntries(w0: ZipWriter, log: Log)
    requires w0 == NewWriter(w0.closeList)
    requires WellFormed(log) && |log| > 0 && log[|log| - 1].Close?
    ensures Run(w0, log).Ok?
    ensures Entries(Run(w0, log).value.calls) == Entries(log)
    ensures Run(w0, log).value.buffer == ""
    ensures Run(w0, log).value.closed == w0.closeList
  {
    var n := |log| - 1;
    var init := log[..n];
    SplitLast(log);
    WellFormedPrefix(log, n);
    RunTracks(w0, init);
    EntriesSnoc(init, Close);
    FlushFileDelivers(Run(w0, init).value, Entries(init));
  }

  /** Every chunk the entry writer gets from `<<` holds at least the buffer size. */
  lemma PushChunks(w: ZipWriter, d: string)
    requires Push(w, d).Ok?
    ensures |Push(w, d).value.calls| == |w.calls| || Push(w, d).value.calls == w.calls + [Append(w.buffer + d)]
    ensures Push(w, d).value.calls != w.calls ==> |w.buffer + d| >= BufferSize
  {
  }

  /** `IO::ZipKit` closes its streamer once per `close` and nothing else, whatever the calls. */
  lemma IoZipKitClosesStreamer(log: Log)
    requires Run(IoZipKit(), log).Ok?
    ensures Run(IoZipKit(), log).value.closed == Repeat([Streamer], CloseCount(log))
  {
    CloseListClosed(IoZipKit(), log);
    assert [] + Repeat([Streamer], CloseCount(log)) == Repeat([Streamer], CloseCount(log));
  }

  /** A writer wrapping the caller's streamer closes nothing of its own. */
  lemma CallerStreamerNotClosed(log: Log)
    requires Run(WithOutputTo(CallerStreamer), log).Ok?
    ensures Run(WithOutputTo(CallerStreamer), log).value.closed == []
  {
    CloseListClosed(NewWriter([]), log);
    RepeatNothing(CloseCount(log));
  }

  /** The close list once per `close` of the log, in order. */
  function Repeat(xs: seq<Closable>, c: nat): (r: seq<Closable>)
    ensures |r| == |xs| * c
  {
    if c == 0 then [] else Repeat(xs, c - 1) + xs
  }

  lemma {:induction false} RepeatNothing(c: nat)
    ensures Repeat([], c) == []
  {
    if c > 0 {
      RepeatNothing(c - 1);
    }
  }

  /** Whatever the calls, the writer closes its close list once per `close`, and nothing else. */
  lemma {:induction false} CloseListClosed(w0: ZipWriter, log: Log)
    requires Run(w0, log).Ok?
    ensures Run(w0, log).value.closeList == w0.closeList
    ensures Run(w0, log).value.closed == w0.closed + Repeat(w0.closeList, CloseCount(log))
    decreases |log|
  {
    if |log| > 0 {
      var n := |log| - 1;
      CloseListClosed(w0, log[..n]);
      var w := Run(w0, log[..n]).value;
      assert Run(w0, log) == Step(w, log[n]);
      StepCloses(w, log[n]);
      if log[n].Close? {
        Regroup(w0.closed, Repeat(w0.closeList, CloseCount(log[..n])), w0.closeList);
      }
    }
  }

  lemma StepCloses(w: ZipWriter, e: Event)
    requires Step(w, e).Ok?
    ensures Step(w, e).value.closeList == w.closeList
    ensures Step(w, e).value.closed == w.closed + (if e.Close? then w.closeList else [])
  {
  }

  /** How many times a log closes the sink. */
  function CloseCount(log: Log): (r: nat)
    ensures r <= |log|
    decreases |log|
  {
    if |log| == 0 then 0
    else CloseCount(log[..|log| - 1]) + (if log[|log| - 1].Close? then 1 else 0)
  }

  /**
   * Closing twice closes the entry writer again, since `@wf` is never cleared, and closes
   * the close list again.
   */
  lemma CloseAgain(w: ZipWriter)
    requires w.current.Some?
    ensures CloseZip(CloseZip(w)).calls == CloseZip(w).calls + [Close]
    ensures CloseZip(CloseZip(w)).closed == w.closed + w.closeList + w.closeList
  {
  }

  /**
   * Text appended before the first `add_file` is not an error while it stays below the
   * buffer size: it waits in the buffer and is delivered to the first entry opened.
   */
  lemma LeadingTextJoinsFirstEntry(d: string, p: string)
    requires 0 < |d| < BufferSize
    ensures Run(ZipKitWriter(), [Append(d), AddFile(p), Close]).Ok?
    ensures Entries(Run(ZipKitWriter(), [Append(d), AddFile(p), Close]).value.calls) == [(p, d)]
    ensures Entries([Append(d), AddFile(p), Close]) == [(p, "")]
  {
    var log := [Append(d), AddFile(p), Close];
    var w0 := ZipKitWriter();
    assert log[..2][..1] == [Append(d)] && log[..2] == [Append(d), AddFile(p)];
    assert [Append(d)][..0] == [];
    var w1 := w0.(buffer := w0.buffer + d);
    assert Run(w0, [Append(d)]) == Push(w0, d) == Ok(w1);
    var w2 := AddFileZip(w1, p);
    assert Run(w0, log[..2]) == Ok(w2);
    assert Entries(w2.calls) == [(p, "")] by {
      assert Entries(w1.calls) == [];
    }
    var w3 := CloseZip(w2);
    assert Run(w0, log) == Ok(w3);
    assert w2.buffer == d;
    assert Extend([(p, "")], d) == [(p, "" + d)];
    assert "" + d == d;
    assert Entries([Append(d)]) == [] by {
      EntriesSnoc([], Append(d));
      assert [] + [Append(d)] == [Append(d)];
    }
    EntriesSnoc([Append(d)], AddFile(p));
    EntriesSnoc(log[..2], Close);
  }
}
