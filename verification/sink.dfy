/**
 * The output sink every part is written through: `add_file(path)`, `<<(data)` and `close`,
 * recorded as an event log. The sinks (IO::Hash, IO::Stream, IO::ZipKit, ZipKitWriter) are
 * interpretations of such a log; Entries is the meaning they all share.
 */
module Sinks {
  import opened Text

  datatype Event = AddFile(path: string) | Append(data: string) | Close

  type Log = seq<Event>

  /** A part: its path and the text appended while it was the current part. */
  type Entry = (string, string)

  /** The entries with `more` added to the text of the last one (no entry: nothing to add to). */
  function Extend(entries: seq<Entry>, more: string): (r: seq<Entry>)
    ensures |r| == |entries|
    ensures forall i | 0 <= i < |entries| - 1 :: r[i] == entries[i]
    ensures |entries| > 0 ==> r[|entries| - 1] == (entries[|entries| - 1].0, entries[|entries| - 1].1 + more)
  {
    if |entries| == 0 then entries
    else entries[..|entries| - 1] + [(entries[|entries| - 1].0, entries[|entries| - 1].1 + more)]
  }

  lemma ExtendTwice(entries: seq<Entry>, a: string, b: string)
    ensures Extend(Extend(entries, a), b) == Extend(entries, a + b)
  {
    if |entries| > 0 {
      var n := |entries| - 1;
      assert entries[n].1 + a + b == entries[n].1 + (a + b);
    }
  }

  lemma ExtendEmpty(entries: seq<Entry>)
    ensures Extend(entries, "") == entries
  {
    if |entries| > 0 {
      var n := |entries| - 1;
      assert entries[n].1 + "" == entries[n].1;
    }
  }

  /**
   * The parts a log writes, in the order they were added: every `add_file` starts one,
   * every `<<` appends to the current one. Text before the first `add_file` belongs to no part.
   */
  function Entries(log: Log): (r: seq<Entry>)
    decreases |log|
  {
    if |log| == 0 then []
    else
      var before := Entries(log[..|log| - 1]);
      match log[|log| - 1]
      case AddFile(p) => before + [(p, "")]
      case Append(d) => Extend(before, d)
      case Close => before
  }

  lemma EntriesSnoc(log: Log, e: Event)
    ensures e.AddFile? ==> Entries(log + [e]) == Entries(log) + [(e.path, "")]
    ensures e.Append? ==> Entries(log + [e]) == Extend(Entries(log), e.data)
    ensures e.Close? ==> Entries(log + [e]) == Entries(log)
  {
    assert (log + [e])[..|log|] == log;
  }

  /** The paths in order of `add_file`, one per part. */
  function Paths(log: Log): (r: seq<string>)
    ensures |r| == |Entries(log)|
    ensures forall i | 0 <= i < |r| :: r[i] == Entries(log)[i].0
    decreases |log|
  {
    if |log| == 0 then []
    else
      var before := Paths(log[..|log| - 1]);
      if log[|log| - 1].AddFile? then before + [log[|log| - 1].path] else before
  }

  lemma PathsSnoc(log: Log, e: Event)
    ensures e.AddFile? ==> Paths(log + [e]) == Paths(log) + [e.path]
    ensures !e.AddFile? ==> Paths(log + [e]) == Paths(log)
  {
    assert (log + [e])[..|log|] == log;
  }

  /** Sink logs as the workbook writes them: the first event opens a part, and `close` comes last if at all. */
  predicate WellFormed(log: Log)
  {
    (|log| > 0 ==> log[0].AddFile?) && forall i | 0 <= i < |log| - 1 :: !log[i].Close?
  }

  /** A non-empty log is its events before the last one, then the last one. */
  lemma SplitLast(log: Log)
    requires |log| > 0
    ensures log == log[..|log| - 1] + [log[|log| - 1]]
  {
  }

  lemma WellFormedPrefix(log: Log, k: nat)
    requires WellFormed(log) && k <= |log|
    ensures WellFormed(log[..k])
  {
  }

  /** Appending events never changes the parts already finished, only the last one and new ones. */
  lemma {:induction false} EntriesGrow(log: Log, more: Log)
    ensures |Entries(log)| <= |Entries(log + more)|
    ensures forall i | 0 <= i < |Entries(log)| - 1 :: Entries(log + more)[i] == Entries(log)[i]
    decreases |more|
  {
    if |more| == 0 {
      assert log + more == log;
    } else {
      var m := more[..|more| - 1];
      EntriesGrow(log, m);
      assert log + more == (log + m) + [more[|more| - 1]];
      EntriesSnoc(log + m, more[|more| - 1]);
    }
  }

  /** A log that starts by opening a part has at least one part. */
  lemma StartedHasEntry(log: Log)
    requires |log| > 0 && log[0].AddFile?
    ensures |Entries(log)| > 0
  {
    EntriesGrow(log[..1], log[1..]);
    assert log[..1] + log[1..] == log;
    EntriesSnoc([], log[0]);
    assert [] + [log[0]] == log[..1];
  }

  /** One `<<` per text, in order. */
  function Appends(texts: seq<string>): (r: Log)
    ensures |r| == |texts|
    ensures forall i | 0 <= i < |texts| :: r[i] == Append(texts[i])
  {
    seq(|texts|, i requires 0 <= i < |texts| => Append(texts[i]))
  }

  lemma AppendsConcat(a: seq<string>, b: seq<string>)
    ensures Appends(a + b) == Appends(a) + Appends(b)
  {
  }

  /** Writing texts is writing all but the last, then the last, after any log. */
  lemma AppendsSnoc(log: Log, texts: seq<string>)
    requires |texts| > 0
    ensures log + Appends(texts) == (log + Appends(texts[..|texts| - 1])) + [Append(texts[|texts| - 1])]
  {
    var k := |texts| - 1;
    assert Appends(texts) == Appends(texts[..k]) + [Append(texts[k])];
    Regroup(log, Appends(texts[..k]), [Append(texts[k])]);
  }

  /** Writing one more text appends one more `<<` to the log. */
  lemma AppendsPush(log: Log, texts: seq<string>, x: string)
    ensures log + Appends(texts + [x]) == (log + Appends(texts)) + [Append(x)]
  {
    AppendsConcat(texts, [x]);
    assert Appends([x]) == [Append(x)];
    Regroup(log, Appends(texts), [Append(x)]);
  }

  /** Writing several texts in a row adds their concatenation to the current part. */
  lemma {:induction false} EntriesAppends(log: Log, texts: seq<string>)
    ensures Entries(log + Appends(texts)) == Extend(Entries(log), Join(texts))
    decreases |texts|
  {
    if |texts| == 0 {
      assert log + Appends(texts) == log;
      ExtendEmpty(Entries(log));
    } else {
      var k := |texts| - 1;
      EntriesAppends(log, texts[..k]);
      AppendsSnoc(log, texts);
      EntriesSnoc(log + Appends(texts[..k]), Append(texts[k]));
      ExtendTwice(Entries(log), Join(texts[..k]), texts[k]);
    }
  }

  /** A log that opens a part and writes texts into it has that part last, holding their concatenation. */
  lemma OpenThenAppends(log: Log, p: string, texts: seq<string>)
    ensures Entries(log + [AddFile(p)] + Appends(texts)) == Entries(log) + [(p, Join(texts))]
  {
    EntriesSnoc(log, AddFile(p));
    EntriesAppends(log + [AddFile(p)], texts);
    assert "" + Join(texts) == Join(texts);
  }

  /** A part as the workbook writes it: `add_file(path)`, then one `<<` per text. */
  datatype Part = Part(path: string, texts: seq<string>)

  function PartLog(p: Part): (r: Log)
    ensures |r| == |p.texts| + 1 && r[0] == AddFile(p.path)
  {
    [AddFile(p.path)] + Appends(p.texts)
  }

  /** Parts written one after another. */
  function PartsLog(parts: seq<Part>): Log
    decreases |parts|
  {
    if |parts| == 0 then [] else PartsLog(parts[..|parts| - 1]) + PartLog(parts[|parts| - 1])
  }

  /** The path of every part, in order. */
  function PartPaths(parts: seq<Part>): (r: seq<string>)
    ensures |r| == |parts| && forall i | 0 <= i < |parts| :: r[i] == parts[i].path
  {
    seq(|parts|, i requires 0 <= i < |parts| => parts[i].path)
  }

  /** The paths of two runs of parts are the paths of each, one after the other. */
  lemma PartPathsConcat(a: seq<Part>, b: seq<Part>)
    ensures PartPaths(a + b) == PartPaths(a) + PartPaths(b)
  {
  }

  /** Every part as the entry it leaves: its path and the concatenation of its texts. */
  function PartEntries(parts: seq<Part>): (r: seq<Entry>)
    ensures |r| == |parts| && forall i | 0 <= i < |parts| :: r[i] == (parts[i].path, Join(parts[i].texts))
  {
    seq(|parts|, i requires 0 <= i < |parts| => (parts[i].path, Join(parts[i].texts)))
  }

  lemma {:induction false} PathsAppends(log: Log, texts: seq<string>)
    ensures Paths(log + Appends(texts)) == Paths(log)
    decreases |texts|
  {
    if |texts| == 0 {
      assert log + Appends(texts) == log;
    } else {
      var k := |texts| - 1;
      PathsAppends(log, texts[..k]);
      AppendsSnoc(log, texts);
      PathsSnoc(log + Appends(texts[..k]), Append(texts[k]));
    }
  }

  lemma PartsLogSnoc(log: Log, parts: seq<Part>)
    requires |parts| > 0
    ensures log + PartsLog(parts)
         == (log + PartsLog(parts[..|parts| - 1]) + [AddFile(parts[|parts| - 1].path)]) + Appends(parts[|parts| - 1].texts)
  {
  }

  lemma PartPathsSnoc(parts: seq<Part>)
    requires |parts| > 0
    ensures PartPaths(parts) == PartPaths(parts[..|parts| - 1]) + [parts[|parts| - 1].path]
  {
  }

  lemma PartEntriesSnoc(parts: seq<Part>)
    requires |parts| > 0
    ensures PartEntries(parts) == PartEntries(parts[..|parts| - 1]) + [(parts[|parts| - 1].path, Join(parts[|parts| - 1].texts))]
  {
  }

  /** Writing parts opens exactly their paths, in order. */
  lemma {:induction false} PartsPaths(log: Log, parts: seq<Part>)
    ensures Paths(log + PartsLog(parts)) == Paths(log) + PartPaths(parts)
    decreases |parts|
  {
    if |parts| == 0 {
      assert log + PartsLog(parts) == log;
    } else {
      var k := |parts| - 1;
      var p := parts[k];
      PartsPaths(log, parts[..k]);
      var before := log + PartsLog(parts[..k]);
      PartsLogSnoc(log, parts);
      PathsSnoc(before, AddFile(p.path));
      PathsAppends(before + [AddFile(p.path)], p.texts);
      PartPathsSnoc(parts);
      Regroup(Paths(log), PartPaths(parts[..k]), [p.path]);
    }
  }

  /** Writing parts leaves each one holding the concatenation of its texts. */
  lemma {:induction false} PartsEntries(log: Log, parts: seq<Part>)
    ensures Entries(log + PartsLog(parts)) == Entries(log) + PartEntries(parts)
    decreases |parts|
  {
    if |parts| == 0 {
      assert log + PartsLog(parts) == log;
    } else {
      var k := |parts| - 1;
      var p := parts[k];
      PartsEntries(log, parts[..k]);
      var before := log + PartsLog(parts[..k]);
      PartsLogSnoc(log, parts);
      OpenThenAppends(before, p.path, p.texts);
      PartEntriesSnoc(parts);
      Regroup(Entries(log), PartEntries(parts[..k]), [(p.path, Join(p.texts))]);
    }
  }

  lemma PartsLogSnocPart(parts: seq<Part>, p: Part)
    ensures PartsLog(parts + [p]) == PartsLog(parts) + PartLog(p)
  {
    assert (parts + [p])[..|parts|] == parts;
  }

  /** Writing a part and then more parts is writing them all. */
  lemma {:induction false} PartsLogFront(p: Part, more: seq<Part>)
    ensures PartLog(p) + PartsLog(more) == PartsLog([p] + more)
    decreases |more|
  {
    if |more| == 0 {
      assert [p] + more == [] + [p];
      PartsLogSnocPart([], p);
    } else {
      var k := |more| - 1;
      var init := more[..k];
      var last := more[k];
      assert more == init + [last];
      assert [p] + more == ([p] + init) + [last];
      calc {
        PartLog(p) + PartsLog(more);
        { PartsLogSnocPart(init, last); }
        PartLog(p) + (PartsLog(init) + PartLog(last));
        (PartLog(p) + PartsLog(init)) + PartLog(last);
        { PartsLogFront(p, init); }
        PartsLog([p] + init) + PartLog(last);
        { PartsLogSnocPart([p] + init, last); }
        PartsLog([p] + more);
      }
    }
  }
}
