/** Reading page by page what a writer, crashing and restarting, has written and goes on writing. */
module LogRoundTrip {
  import opened Wrappers
  import opened LogModel
  import opened LogSpec
  import R = LogReader
  import P = LogPaging
  import W = LogWriter

  // ----- The writer only lets the log grow

  lemma {:induction false} GrowsTransitive(a: Directory, b: Directory, c: Directory, file: string)
    requires P.Grows(a, b, file) && P.Grows(b, c, file)
    ensures P.Grows(a, c, file)
  {
    forall n | n in Smaller(Listed(a), file) ensures a[n] == c[n] { assert n in Smaller(Listed(b), file); }
  }

  lemma {:induction false} GrowsSame(dir: Directory, file: string)
    requires file in Listed(dir)
    ensures P.Grows(dir, dir, file)
  {
  }

  /** A write to the newest hour, or to a later one. */
  lemma {:induction false} WrittenGrows(dir: Directory, newest: string, name: string, bytes: seq<byte>, file: string)
    requires W.IsNewest(dir, newest) && W.NotBefore(name, newest) && file in Listed(dir)
    ensures P.Grows(dir, W.Written(dir, name, bytes), file) && W.IsNewest(W.Written(dir, name, bytes), name)
  {
    var after := W.Written(dir, name, bytes);
    W.LaterHour(dir, newest, name);
    W.WriteNewest(Query(line => None, r => false), dir, name, bytes);
    assert !Less(name, file) by {
      LessIrreflexive(name);
      if Less(name, file) && file != name { LessTransitive(name, file, name); }
    }
    forall n ensures n in Smaller(Listed(dir), file) <==> n in Smaller(Listed(after), file) { }
  }

  lemma {:induction false} EventGrows(codec: W.Codec, st: W.State, e: W.Event, file: string)
    requires W.IsNewest(st.dir, st.newest) && W.Enabled(codec, st, e) && file in Listed(st.dir)
    ensures P.Grows(st.dir, W.Apply(codec, st, e).dir, file)
  {
    match e
    case Append(at, r) => WrittenGrows(st.dir, st.newest, at, codec.Line(r), file);
    case Crash(at, r, kept) => WrittenGrows(st.dir, st.newest, at, codec.Line(r)[..kept], file);
    case Open(now, built) =>
      var separator := W.Separator(st.dir, now);
      W.LaterHour(st.dir, st.newest, now);
      if separator == [] {
        WrittenGrows(st.dir, now, built, [], file);
      } else {
        var separated := W.Written(st.dir, now, separator);
        WrittenGrows(st.dir, st.newest, now, separator, file);
        WrittenGrows(separated, now, built, [], file);
        GrowsTransitive(st.dir, separated, W.Written(separated, built, []), file);
      }
  }

  lemma {:induction false} PrefixRuns(codec: W.Codec, events: seq<W.Event>, n: nat)
    requires W.IsRun(codec, events) && n <= |events|
    ensures W.IsRun(codec, events[..n])
    decreases |events|
  {
    if n == |events| {
      assert events[..n] == events;
    } else {
      assert events[..n] == events[..|events| - 1][..n];
      PrefixRuns(codec, events[..|events| - 1], n);
    }
  }

  /** From any moment of a run to a later one, the log only grows. */
  lemma {:induction false} RunGrows(codec: W.Codec, q: Query, events: seq<W.Event>, n: nat, m: nat, file: string)
    requires codec.Lawful() && q.decode == codec.decode && W.IsRun(codec, events)
    requires n <= m <= |events| && file in Listed(W.Run(codec, events[..n]).dir)
    ensures P.Grows(W.Run(codec, events[..n]).dir, W.Run(codec, events[..m]).dir, file)
    decreases m - n
  {
    if n == m {
      GrowsSame(W.Run(codec, events[..n]).dir, file);
    } else {
      RunGrows(codec, q, events, n, m - 1, file);
      PrefixRuns(codec, events, m - 1);
      PrefixRuns(codec, events, m);
      W.RunKeeps(codec, q, events[..m - 1]);
      assert events[..m][..m - 1] == events[..m - 1];
      EventGrows(codec, W.Run(codec, events[..m - 1]), events[m - 1], file);
      GrowsTransitive(W.Run(codec, events[..n]).dir, W.Run(codec, events[..m - 1]).dir,
                      W.Run(codec, events[..m]).dir, file);
    }
  }

  // ----- Paging while the writer goes on

  /** A client's reads, each at some moment of the writer's run, no earlier than the read before. */
  ghost predicate Reads(codec: W.Codec, q: Query, events: seq<W.Event>, cursor: Option<Cursor>,
                        visits: seq<P.Visit>, times: seq<nat>)
    decreases |visits|
  {
    && visits != [] && |times| == |visits| && times[0] <= |events|
    && var v := visits[0];
       && v.dir == W.Run(codec, events[..times[0]]).dir
       && Usable(v.dir, cursor) && R.PageOf(q, v.dir, cursor, v.limit, v.scanBytes, v.page)
       && (|visits| > 1 ==>
             && v.page.nextCursor.Some? && times[0] <= times[1]
             && Reads(codec, q, events, v.page.nextCursor, visits[1..], times[1..]))
  }

  /** A page's cursor stays usable, so the reads are a run of pages over a growing log. */
  lemma {:induction false} ReadsAreRun(codec: W.Codec, q: Query, events: seq<W.Event>, cursor: Option<Cursor>,
                                       visits: seq<P.Visit>, times: seq<nat>)
    requires codec.Lawful() && q.decode == codec.decode && W.IsRun(codec, events)
    requires Reads(codec, q, events, cursor, visits, times)
    ensures P.IsRun(q, cursor, visits)
    decreases |visits|
  {
    if |visits| > 1 {
      var v := visits[0];
      P.PageLeadsOn(q, v.dir, cursor, v.limit, v.scanBytes, v.page);
      RunGrows(codec, q, events, times[0], times[1], v.page.nextCursor.value.file);
      ReadsAreRun(codec, q, events, v.page.nextCursor, visits[1..], times[1..]);
    }
  }

  /**
   * However the writer opens, appends, crashes and restarts, before and between the pages, and
   * whatever the limits: a client that pages to the end gets, newest first, exactly the records of
   * the log that match at its first read. These are all that were acknowledged by then, in the
   * order of the appends, and besides only records whose bytes were complete when a crash hit.
   */
  lemma {:induction false} PagingReturnsTheLog(codec: W.Codec, q: Query, events: seq<W.Event>,
                                               visits: seq<P.Visit>, times: seq<nat>)
    requires codec.Lawful() && q.decode == codec.decode && W.IsRun(codec, events)
    requires Reads(codec, q, events, None, visits, times) && P.Last(visits).page.nextCursor.None?
    ensures
      var first := events[..times[0]];
      var visible := W.Run(codec, first).visible;
      && P.AllItems(visits) == W.Shown(q, visible)
      && W.AcknowledgedOf(visible) == W.Acknowledged(first)
      && W.Extras(visible) <= W.Completed(codec, first)
  {
    ReadsAreRun(codec, q, events, None, visits, times);
    P.FinishedRunIsComplete(q, None, visits);
    PrefixRuns(codec, events, times[0]);
    W.CrashSafe(codec, q, events[..times[0]]);
  }

  // ----- Without crashes

  lemma {:induction false} NothingCompleted(codec: W.Codec, events: seq<W.Event>)
    requires forall e :: e in events ==> !e.Crash?
    ensures W.Completed(codec, events) == multiset{}
    decreases |events|
  {
    if events != [] { NothingCompleted(codec, events[..|events| - 1]); }
  }

  /** Without extras, and with a query that shows everything, what is shown is what was acknowledged. */
  lemma {:induction false} ShownIsAcknowledged(q: Query, visible: seq<W.Stored>)
    requires W.Extras(visible) == multiset{} && forall r :: q.shows(r)
    ensures W.Shown(q, visible) == Reverse(W.AcknowledgedOf(visible))
    decreases |visible|
  {
    if visible != [] {
      var last, before := visible[|visible| - 1], visible[..|visible| - 1];
      ShownIsAcknowledged(q, before);
      ReverseAppend(W.AcknowledgedOf(before), [last.record]);
      assert Reverse([last.record]) == [last.record];
    }
  }

  /** If nothing crashed, the pages are the acknowledged records in reverse. */
  lemma {:induction false} PagingReversesAppends(codec: W.Codec, q: Query, events: seq<W.Event>,
                                                 visits: seq<P.Visit>, times: seq<nat>)
    requires codec.Lawful() && q.decode == codec.decode && W.IsRun(codec, events) && forall r :: q.shows(r)
    requires Reads(codec, q, events, None, visits, times) && P.Last(visits).page.nextCursor.None?
    requires forall e :: e in events ==> !e.Crash?
    ensures P.AllItems(visits) == Reverse(W.Acknowledged(events[..times[0]]))
  {
    PagingReturnsTheLog(codec, q, events, visits, times);
    NothingCompleted(codec, events[..times[0]]);
    ShownIsAcknowledged(q, W.Run(codec, events[..times[0]]).visible);
  }
}
