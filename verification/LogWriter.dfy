/** The append-only writer of the operation log, its restarts and its crashes. */
module LogWriter {
  import opened Wrappers
  import opened LogModel
  import opened LogSpec

  datatype Codec = Codec(encode: Record -> seq<byte>, decode: seq<byte> -> Option<Record>) {
    /** JSON text of one record: one line, read back as it was, and unreadable when cut short. */
    ghost predicate Lawful() {
      && (forall r :: encode(r) != [] && NoNewline(encode(r), 0, |encode(r)|) && decode(encode(r)) == Some(r))
      && (forall r, n :: 0 <= n < |encode(r)| ==> decode(encode(r)[..n]) == None)
    }

    function Line(r: Record): seq<byte> { encode(r) + [NEWLINE] }

    predicate Fits(r: Record) { |encode(r)| + 1 <= MAX_RECORD_BYTES }
  }

  datatype Error = InvalidOptions | RecordTooLarge | WriteFailed

  function Content(dir: Directory, name: string): seq<byte> {
    if name in dir then dir[name].content else []
  }

  /** Appending to a file creates it if it is missing. */
  function Written(dir: Directory, name: string, bytes: seq<byte>): Directory {
    dir[name := Entry(true, Content(dir, name) + bytes)]
  }

  /** What `Open` writes to the file of the current hour to end a torn record. */
  function Separator(dir: Directory, name: string): seq<byte> {
    if AtLineStart(Content(dir, name)) then [] else [NEWLINE]
  }

  /** `now` is the hour in which `open` looks, `built` the hour in which the appender is created. */
  function Opened(dir: Directory, now: string, built: string): Directory {
    var separated := if Separator(dir, now) == [] then dir else Written(dir, now, Separator(dir, now));
    Written(separated, built, [])
  }

  class Writer {
    const codec: Codec
    var dir: Directory

    constructor (codec: Codec, dir: Directory)
      ensures this.codec == codec && this.dir == dir
    {
      this.codec, this.dir := codec, dir;
    }

    method Open(now: string, built: string, retainedFiles: nat) returns (r: Result<(), Error>)
      modifies this
      ensures r == if retainedFiles == 0 then Err(InvalidOptions) else Ok(())
      ensures dir == if r.Ok? then Opened(old(dir), now, built) else old(dir)
    {
      if retainedFiles == 0 {
        return Err(InvalidOptions);
      }
      if now in dir && |dir[now].content| > 0 {
        var content := dir[now].content;
        if content[|content| - 1] != NEWLINE {
          dir := dir[now := Entry(true, content + [NEWLINE])];
        }
      }
      assert dir == if Separator(old(dir), now) == [] then old(dir) else Written(old(dir), now, Separator(old(dir), now));
      assert Content(dir, built) + [] == Content(dir, built);
      if built in dir {
        dir := dir[built := Entry(true, dir[built].content)];
      } else {
        dir := dir[built := Entry(true, [])];
      }
      return Ok(());
    }

    /** `written` is the number of bytes after which the write fails, if it does. */
    method Append(now: string, record: Record, written: Option<nat>) returns (r: Result<(), Error>)
      requires written.Some? ==> written.value <= |codec.Line(record)|
      modifies this`dir
      ensures r == if !codec.Fits(record) then Err(RecordTooLarge) else if written.Some? then Err(WriteFailed) else Ok(())
      ensures dir == if !codec.Fits(record) then old(dir)
                     else Written(old(dir), now, codec.Line(record)[..if written.Some? then written.value else |codec.Line(record)|])
    {
      var bytes := codec.encode(record);
      if |bytes| + 1 > MAX_RECORD_BYTES {
        return Err(RecordTooLarge);
      }
      bytes := bytes + [NEWLINE];
      var count := if written.Some? then written.value else |bytes|;
      dir := Written(dir, now, bytes[..count]);
      return if written.Some? then Err(WriteFailed) else Ok(());
    }
  }

  /**
   * A record is taken if and only if its line, with the line end, is no longer than the largest
   * record. What is taken can be read; what is refused could not be, except for a line just one byte
   * too long, because the reader does not count the line end.
   */
  lemma {:induction false} FittingIsReadable(codec: Codec, shows: Record -> bool, r: Record)
    requires codec.Lawful() && shows(r)
    ensures codec.Fits(r) <==> |codec.Line(r)| <= MAX_RECORD_BYTES
    ensures codec.Fits(r) ==> Items(Query(codec.decode, shows), codec.Line(r)) == [r]
    ensures !codec.Fits(r) ==>
      Items(Query(codec.decode, shows), codec.Line(r)) == if |codec.Line(r)| == MAX_RECORD_BYTES + 1 then [r] else []
  {
    OneLine(Query(codec.decode, shows), codec.encode(r));
  }

  // ----- Runs

  datatype Event =
    | Open(now: string, built: string)
    | Append(at: string, record: Record)
    | Crash(at: string, record: Record, kept: nat)  // with `kept` bytes of the record in flight written

  datatype Stored = Stored(record: Record, acknowledged: bool)

  /**
   * `visible` is what the log should show, oldest first. `pending` is a record that a crash left
   * complete but for its line end, at the end of the newest file.
   */
  datatype State = State(dir: Directory, newest: string, running: bool, visible: seq<Stored>, pending: Option<Record>)

  predicate NotBefore(name: string, newest: string) { LogFileName(name) && (name == newest || Less(newest, name)) }

  /** Time does not run backward; only an open writer appends; only fitting records are written. */
  predicate Enabled(codec: Codec, st: State, e: Event) {
    match e
    case Open(now, built) => NotBefore(now, st.newest) && NotBefore(built, now)
    case Append(at, r) => st.running && NotBefore(at, st.newest) && codec.Fits(r)
    case Crash(at, r, kept) => st.running && NotBefore(at, st.newest) && codec.Fits(r) && kept <= |codec.Line(r)|
  }

  function Apply(codec: Codec, st: State, e: Event): State {
    match e
    case Open(now, built) =>
      State(Opened(st.dir, now, built), built, true,
            if st.pending.Some? && now == st.newest then st.visible + [Stored(st.pending.value, false)] else st.visible,
            None)
    case Append(at, r) =>
      State(Written(st.dir, at, codec.Line(r)), at, true, st.visible + [Stored(r, true)], None)
    case Crash(at, r, kept) =>
      State(Written(st.dir, at, codec.Line(r)[..if kept <= |codec.Line(r)| then kept else 0]), at, false,
            if kept == |codec.Line(r)| then st.visible + [Stored(r, false)] else st.visible,
            if kept + 1 == |codec.Line(r)| then Some(r) else None)
  }

  function Initial(): State { State(map[], "", false, [], None) }

  function Run(codec: Codec, events: seq<Event>): State
    decreases |events|
  {
    if events == [] then Initial()
    else Apply(codec, Run(codec, events[..|events| - 1]), events[|events| - 1])
  }

  ghost predicate IsRun(codec: Codec, events: seq<Event>)
    decreases |events|
  {
    events != [] ==>
      && IsRun(codec, events[..|events| - 1])
      && Enabled(codec, Run(codec, events[..|events| - 1]), events[|events| - 1])
  }

  /** The visible records that a query shows, newest first. */
  ghost function Shown(q: Query, visible: seq<Stored>): seq<Record>
    decreases |visible|
  {
    if visible == [] then []
    else
      var r := visible[|visible| - 1].record;
      (if q.shows(r) then [r] else []) + Shown(q, visible[..|visible| - 1])
  }

  // ----- The newest file

  /** The records of all files but `name`. */
  ghost function Others(q: Query, dir: Directory, name: string): seq<Record> {
    All(q, Files(dir, Sorted(Listed(dir) - {name})))
  }

  ghost predicate IsNewest(dir: Directory, name: string) {
    LogFileName(name) && forall n :: n in dir ==> dir[n].regular && NotBefore(name, n) && LogFileName(n)
  }

  lemma {:induction false} SortedCons(names: set<string>, name: string)
    requires name in names && forall n :: n in names ==> n == name || Less(n, name)
    ensures Sorted(names) == [name] + Sorted(names - {name})
  {
    var rest := Sorted(names - {name});
    var files := [name] + rest;
    assert Descending(files) by {
      forall i, j | 0 <= i < j < |files| ensures Less(files[j], files[i]) {
        assert files[j] == rest[j - 1] && rest[j - 1] in rest;
        if i > 0 { assert files[i] == rest[i - 1]; }
      }
    }
    SortedUnique(Sorted(names), files);
  }

  lemma {:induction false} NewestListed(dir: Directory, name: string)
    requires IsNewest(dir, name)
    ensures name in dir <==> name in Listed(dir)
    ensures forall n :: n in Listed(dir) ==> n == name || Less(n, name)
  {
  }

  lemma {:induction false} WholeLogSplits(q: Query, dir: Directory, name: string)
    requires IsNewest(dir, name)
    ensures Remaining(q, dir, None) == Items(q, Content(dir, name)) + Others(q, dir, name)
  {
    var files := Files(dir, Sorted(Listed(dir)));
    BelowEnd(q, files);
    NewestListed(dir, name);
    if name in dir {
      SortedCons(Listed(dir), name);
      FilesCons(dir, name, Sorted(Listed(dir) - {name}));
    } else {
      NoLine(q, []);
      assert Listed(dir) - {name} == Listed(dir);
    }
  }

  lemma {:induction false} FilesCons(dir: Directory, name: string, names: seq<string>)
    requires name in dir && forall n :: n in names ==> n in dir
    ensures Files(dir, [name] + names) == [LogFile(name, dir[name].content)] + Files(dir, names)
  {
    assert ([name] + names)[1..] == names;
  }

  lemma {:induction false} OthersSame(q: Query, dir: Directory, name: string, bytes: seq<byte>)
    requires LogFileName(name)
    ensures Others(q, Written(dir, name, bytes), name) == Others(q, dir, name)
  {
    var after := Written(dir, name, bytes);
    assert Listed(after) - {name} == Listed(dir) - {name};
    var names := Sorted(Listed(dir) - {name});
    assert Files(after, names) == Files(dir, names);
  }

  /** A write to the newest file changes that file's records only. */
  lemma {:induction false} WriteNewest(q: Query, dir: Directory, name: string, bytes: seq<byte>)
    requires IsNewest(dir, name)
    ensures
      var after := Written(dir, name, bytes);
      && IsNewest(after, name)
      && Remaining(q, dir, None) == Items(q, Content(dir, name)) + Others(q, dir, name)
      && Remaining(q, after, None) == Items(q, Content(dir, name) + bytes) + Others(q, dir, name)
  {
    WholeLogSplits(q, dir, name);
    WholeLogSplits(q, Written(dir, name, bytes), name);
    OthersSame(q, dir, name, bytes);
  }

  /** A line written at a line start is the newest item; an unfinished line is none. */
  lemma {:induction false} WriteLine(q: Query, dir: Directory, name: string, line: seq<byte>)
    requires IsNewest(dir, name) && NoNewline(line, 0, |line|) && AtLineStart(Content(dir, name))
    ensures IsNewest(Written(dir, name, line + [NEWLINE]), name) && IsNewest(Written(dir, name, line), name)
    ensures Remaining(q, Written(dir, name, line + [NEWLINE]), None) == q.Accept(line) + Remaining(q, dir, None)
    ensures Remaining(q, Written(dir, name, line), None) == Remaining(q, dir, None)
  {
    var content := Content(dir, name);
    WriteNewest(q, dir, name, line);
    WriteNewest(q, dir, name, line + [NEWLINE]);
    TornTail(q, content, line);
    EndLine(q, content, line);
    Associative(q.Accept(line), Items(q, content), Others(q, dir, name));
  }

  lemma {:induction false} EndedContent(q: Query, content: seq<byte>)
    ensures Items(q, content + [NEWLINE]) == q.Accept(content[LineStart(content)..]) + Items(q, content)
  {
    var k := LineStart(content);
    var base, tail := content[..k], content[k..];
    assert content == base + tail;
    Associative(base, tail, [NEWLINE]);
    EndLine(q, base, tail);
    TornTail(q, base, tail);
  }

  /** Ending a torn line shows what that line holds. */
  lemma {:induction false} EndTornLine(q: Query, dir: Directory, name: string)
    requires IsNewest(dir, name)
    ensures
      var content := Content(dir, name);
      Remaining(q, Written(dir, name, [NEWLINE]), None) == q.Accept(content[LineStart(content)..]) + Remaining(q, dir, None)
  {
    var content := Content(dir, name);
    WriteNewest(q, dir, name, [NEWLINE]);
    EndedContent(q, content);
    Associative(q.Accept(content[LineStart(content)..]), Items(q, content), Others(q, dir, name));
  }

  lemma {:induction false} WriteNothing(q: Query, dir: Directory, name: string)
    requires IsNewest(dir, name)
    ensures Remaining(q, Written(dir, name, []), None) == Remaining(q, dir, None)
  {
    WriteNewest(q, dir, name, []);
    assert Content(dir, name) + [] == Content(dir, name);
  }

  lemma {:induction false} LineStartUnique(s: seq<byte>, k: nat)
    requires k <= |s| && AtLineStart(s[..k]) && NoNewline(s, k, |s|)
    ensures LineStart(s) == k
  {
    var j := LineStart(s);
    assert j > 0 ==> s[..j][j - 1] == s[j - 1];
    assert k > 0 ==> s[..k][k - 1] == s[k - 1];
  }

  // ----- The invariant of every run

  /** The end of the newest file after a crash: nothing, an unreadable stump, or a whole record. */
  ghost predicate Torn(codec: Codec, content: seq<byte>, pending: Option<Record>) {
    var tail := content[LineStart(content)..];
    match pending
    case None => tail == [] || codec.decode(tail) == None
    case Some(r) => tail == codec.encode(r) && codec.Fits(r)
  }

  ghost predicate Inv(codec: Codec, q: Query, st: State) {
    && (st.dir == map[] || IsNewest(st.dir, st.newest))
    && Remaining(q, st.dir, None) == Shown(q, st.visible)
    && Torn(codec, Content(st.dir, st.newest), st.pending)
    && (st.running ==> AtLineStart(Content(st.dir, st.newest)))
    && (st.dir == map[] ==> st.pending.None?)
  }

  /** Moving on to a later hour finds a missing file. */
  lemma {:induction false} LaterHour(dir: Directory, newest: string, name: string)
    requires (dir == map[] || IsNewest(dir, newest)) && NotBefore(name, newest)
    ensures IsNewest(dir, name) && (name != newest ==> Content(dir, name) == [])
  {
    forall n | n in dir ensures NotBefore(name, n) && (n == name ==> n == newest) {
      LessIrreflexive(name);
      if n != newest && name != newest { LessTransitive(n, newest, name); }
    }
  }

  lemma {:induction false} ShownAppend(q: Query, visible: seq<Stored>, stored: Stored)
    ensures Shown(q, visible + [stored]) == (if q.shows(stored.record) then [stored.record] else []) + Shown(q, visible)
  {
    var all := visible + [stored];
    assert all[..|all| - 1] == visible;
  }

  /** A complete line of a record that fits is shown if the query shows it. */
  lemma {:induction false} AcceptEncoded(codec: Codec, q: Query, r: Record)
    requires codec.Lawful() && q.decode == codec.decode && codec.Fits(r)
    ensures q.Accept(codec.encode(r)) == if q.shows(r) then [r] else []
  {
  }

  lemma {:induction false} AppendKeeps(codec: Codec, q: Query, st: State, at: string, r: Record)
    requires codec.Lawful() && q.decode == codec.decode && Inv(codec, q, st)
    requires Enabled(codec, st, Append(at, r))
    ensures Inv(codec, q, Apply(codec, st, Append(at, r)))
  {
    var line := codec.encode(r);
    LaterHour(st.dir, st.newest, at);
    WriteLine(q, st.dir, at, line);
    AcceptEncoded(codec, q, r);
    ShownAppend(q, st.visible, Stored(r, true));
    EndsLine(Content(st.dir, at), line);
  }

  lemma {:induction false} EndsLine(content: seq<byte>, line: seq<byte>)
    ensures AtLineStart(content + (line + [NEWLINE]))
    ensures LineStart(content + (line + [NEWLINE])) == |content + (line + [NEWLINE])|
  {
    var s := content + (line + [NEWLINE]);
    assert s[|s| - 1] == NEWLINE;
  }

  lemma {:induction false} CrashKeeps(codec: Codec, q: Query, st: State, at: string, r: Record, kept: nat)
    requires codec.Lawful() && q.decode == codec.decode && Inv(codec, q, st)
    requires Enabled(codec, st, Crash(at, r, kept))
    ensures Inv(codec, q, Apply(codec, st, Crash(at, r, kept)))
  {
    var line, content := codec.encode(r), Content(st.dir, at);
    LaterHour(st.dir, st.newest, at);
    if kept == |line| + 1 {
      assert codec.Line(r)[..kept] == line + [NEWLINE];
      AppendKeeps(codec, q, st, at, r);
      EndsLine(content, line);
      ShownAppend(q, st.visible, Stored(r, false));
      ShownAppend(q, st.visible, Stored(r, true));
    } else {
      var cut := line[..kept];
      assert codec.Line(r)[..kept] == cut;
      WriteLine(q, st.dir, at, cut);
      assert (content + cut)[..|content|] == content && (content + cut)[|content|..] == cut;
      LineStartUnique(content + cut, |content|);
      if kept == |line| { assert cut == line; }
    }
  }

  /** Ending the torn line of the hour found at a restart shows the pending record, if there is one. */
  lemma {:induction false} SeparateKeeps(codec: Codec, q: Query, st: State, now: string)
    requires codec.Lawful() && q.decode == codec.decode && Inv(codec, q, st) && NotBefore(now, st.newest)
    ensures
      var separated := if Separator(st.dir, now) == [] then st.dir else Written(st.dir, now, Separator(st.dir, now));
      && IsNewest(separated, now) && AtLineStart(Content(separated, now))
      && Remaining(q, separated, None) == Shown(q, Apply(codec, st, Open(now, now)).visible)
  {
    LaterHour(st.dir, st.newest, now);
    var content := Content(st.dir, now);
    if Separator(st.dir, now) != [] {
      EndTornLine(q, st.dir, now);
      WriteNewest(q, st.dir, now, [NEWLINE]);
      EndsLine(content, []);
      if st.pending.Some? {
        ShownAppend(q, st.visible, Stored(st.pending.value, false));
        AcceptEncoded(codec, q, st.pending.value);
      }
    } else if content != [] {
      LineStartUnique(content, |content|);
    }
  }

  lemma {:induction false} OpenKeeps(codec: Codec, q: Query, st: State, now: string, built: string)
    requires codec.Lawful() && q.decode == codec.decode && Inv(codec, q, st)
    requires Enabled(codec, st, Open(now, built))
    ensures Inv(codec, q, Apply(codec, st, Open(now, built)))
  {
    var separated := if Separator(st.dir, now) == [] then st.dir else Written(st.dir, now, Separator(st.dir, now));
    SeparateKeeps(codec, q, st, now);
    LaterHour(separated, now, built);
    WriteNothing(q, separated, built);
    WriteNewest(q, separated, built, []);
    assert Content(separated, built) + [] == Content(separated, built);
    LineStartUnique(Content(separated, built), |Content(separated, built)|);
  }

  // ----- Every run

  lemma {:induction false} RunKeeps(codec: Codec, q: Query, events: seq<Event>)
    requires codec.Lawful() && q.decode == codec.decode && IsRun(codec, events)
    ensures Inv(codec, q, Run(codec, events))
    decreases |events|
  {
    if events == [] {
      EmptyLog(codec, q);
    } else {
      var before, e := events[..|events| - 1], events[|events| - 1];
      RunKeeps(codec, q, before);
      match e {
        case Open(now, built) => OpenKeeps(codec, q, Run(codec, before), now, built);
        case Append(at, r) => AppendKeeps(codec, q, Run(codec, before), at, r);
        case Crash(at, r, kept) => CrashKeeps(codec, q, Run(codec, before), at, r, kept);
      }
    }
  }

  lemma {:induction false} EmptyLog(codec: Codec, q: Query)
    ensures Inv(codec, q, Initial())
  {
    var none: Directory := map[];
    assert Sorted(Listed(none)) != [] ==> Sorted(Listed(none))[0] in Listed(none);
    NoLine(q, []);
  }

  /** The record acknowledged by one event: one whose append returned. */
  function AcknowledgedBy(e: Event): seq<Record> { if e.Append? then [e.record] else [] }

  /** The record that a crash caught with all its bytes, at least up to the line end, written. */
  function CompletedBy(codec: Codec, e: Event): multiset<Record> {
    if e.Crash? && e.kept >= |codec.encode(e.record)| then multiset{e.record} else multiset{}
  }

  function Acknowledged(events: seq<Event>): seq<Record>
    decreases |events|
  {
    if events == [] then [] else Acknowledged(events[..|events| - 1]) + AcknowledgedBy(events[|events| - 1])
  }

  function Completed(codec: Codec, events: seq<Event>): multiset<Record>
    decreases |events|
  {
    if events == [] then multiset{}
    else Completed(codec, events[..|events| - 1]) + CompletedBy(codec, events[|events| - 1])
  }

  function AcknowledgedOf(visible: seq<Stored>): seq<Record>
    decreases |visible|
  {
    if visible == [] then []
    else
      var last := visible[|visible| - 1];
      AcknowledgedOf(visible[..|visible| - 1]) + if last.acknowledged then [last.record] else []
  }

  function Extras(visible: seq<Stored>): multiset<Record>
    decreases |visible|
  {
    if visible == [] then multiset{}
    else
      var last := visible[|visible| - 1];
      Extras(visible[..|visible| - 1]) + if last.acknowledged then multiset{} else multiset{last.record}
  }

  function Pending(st: State): multiset<Record> {
    if st.pending.Some? then multiset{st.pending.value} else multiset{}
  }

  lemma {:induction false} SplitAppend(visible: seq<Stored>, stored: Stored)
    ensures AcknowledgedOf(visible + [stored]) == AcknowledgedOf(visible) + if stored.acknowledged then [stored.record] else []
    ensures Extras(visible + [stored]) == Extras(visible) + if stored.acknowledged then multiset{} else multiset{stored.record}
  {
    assert (visible + [stored])[..|visible|] == visible;
  }

  lemma {:induction false} StepAcknowledges(codec: Codec, st: State, e: Event)
    ensures AcknowledgedOf(Apply(codec, st, e).visible) == AcknowledgedOf(st.visible) + AcknowledgedBy(e)
  {
  }

  /** Opening may show the pending record, which then is no longer pending. */
  lemma {:induction false} OpenExtras(codec: Codec, st: State, now: string, built: string)
    ensures
      var next := Apply(codec, st, Open(now, built));
      Extras(next.visible) + Pending(next) <= Extras(st.visible) + Pending(st)
  {
    if st.pending.Some? { SplitAppend(st.visible, Stored(st.pending.value, false)); }
  }

  /** A crash adds its record at most once: shown, if its line was ended, or pending. */
  lemma {:induction false} CrashExtras(codec: Codec, st: State, at: string, r: Record, kept: nat)
    ensures
      var next := Apply(codec, st, Crash(at, r, kept));
      Extras(next.visible) + Pending(next) <= Extras(st.visible) + CompletedBy(codec, Crash(at, r, kept))
  {
    SplitAppend(st.visible, Stored(r, false));
  }

  lemma {:induction false} StepExtras(codec: Codec, st: State, e: Event)
    ensures
      var next := Apply(codec, st, e);
      Extras(next.visible) + Pending(next) <= Extras(st.visible) + Pending(st) + CompletedBy(codec, e)
  {
    match e
    case Open(now, built) => OpenExtras(codec, st, now, built);
    case Append(at, r) => SplitAppend(st.visible, Stored(r, true));
    case Crash(at, r, kept) => CrashExtras(codec, st, at, r, kept);
  }

  lemma {:induction false} VisibleIsAcknowledged(codec: Codec, events: seq<Event>)
    ensures
      var st := Run(codec, events);
      && AcknowledgedOf(st.visible) == Acknowledged(events)
      && Extras(st.visible) + Pending(st) <= Completed(codec, events)
    decreases |events|
  {
    if events != [] {
      var before, e := events[..|events| - 1], events[|events| - 1];
      VisibleIsAcknowledged(codec, before);
      StepAcknowledges(codec, Run(codec, before), e);
      StepExtras(codec, Run(codec, before), e);
    }
  }

  /**
   * Over every run of opens, appends and crashes, a full read shows, newest first, exactly the
   * visible records that match: every acknowledged record, in the order of the appends, and
   * besides those only records whose bytes were already complete when a crash hit.
   */
  lemma {:induction false} CrashSafe(codec: Codec, q: Query, events: seq<Event>)
    requires codec.Lawful() && q.decode == codec.decode && IsRun(codec, events)
    ensures
      var st := Run(codec, events);
      && Remaining(q, st.dir, None) == Shown(q, st.visible)
      && AcknowledgedOf(st.visible) == Acknowledged(events)
      && Extras(st.visible) <= Completed(codec, events)
  {
    RunKeeps(codec, q, events);
    VisibleIsAcknowledged(codec, events);
  }
}
