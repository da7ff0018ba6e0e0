/** What following the cursor from page to page returns, while the log keeps growing. */
module LogPaging {
  import opened Wrappers
  import opened LogModel
  import opened LogSpec
  import opened LogReader

  // ----- The smallest budget that makes progress

  lemma {:induction false} EnoughBudget(s: seq<byte>, top: nat, scanBytes: nat)
    requires MIN_SCAN_BYTES <= scanBytes < top <= |s|
    ensures ResumeOffset(s, top - scanBytes, top) < top
  {
  }

  /** A line end under `top` and one byte less than a whole record before it. */
  function Stuck(scanBytes: nat): seq<byte> { seq(scanBytes, i => 0) + [NEWLINE] }

  lemma {:induction false} TooLittleBudget(scanBytes: nat)
    requires 0 < scanBytes < MIN_SCAN_BYTES
    ensures ResumeOffset(Stuck(scanBytes), 1, scanBytes + 1) == scanBytes + 1
  {
    var s := Stuck(scanBytes);
    assert s[..scanBytes + 1] == s && s[scanBytes] == NEWLINE;
    assert forall i :: 0 <= i < scanBytes ==> s[i] == 0;
    assert LineEnd(s, 1) == scanBytes;
  }

  /** A page cut by the budget while reading below `top` continues strictly lower. */
  ghost predicate Advances(s: seq<byte>, top: nat, scanBytes: nat) {
    scanBytes < top <= |s| ==> ResumeOffset(s, top - scanBytes, top) < top
  }

  /** The bound of the limits file is exact: one byte less and a page may return its own cursor. */
  lemma {:induction false} MinimumBudget(scanBytes: nat)
    requires scanBytes > 0
    ensures (forall s, top: nat :: Advances(s, top, scanBytes)) <==> scanBytes >= MIN_SCAN_BYTES
  {
    if scanBytes >= MIN_SCAN_BYTES {
      forall s, top: nat ensures Advances(s, top, scanBytes) {
        if scanBytes < top <= |s| { EnoughBudget(s, top, scanBytes); }
      }
    } else {
      TooLittleBudget(scanBytes);
      assert !Advances(Stuck(scanBytes), scanBytes + 1, scanBytes);
    }
  }

  /** With a smaller budget, paging over such a file never gets past its end. */
  lemma {:induction false} StuckCursor(q: Query, name: string, limit: nat, scanBytes: nat, page: Page, at: nat)
    requires 0 < scanBytes < MIN_SCAN_BYTES && limit > 0
    requires forall line :: q.decode(line) == None
    requires PageFrom(q, [LogFile(name, Stuck(scanBytes))], scanBytes + 1, limit, scanBytes, page, at)
    ensures page.nextCursor == Some(Cursor(name, scanBytes + 1)) && page.items == []
  {
    TooLittleBudget(scanBytes);
    var s := Stuck(scanBytes);
    NothingDecodes(q, s[..scanBytes + 1]);
  }

  lemma {:induction false} NothingDecodes(q: Query, s: seq<byte>)
    requires forall line :: q.decode(line) == None
    ensures Items(q, s) == []
  {
    var k := LineEnd(s, 0);
    if k < |s| { NothingDecodes(q, s[k + 1..]); }
  }

  // ----- One page, in terms of cursors

  /** A later position in the log is below an earlier one. */
  predicate Lower(a: Cursor, b: Cursor) {
    Less(a.file, b.file) || (a.file == b.file && a.offset < b.offset)
  }

  /** An upper bound on the pages that can still be read: every page lowers it. */
  ghost function Weight(files: seq<LogFile>, offset: nat): nat {
    if files == [] then 0 else offset + Size(files[1..]) + |files|
  }

  lemma {:induction false} WeightFalls(files: seq<LogFile>, top: nat, at: nat, offset: nat)
    requires at < |files| && top <= |files[0].content| && offset <= |files[at].content|
    requires at == 0 ==> offset < top
    ensures Weight(files[at..], offset) < Weight(files, top)
  {
    if at > 0 {
      assert files[at..][1..] == files[at + 1..];
      SizeFrom(files, 1, at);
    }
  }

  lemma {:induction false} SizeFrom(files: seq<LogFile>, i: nat, at: nat)
    requires i <= at < |files|
    ensures Size(files[i..]) >= |files[at].content| + Size(files[at + 1..])
    decreases at - i
  {
    assert files[i..][1..] == files[i + 1..];
    if i < at { SizeFrom(files, i + 1, at); }
  }

  ghost function PagesLeft(dir: Directory, cursor: Option<Cursor>): nat
    requires Usable(dir, cursor)
  {
    Weight(Files(dir, Visited(dir, cursor)), Top(dir, cursor))
  }

  lemma {:induction false} FilesTail(dir: Directory, names: seq<string>, i: nat)
    requires i <= |names| && forall n :: n in names ==> n in dir
    ensures Files(dir, names)[i..] == Files(dir, names[i..])
  {
  }

  lemma {:induction false} NextIsLower(q: Query, files: seq<LogFile>, top: nat, limit: nat, scanBytes: nat, page: Page, at: nat)
    requires (files != [] ==> top <= |files[0].content|) && scanBytes >= MIN_SCAN_BYTES
    requires PageFrom(q, files, top, limit, scanBytes, page, at) && page.nextCursor.Some?
    ensures at < |files| && page.nextCursor.value.offset <= |files[at].content|
    ensures at == 0 ==> page.nextCursor.value.offset < top
    ensures Weight(files[at..], page.nextCursor.value.offset) < Weight(files, top)
  {
    if at == 0 && page.budgetExhausted { EnoughBudget(files[0].content, top, scanBytes); }
    WeightFalls(files, top, at, page.nextCursor.value.offset);
  }

  /** A cursor into a visited file stands for the rest of the visit. */
  lemma {:induction false} CursorStandsFor(q: Query, dir: Directory, cursor: Option<Cursor>, at: nat, offset: nat)
    requires Usable(dir, cursor) && at < |Visited(dir, cursor)|
    requires offset <= |Files(dir, Visited(dir, cursor))[at].content|
    ensures
      var files := Files(dir, Visited(dir, cursor));
      var next := Some(Cursor(files[at].name, offset));
      && Usable(dir, next)
      && Remaining(q, dir, next) == Below(q, files[at..], offset)
      && PagesLeft(dir, next) == Weight(files[at..], offset)
      && (cursor.Some? && at > 0 ==> Less(files[at].name, cursor.value.file))
  {
    var names := Visited(dir, cursor);
    NamesFromTail(Listed(dir), if cursor.Some? then Some(cursor.value.file) else None, at);
    FilesTail(dir, names, at);
  }

  /**
   * A page and what remains after it is what remained before it, whatever the limits. With the
   * budget that `Read` demands, a next cursor also stands strictly below the cursor the page was
   * read from and leaves fewer pages.
   */
  lemma {:induction false} PageLeadsOn(q: Query, dir: Directory, cursor: Option<Cursor>, limit: nat, scanBytes: nat, page: Page)
    requires Usable(dir, cursor) && PageOf(q, dir, cursor, limit, scanBytes, page)
    ensures page.nextCursor.None? ==> page.items == Remaining(q, dir, cursor)
    ensures page.nextCursor.Some? ==>
              && Usable(dir, page.nextCursor)
              && page.items + Remaining(q, dir, page.nextCursor) == Remaining(q, dir, cursor)
    ensures page.nextCursor.Some? && scanBytes >= MIN_SCAN_BYTES ==>
              && PagesLeft(dir, page.nextCursor) < PagesLeft(dir, cursor)
              && (cursor.Some? ==> Lower(page.nextCursor.value, cursor.value))
  {
    var files, top := Files(dir, Visited(dir, cursor)), Top(dir, cursor);
    var at :| PageFrom(q, files, top, limit, scanBytes, page, at);
    if page.nextCursor.Some? {
      if scanBytes >= MIN_SCAN_BYTES { NextIsLower(q, files, top, limit, scanBytes, page, at); }
      CursorStandsFor(q, dir, cursor, at, page.nextCursor.value.offset);
    }
  }

  // ----- Growth between pages

  /**
   * What may happen to the directory while a client holds a cursor into `file`: bytes are appended
   * to `file`, newer files come and go as they like, older files stay.
   */
  ghost predicate Grows(dir: Directory, later: Directory, file: string) {
    && file in Listed(dir) && file in Listed(later)
    && dir[file].content <= later[file].content
    && Smaller(Listed(dir), file) == Smaller(Listed(later), file)
    && forall n :: n in Smaller(Listed(dir), file) ==> dir[n] == later[n]
  }

  /** Only the bytes below the offset of the first file matter. */
  lemma {:induction false} BelowSame(q: Query, a: seq<LogFile>, b: seq<LogFile>, offset: nat)
    requires a != [] && b != [] && offset <= |a[0].content| && a[0].content <= b[0].content
    requires a[1..] == b[1..]
    ensures Below(q, a, offset) == Below(q, b, offset) && Weight(a, offset) == Weight(b, offset)
  {
    assert a[0].content[..offset] == b[0].content[..offset];
    assert |a| == 1 + |a[1..]| && |b| == 1 + |b[1..]|;
  }

  lemma {:induction false} GrowthKeepsCursor(q: Query, dir: Directory, later: Directory, c: Cursor)
    requires ValidCursor(dir, c) && Grows(dir, later, c.file)
    ensures ValidCursor(later, c)
    ensures Remaining(q, later, Some(c)) == Remaining(q, dir, Some(c))
    ensures PagesLeft(later, Some(c)) == PagesLeft(dir, Some(c))
  {
    var names := Visited(dir, Some(c));
    var older := Sorted(Smaller(Listed(dir), c.file));
    assert names == Visited(later, Some(c)) && names[1..] == older;
    FilesTail(dir, names, 1);
    FilesTail(later, names, 1);
    assert Files(dir, older) == Files(later, older);
    BelowSame(q, Files(dir, names), Files(later, names), c.offset);
  }

  // ----- Runs

  /** One call of `Read` by a client that pages on, in the directory as it was at that moment. */
  datatype Visit = Visit(dir: Directory, limit: nat, scanBytes: nat, page: Page)

  ghost predicate IsRun(q: Query, cursor: Option<Cursor>, visits: seq<Visit>)
    decreases |visits|
  {
    && visits != []
    && var v := visits[0];
       && Usable(v.dir, cursor) && PageOf(q, v.dir, cursor, v.limit, v.scanBytes, v.page)
       && (|visits| > 1 ==>
             && v.page.nextCursor.Some?
             && Grows(v.dir, visits[1].dir, v.page.nextCursor.value.file)
             && IsRun(q, v.page.nextCursor, visits[1..]))
  }

  function AllItems(visits: seq<Visit>): seq<Record>
    decreases |visits|
  {
    if visits == [] then [] else visits[0].page.items + AllItems(visits[1..])
  }

  /** What the last cursor of a run still leads to. */
  ghost function LeftAfter(q: Query, v: Visit): seq<Record> {
    if v.page.nextCursor.Some? && Usable(v.dir, v.page.nextCursor) then Remaining(q, v.dir, v.page.nextCursor) else []
  }

  /**
   * Over any run, through any growth of the log and with any limits and budgets, the pages together
   * with what the last cursor still leads to are exactly what the first cursor led to: nothing is
   * lost, repeated or added.
   */
  lemma {:induction false} RunConserves(q: Query, cursor: Option<Cursor>, visits: seq<Visit>)
    requires IsRun(q, cursor, visits)
    ensures Usable(Last(visits).dir, Last(visits).page.nextCursor)
    ensures AllItems(visits) + LeftAfter(q, Last(visits)) == Remaining(q, visits[0].dir, cursor)
    decreases |visits|
  {
    var v, rest := visits[0], visits[1..];
    PageLeadsOn(q, v.dir, cursor, v.limit, v.scanBytes, v.page);
    if |visits| > 1 {
      var next := v.page.nextCursor;
      GrowthKeepsCursor(q, v.dir, visits[1].dir, next.value);
      RunConserves(q, next, rest);
      assert Last(rest) == Last(visits);
      Associative(v.page.items, AllItems(rest), LeftAfter(q, Last(rest)));
    } else {
      assert AllItems(visits) == v.page.items;
    }
  }

  function Last(visits: seq<Visit>): Visit
    requires visits != []
  {
    visits[|visits| - 1]
  }

  /** A run that ended has returned everything. */
  lemma {:induction false} FinishedRunIsComplete(q: Query, cursor: Option<Cursor>, visits: seq<Visit>)
    requires IsRun(q, cursor, visits) && Last(visits).page.nextCursor.None?
    ensures AllItems(visits) == Remaining(q, visits[0].dir, cursor)
  {
    RunConserves(q, cursor, visits);
  }

  /** With budgets `Read` accepts, a run is finite: what the first cursor had below it bounds its pages. */
  lemma {:induction false} RunIsBounded(q: Query, cursor: Option<Cursor>, visits: seq<Visit>)
    requires IsRun(q, cursor, visits) && forall v :: v in visits ==> v.scanBytes >= MIN_SCAN_BYTES
    ensures |visits| <= PagesLeft(visits[0].dir, cursor) + 1
    decreases |visits|
  {
    var v := visits[0];
    PageLeadsOn(q, v.dir, cursor, v.limit, v.scanBytes, v.page);
    if |visits| > 1 {
      var next := v.page.nextCursor;
      GrowthKeepsCursor(q, v.dir, visits[1].dir, next.value);
      RunIsBounded(q, next, visits[1..]);
    }
  }
}
