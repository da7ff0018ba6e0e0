/** The backward, paged reader of the operation log. */
module LogReader {
  import opened Wrappers
  import opened LogModel
  import opened LogSpec

  datatype ReadOptions = ReadOptions(cursor: Option<Cursor>, filter: Filter, limit: nat, scanBytes: nat) {
    predicate Valid() {
      && 1 <= limit <= 200
      && MIN_SCAN_BYTES <= scanBytes <= MAX_SCAN_BYTES
      && (filter.query.Some? ==> |filter.query.value| <= 1024)
    }
  }

  datatype Page = Page(items: seq<Record>, nextCursor: Option<Cursor>, budgetExhausted: bool, scannedBytes: nat)

  datatype Error = InvalidOptions | InvalidCursor | CursorExpired

  // ----- Scanning one file backward

  /** The mutable state of the scan: `line` holds the bytes of the current line in reverse. */
  datatype Scan = Scan(resume: nat, collecting: bool, oversized: bool, line: seq<byte>, items: seq<Record>)

  /**
   * The bytes `s[k..top]` have been scanned: `resume` is the start of the last line whose end was
   * seen, or `top` when no line end was seen, and `line` holds what was scanned of the line before.
   */
  ghost predicate Window(s: seq<byte>, top: nat, k: nat, st: Scan) {
    && k <= st.resume <= top <= |s|
    && (!st.collecting ==> !st.oversized && st.resume == top && NoNewline(s, k, top))
    && (st.collecting ==>
          k < st.resume && s[st.resume - 1] == NEWLINE && NoNewline(s, k, st.resume - 1))
    && (st.oversized ==> st.resume - 1 - k > MAX_RECORD_BYTES)
    && (st.collecting && !st.oversized ==>
          && |st.line| == st.resume - 1 - k <= MAX_RECORD_BYTES
          && forall i :: 0 <= i < |st.line| ==> st.line[i] == s[st.resume - 2 - i])
  }

  /** What was collected and what lies below `hi` is everything there was below `top`. */
  ghost predicate Accounted(q: Query, s: seq<byte>, top: nat, base: seq<Record>, items: seq<Record>, hi: nat) {
    hi <= |s| && top <= |s| && base + Items(q, s[..top]) == items + Items(q, s[..hi])
  }

  ghost predicate Scanned(q: Query, s: seq<byte>, top: nat, k: nat, base: seq<Record>, st: Scan) {
    && Window(s, top, k, st)
    && Accounted(q, s, top, base, st.items, st.resume)
    && (!st.collecting ==> st.items == base)
  }

  /** The collected bytes, put in order, are the line in progress. */
  lemma {:induction false} CollectedLine(s: seq<byte>, k: nat, st: Scan)
    requires k < st.resume <= |s| && |st.line| == st.resume - 1 - k
    requires forall i :: 0 <= i < |st.line| ==> st.line[i] == s[st.resume - 2 - i]
    ensures Reverse(st.line) == s[k..st.resume - 1]
  {
  }

  /** What the scanned bytes contribute once the scan stops or meets a line end below them. */
  lemma {:induction false} Settle(q: Query, s: seq<byte>, top: nat, k: nat, base: seq<Record>, st: Scan)
    requires Scanned(q, s, top, k, base, st)
    ensures st.collecting && !st.oversized && AtLineStart(s[..k]) ==>
              Items(q, s[..st.resume]) == q.Decoded(Reverse(st.line)) + Items(q, s[..k])
    ensures !(st.collecting && !st.oversized) ==> Items(q, s[..st.resume]) == Items(q, s[..k])
  {
    if st.collecting {
      SettleLine(q, s, k, st);
    } else {
      assert s[..st.resume] == s[..k] + s[k..top];
      TornTail(q, s[..k], s[k..top]);
    }
  }

  lemma {:induction false} SettleLine(q: Query, s: seq<byte>, k: nat, st: Scan)
    requires k < st.resume <= |s| && s[st.resume - 1] == NEWLINE && NoNewline(s, k, st.resume - 1)
    requires st.oversized ==> st.resume - 1 - k > MAX_RECORD_BYTES
    requires !st.oversized ==>
               && |st.line| == st.resume - 1 - k <= MAX_RECORD_BYTES
               && forall i :: 0 <= i < |st.line| ==> st.line[i] == s[st.resume - 2 - i]
    ensures !st.oversized && AtLineStart(s[..k]) ==>
              Items(q, s[..st.resume]) == q.Decoded(Reverse(st.line)) + Items(q, s[..k])
    ensures st.oversized ==> Items(q, s[..st.resume]) == Items(q, s[..k])
  {
    var line := s[k..st.resume - 1];
    assert s[..st.resume] == s[..k] + (line + [NEWLINE]);
    EndLine(q, s[..k], line);
    if !st.oversized { CollectedLine(s, k, st); }
  }

  /**
   * Where the next page continues after the budget ran out with `s[k..top]` scanned: an unfinished
   * line that may still be valid is read again, anything else continues in place.
   */
  function ResumeOffset(s: seq<byte>, k: nat, top: nat): (offset: nat)
    requires k <= top <= |s|
    ensures k <= offset <= top
  {
    var end := LineEnd(s[..top], k);
    if end < top && end - k <= MAX_RECORD_BYTES then end + 1 else k
  }

  lemma {:induction false} ResumeOffsetIsChosen(q: Query, s: seq<byte>, top: nat, k: nat, base: seq<Record>, st: Scan)
    requires Scanned(q, s, top, k, base, st)
    ensures ResumeOffset(s, k, top) == if st.collecting && !st.oversized then st.resume else k
  {
    assert LineEnd(s[..top], k) == if st.collecting then st.resume - 1 else top;
  }

  /** The state after the byte at `at`, read while moving down. */
  function ScanByte(q: Query, at: nat, byte: byte, st: Scan): Scan {
    if byte == NEWLINE then
      Scan(at + 1, true, false, [],
           if st.collecting && !st.oversized then st.items + q.Decoded(Reverse(st.line)) else st.items)
    else if st.collecting && !st.oversized then
      if |st.line| < MAX_RECORD_BYTES then st.(line := st.line + [byte]) else st.(line := [], oversized := true)
    else st
  }

  lemma {:induction false} ScanByteKeepsWindow(q: Query, s: seq<byte>, top: nat, k: nat, st: Scan)
    requires k < top <= |s| && Window(s, top, k + 1, st)
    ensures Window(s, top, k, ScanByte(q, k, s[k], st))
  {
  }

  lemma {:induction false} ScanByteKeeps(q: Query, s: seq<byte>, top: nat, k: nat, base: seq<Record>, st: Scan)
    requires k < top <= |s| && Scanned(q, s, top, k + 1, base, st)
    ensures
      var next := ScanByte(q, k, s[k], st);
      && Scanned(q, s, top, k, base, next)
      && |st.items| <= |next.items| <= |st.items| + 1
      && (|next.items| > |st.items| ==> s[k] == NEWLINE && next.resume < top)
  {
    ScanByteKeepsWindow(q, s, top, k, st);
    if s[k] == NEWLINE {
      LineEndKeepsAccount(q, s, top, k, base, st);
    }
  }

  lemma {:induction false} LineEndKeepsAccount(q: Query, s: seq<byte>, top: nat, k: nat, base: seq<Record>, st: Scan)
    requires k < top <= |s| && s[k] == NEWLINE && Scanned(q, s, top, k + 1, base, st)
    ensures Accounted(q, s, top, base, ScanByte(q, k, NEWLINE, st).items, k + 1)
  {
    assert AtLineStart(s[..k + 1]);
    Settle(q, s, top, k + 1, base, st);
    if st.collecting && !st.oversized {
      Associative(st.items, q.Decoded(Reverse(st.line)), Items(q, s[..k + 1]));
    }
  }

  /** One more byte of the scan. */
  method Step(q: Query, ghost s: seq<byte>, ghost top: nat, ghost base: seq<Record>, k: nat, byte: byte, st: Scan)
    returns (next: Scan)
    requires k < top <= |s| && byte == s[k] && Scanned(q, s, top, k + 1, base, st)
    ensures Scanned(q, s, top, k, base, next)
    ensures |st.items| <= |next.items| <= |st.items| + 1
    ensures |next.items| > |st.items| ==> byte == NEWLINE && next.resume < top
  {
    ScanByteKeeps(q, s, top, k, base, st);
    next := ScanByte(q, k, byte, st);
  }

  /** One byte, and whether the page is full with it. */
  method StepOrStop(q: Query, limit: nat, ghost s: seq<byte>, ghost top: nat, ghost base: seq<Record>,
                    k: nat, byte: byte, before: Scan)
    returns (st: Scan, full: bool)
    requires k < top <= |s| && byte == s[k] && Scanned(q, s, top, k + 1, base, before)
    requires |base| <= |before.items| < limit
    ensures !full ==> Scanned(q, s, top, k, base, st) && |base| <= |st.items| < limit
    ensures full ==>
              && |st.items| == limit && st.resume < top
              && Accounted(q, s, top, base, st.items, st.resume)
  {
    st := Step(q, s, top, base, k, byte, before);
    full := byte == NEWLINE && |st.items| == limit;
  }

  lemma {:induction false} BlockByte(s: seq<byte>, start: nat, block: seq<byte>, n: nat)
    requires start + |block| <= |s| && block == s[start..start + |block|] && n < |block|
    ensures block[n] == s[start + n]
  {
  }

  /** One block, last byte first. `full` is the return taken when the page has `limit` items. */
  method ScanBlock(q: Query, limit: nat, ghost s: seq<byte>, ghost top: nat, ghost base: seq<Record>,
                   start: nat, block: seq<byte>, before: Scan)
    returns (st: Scan, full: bool)
    requires start + |block| <= |s| && block == s[start..start + |block|]
    requires Scanned(q, s, top, start + |block|, base, before)
    requires |base| <= |before.items| < limit
    ensures !full ==> Scanned(q, s, top, start, base, st) && |base| <= |st.items| < limit
    ensures full ==>
              && |st.items| == limit && st.resume < top
              && Accounted(q, s, top, base, st.items, st.resume)
  {
    st, full := before, false;
    var n: nat := |block|;
    while n > 0
      invariant n <= |block|
      invariant Scanned(q, s, top, start + n, base, st)
      invariant |base| <= |st.items| < limit
    {
      n := n - 1;
      BlockByte(s, start, block, n);
      st, full := StepOrStop(q, limit, s, top, base, start + n, block[n], st);
      if full { return; }
    }
  }

  /** Backward from `position` in blocks of at most `block` bytes, while the budget lasts. */
  method ScanFile(q: Query, limit: nat, s: seq<byte>, top: nat, base: seq<Record>, block: nat,
                  scanned: nat, scanBytes: nat)
    returns (st: Scan, position: nat, scannedBytes: nat, full: bool)
    requires block > 0 && top <= |s| && |base| < limit && scanned <= scanBytes
    ensures scanned <= scannedBytes <= scanBytes
    ensures !full ==>
              && position <= top && scannedBytes == scanned + (top - position)
              && (position == 0 || scannedBytes == scanBytes)
              && Scanned(q, s, top, position, base, st) && |base| <= |st.items| < limit
    ensures full ==>
              && |st.items| == limit && st.resume < top
              && Accounted(q, s, top, base, st.items, st.resume)
  {
    position, scannedBytes, full := top, scanned, false;
    st := Scan(position, false, false, [], base);
    while position > 0 && scannedBytes < scanBytes
      invariant position <= top && scannedBytes == scanned + (top - position) <= scanBytes
      invariant Scanned(q, s, top, position, base, st)
      invariant |base| <= |st.items| < limit
      decreases position
    {
      var count := Min(Min(position, block), scanBytes - scannedBytes);
      var start := position - count;
      scannedBytes := scannedBytes + count;
      st, full := ScanBlock(q, limit, s, top, base, start, s[start..position], st);
      if full { return; }
      position := start;
    }
  }

  function Min(a: nat, b: nat): nat { if a < b then a else b }

  /** Where a scan cut at `k` may continue. */
  lemma {:induction false} CutAccounted(q: Query, s: seq<byte>, top: nat, k: nat, base: seq<Record>, st: Scan)
    requires Scanned(q, s, top, k, base, st)
    ensures ResumeOffset(s, k, top) == if st.collecting && !st.oversized then st.resume else k
    ensures Accounted(q, s, top, base, st.items, ResumeOffset(s, k, top))
  {
    ResumeOffsetIsChosen(q, s, top, k, base, st);
    Settle(q, s, top, k, base, st);
  }

  /** At the start of a file the line in progress is the file's first, and with it the file is read. */
  lemma {:induction false} ReadThrough(q: Query, s: seq<byte>, top: nat, base: seq<Record>, st: Scan)
    requires Scanned(q, s, top, 0, base, st)
    ensures (if st.collecting && !st.oversized then st.items + q.Decoded(Reverse(st.line)) else st.items)
            == base + Items(q, s[..top])
  {
    Settle(q, s, top, 0, base, st);
    NoLine(q, s[..0]);
  }

  /** How the read of one file ended: at the item limit, at the byte budget, or at its first byte. */
  datatype End = Full | Cut | Through

  /** The part of a file below `top`: what it adds to the page, and where the next page continues. */
  method ReadContent(q: Query, limit: nat, s: seq<byte>, top: nat, base: seq<Record>, block: nat,
                     scanned: nat, scanBytes: nat)
    returns (items: seq<Record>, next: nat, scannedBytes: nat, end: End)
    requires block > 0 && top <= |s| && |base| < limit && scanned < scanBytes
    ensures scanned <= scannedBytes <= scanBytes && |base| <= |items| <= limit
    ensures end == Full ==> |items| == limit && next < top && Accounted(q, s, top, base, items, next)
    ensures end == Cut ==>
              && |items| < limit && scannedBytes == scanBytes
              && scanBytes - scanned < top && next == ResumeOffset(s, top - (scanBytes - scanned), top)
              && Accounted(q, s, top, base, items, next)
    ensures end == Through ==> scannedBytes == scanned + top && items == base + Items(q, s[..top])
  {
    var st, position, full;
    st, position, scannedBytes, full := ScanFile(q, limit, s, top, base, block, scanned, scanBytes);
    items, next := st.items, st.resume;
    if full {
      return items, next, scannedBytes, Full;
    }
    if position > 0 {
      CutAccounted(q, s, top, position, base, st);
      next := if st.collecting && !st.oversized then st.resume else position;
      return items, next, scannedBytes, Cut;
    }
    ReadThrough(q, s, top, base, st);
    if st.collecting && !st.oversized {
      items := items + q.Decoded(Reverse(st.line));
    }
    return items, 0, scannedBytes, Through;
  }

  // ----- One page over a listing

  /**
   * What a page promises when it reads `files` from `top` in the first of them: it returns the next
   * records, and its cursor, in the file `at`, leads to exactly the rest. It stops only at the item
   * limit, at the byte budget, or with everything read. In the file it started in, a page cut by
   * the budget continues at `ResumeOffset`, any other strictly below `top`.
   */
  ghost predicate PageFrom(q: Query, files: seq<LogFile>, top: nat, limit: nat, scanBytes: nat, page: Page, at: nat)
    requires files != [] ==> top <= |files[0].content|
  {
    && |page.items| <= limit && page.scannedBytes <= scanBytes
    && (page.budgetExhausted <==> page.nextCursor.Some? && |page.items| < limit)
    && (page.budgetExhausted ==> page.scannedBytes == scanBytes)
    && match page.nextCursor
       case None =>
         page.items == Below(q, files, top) && page.scannedBytes == if files == [] then 0 else top + Size(files[1..])
       case Some(next) =>
         && at < |files| && next.file == files[at].name && next.offset <= |files[at].content|
         && page.items + Below(q, files[at..], next.offset) == Below(q, files, top)
         && (at == 0 ==> NextOffset(files[0].content, top, scanBytes, page.budgetExhausted, next.offset))
  }

  predicate NextOffset(s: seq<byte>, top: nat, scanBytes: nat, budgetExhausted: bool, next: nat)
    requires top <= |s|
  {
    if budgetExhausted then scanBytes < top && next == ResumeOffset(s, top - scanBytes, top) else next < top
  }

  /** How far a read has come: it has read all that the files before `i` hold. */
  ghost predicate Reached(q: Query, files: seq<LogFile>, top: nat, i: nat, items: seq<Record>, scanned: nat)
    requires i <= |files| && (files != [] ==> top <= |files[0].content|)
  {
    && (i == 0 ==> items == [] && scanned == 0)
    && (i > 0 ==>
          && items + All(q, files[i..]) == Below(q, files, top)
          && scanned + Size(files[i..]) == top + Size(files[1..]))
  }

  /** The part of file `i` that a read starting at `top` visits. */
  function Position(files: seq<LogFile>, top: nat, i: nat): nat
    requires i < |files|
  {
    if i == 0 then top else |files[i].content|
  }

  /** Stopping inside file `i` hands over everything below the new offset. */
  lemma {:induction false} StopInside(q: Query, files: seq<LogFile>, top: nat, i: nat, before: seq<Record>, scanned: nat,
                   items: seq<Record>, offset: nat)
    requires i < |files| && top <= |files[0].content| && Reached(q, files, top, i, before, scanned)
    requires Accounted(q, files[i].content, Position(files, top, i), before, items, offset)
    ensures items + Below(q, files[i..], offset) == Below(q, files, top)
  {
    var s := files[i].content;
    var position := Position(files, top, i);
    SamePrefix(items, Items(q, s[..offset]), before, Items(q, s[..position]), All(q, files[i + 1..]));
    assert files[i..][1..] == files[i + 1..];
    assert i > 0 ==> s[..position] == s;
  }

  /** Having read file `i`, the read stands before the next one. */
  lemma {:induction false} FinishFile(q: Query, files: seq<LogFile>, top: nat, i: nat, before: seq<Record>, scanned: nat,
                   items: seq<Record>)
    requires i < |files| && top <= |files[0].content| && Reached(q, files, top, i, before, scanned)
    requires items == before + Items(q, files[i].content[..Position(files, top, i)])
    ensures Reached(q, files, top, i + 1, items, scanned + Position(files, top, i))
  {
    var s := files[i].content;
    var position := Position(files, top, i);
    SamePrefix(items, [], before, Items(q, s[..position]), All(q, files[i + 1..]));
    assert files[i..][1..] == files[i + 1..];
    assert i > 0 ==> s[..position] == s;
  }

  /** A page may end inside file `i`. */
  lemma {:induction false} PageInside(q: Query, files: seq<LogFile>, top: nat, i: nat, before: Page, limit: nat, scanBytes: nat, page: Page)
    requires i < |files| && top <= |files[0].content| && page.nextCursor.Some?
    requires Reached(q, files, top, i, before.items, before.scannedBytes)
    requires Accounted(q, files[i].content, Position(files, top, i), before.items, page.items, page.nextCursor.value.offset)
    requires page.nextCursor.value.file == files[i].name && page.scannedBytes <= scanBytes
    requires if page.budgetExhausted then |page.items| < limit && page.scannedBytes == scanBytes else |page.items| == limit
    requires i == 0 ==> NextOffset(files[0].content, top, scanBytes, page.budgetExhausted, page.nextCursor.value.offset)
    ensures PageFrom(q, files, top, limit, scanBytes, page, i)
  {
    StopInside(q, files, top, i, before.items, before.scannedBytes, page.items, page.nextCursor.value.offset);
  }

  /** A page may end before file `i`, if it reached a limit or nothing is left. */
  lemma {:induction false} PageBefore(q: Query, files: seq<LogFile>, top: nat, i: nat, limit: nat, scanBytes: nat, page: Page)
    requires 0 < i <= |files| && top <= |files[0].content|
    requires Reached(q, files, top, i, page.items, page.scannedBytes)
    requires |page.items| <= limit && page.scannedBytes <= scanBytes
    requires |page.items| == limit || page.scannedBytes == scanBytes || i == |files|
    requires page.nextCursor == if i < |files| then Some(Cursor(files[i].name, |files[i].content|)) else None
    requires page.budgetExhausted <==> i < |files| && |page.items| < limit
    ensures PageFrom(q, files, top, limit, scanBytes, page, i)
  {
    if i < |files| {
      BelowEnd(q, files[i..]);
    } else {
      assert page.items + [] == page.items;
    }
  }

  /** One file of the listing; `done` means the read ends with `page`, whose cursor is in file `at`. */
  method ReadFile(q: Query, files: seq<LogFile>, ghost top: nat, i: nat, offset: nat, before: Page,
                  limit: nat, scanBytes: nat, block: nat)
    returns (page: Page, done: bool, ghost at: nat)
    requires block > 0 && i < |files| && top <= |files[0].content| && offset == Position(files, top, i)
    requires offset <= |files[i].content|
    requires Reached(q, files, top, i, before.items, before.scannedBytes)
    requires |before.items| < limit && before.scannedBytes < scanBytes
    requires before.nextCursor.None? && !before.budgetExhausted
    ensures done ==> PageFrom(q, files, top, limit, scanBytes, page, at)
    ensures !done ==>
              && |page.items| < limit && page.scannedBytes < scanBytes
              && page.nextCursor.None? && !page.budgetExhausted
              && Reached(q, files, top, i + 1, page.items, page.scannedBytes)
  {
    page, done, at := before, false, i;
    var content := files[i].content;
    var items, next, scanned, end :=
      ReadContent(q, limit, content, offset, before.items, block, before.scannedBytes, scanBytes);
    page := page.(scannedBytes := scanned, items := items);
    if end != Through {
      page := StopAt(q, files, top, i, before, page, next, end == Cut, limit, scanBytes);
      return page, true, i;
    }
    FinishFile(q, files, top, i, before.items, before.scannedBytes, page.items);
    if |page.items| == limit || page.scannedBytes == scanBytes {
      page := EndBefore(q, files, top, i + 1, page, limit, scanBytes);
      return page, true, i + 1;
    }
  }

  /** The page ends within file `i`, at the limit or `cut` by the budget: the next one goes on below `next`. */
  method StopAt(q: Query, files: seq<LogFile>, ghost top: nat, i: nat, ghost start: Page, before: Page, next: nat,
                cut: bool, limit: nat, ghost scanBytes: nat)
    returns (page: Page)
    requires i < |files| && top <= |files[0].content|
    requires Reached(q, files, top, i, start.items, start.scannedBytes)
    requires Accounted(q, files[i].content, Position(files, top, i), start.items, before.items, next)
    requires before.scannedBytes <= scanBytes
    requires if cut then |before.items| < limit && before.scannedBytes == scanBytes else |before.items| == limit
    requires i == 0 ==> NextOffset(files[0].content, top, scanBytes, cut, next)
    ensures PageFrom(q, files, top, limit, scanBytes, page, i)
  {
    page := before.(nextCursor := Some(Cursor(files[i].name, next)), budgetExhausted := cut);
    PageInside(q, files, top, i, start, limit, scanBytes, page);
  }

  /** The limit or the budget is used up exactly at the end of a file: the next page begins with the file `at`. */
  method EndBefore(q: Query, files: seq<LogFile>, ghost top: nat, at: nat, before: Page, limit: nat, scanBytes: nat)
    returns (page: Page)
    requires 0 < at <= |files| && top <= |files[0].content|
    requires Reached(q, files, top, at, before.items, before.scannedBytes)
    requires |before.items| <= limit && before.scannedBytes <= scanBytes
    requires |before.items| == limit || before.scannedBytes == scanBytes
    requires before.nextCursor.None? && !before.budgetExhausted
    ensures PageFrom(q, files, top, limit, scanBytes, page, at)
  {
    page := before;
    if at < |files| {
      var older := files[at];
      page := page.(nextCursor := Some(Cursor(older.name, |older.content|)),
                    budgetExhausted := |page.items| < limit);
    }
    PageBefore(q, files, top, at, limit, scanBytes, page);
  }

  /** Reads on through `files` from `top` in the first; `at` is the file of the next cursor. */
  method ReadFiles(q: Query, files: seq<LogFile>, top: nat, limit: nat, scanBytes: nat, block: nat)
    returns (page: Page, ghost at: nat)
    requires block > 0 && limit > 0 && scanBytes > 0
    requires files != [] ==> top <= |files[0].content|
    ensures PageFrom(q, files, top, limit, scanBytes, page, at)
  {
    page, at := Page([], None, false, 0), 0;
    for index := 0 to |files|
      invariant |page.items| < limit && page.scannedBytes < scanBytes
      invariant page.nextCursor.None? && !page.budgetExhausted
      invariant Reached(q, files, top, index, page.items, page.scannedBytes)
    {
      var position := if index == 0 then top else |files[index].content|;
      var done;
      page, done, at := ReadFile(q, files, top, index, position, page, limit, scanBytes, block);
      if done { return page, at; }
    }
  }

  // ----- Reading a directory

  /** The regular files with log names, in whatever order the directory yields them. */
  method ListFiles(dir: Directory) returns (files: set<string>)
    ensures files == Listed(dir)
  {
    files := {};
    var entries := dir.Keys;
    ghost var listed := Listed(dir);
    while entries != {}
      invariant entries <= dir.Keys
      invariant files == listed - entries
    {
      var name :| name in entries;
      if dir[name].regular && LogFileName(name) {
        files := files + {name};
      }
      entries := entries - {name};
    }
  }

  /** Newest name first. */
  method SortDescending(names: set<string>) returns (files: seq<string>)
    ensures files == Sorted(names)
  {
    files := [];
    var rest := names;
    while rest != {}
      invariant rest <= names && Descending(files)
      invariant forall n :: n in files <==> n in names - rest
    {
      var name :| name in rest;
      files := Insert(files, name);
      rest := rest - {name};
    }
    SortedUnique(files, Sorted(names));
  }

  /** The position of `file`, if it is listed. */
  method FindFile(files: seq<string>, file: string) returns (index: Option<nat>)
    ensures index.None? ==> file !in files
    ensures index.Some? ==> index.value < |files| && files[index.value] == file
  {
    for i := 0 to |files|
      invariant file !in files[..i]
    {
      if files[i] == file { return Some(i); }
    }
    return None;
  }

  /** The files a read visits and where it starts in the first of them. */
  method Locate(dir: Directory, cursor: Option<Cursor>)
    returns (r: Result<(seq<LogFile>, nat), Error>)
    ensures r.Err? ==> r.error == CursorExpired && !Usable(dir, cursor)
    ensures r.Ok? ==> Usable(dir, cursor) && r.value == (Files(dir, Visited(dir, cursor)), Top(dir, cursor))
  {
    var listed := ListFiles(dir);
    var names := SortDescending(listed);
    if cursor.None? {
      var files := Files(dir, names);
      return Ok((files, EndOf(files)));
    }
    var Cursor(file, offset) := cursor.value;
    var index := FindFile(names, file);
    if index.None? {
      return Err(CursorExpired);
    }
    NamesFromFile(listed, index.value);
    if offset > |dir[file].content| {
      return Err(CursorExpired);
    }
    return Ok((Files(dir, names[index.value..]), offset));
  }

  /** What `Read` promises for a usable cursor. */
  ghost predicate PageOf(q: Query, dir: Directory, cursor: Option<Cursor>, limit: nat, scanBytes: nat, page: Page)
    requires Usable(dir, cursor)
  {
    exists at :: PageFrom(q, Files(dir, Visited(dir, cursor)), Top(dir, cursor), limit, scanBytes, page, at)
  }

  /** One page of the log. */
  method Read(decode: seq<byte> -> Option<Record>, dir: Directory, options: ReadOptions)
    returns (r: Result<Page, Error>)
    ensures r.Ok? <==> options.Valid() && Usable(dir, options.cursor)
    ensures r.Ok? ==>
              PageOf(Query(decode, options.filter.Matches), dir, options.cursor, options.limit, options.scanBytes, r.value)
    ensures r.Err? ==>
              r.error == (if !options.Valid() then InvalidOptions
                          else if !LogFileName(options.cursor.value.file) then InvalidCursor
                          else CursorExpired)
  {
    if !options.Valid() {
      return Err(InvalidOptions);
    }
    if options.cursor.Some? && !LogFileName(options.cursor.value.file) {
      return Err(InvalidCursor);
    }
    var located := Locate(dir, options.cursor);
    if located.Err? {
      return Err(located.error);
    }
    var (files, top) := located.value;
    var page, at := ReadFiles(Query(decode, options.filter.Matches), files, top, options.limit, options.scanBytes, BLOCK_BYTES);
    return Ok(page);
  }
}
