/** Reading the output of a git command up to a limit, and parsing the status it prints. */
module GitStatus {
  import opened Wrappers

  type text = seq<byte>

  // ----- Bounded reading

  /** What a pipe delivers: the pieces its reads return, up to the empty one that marks the end. */
  function Stream(pieces: seq<text>): text
    decreases |pieces|
  {
    if pieces == [] || pieces[0] == [] then [] else pieces[0] + Stream(pieces[1..])
  }

  function Smaller(a: nat, b: nat): nat { if a < b then a else b }

  method ReadLimited(pieces: seq<text>, limit: nat) returns (bytes: text, truncated: bool)
    ensures bytes == Stream(pieces)[..Smaller(limit, |Stream(pieces)|)]
    ensures truncated <==> Stream(pieces) != [] && |Stream(pieces)| >= limit
  {
    bytes, truncated := [], false;
    var i := 0;
    ghost var rest := pieces;
    while true
      invariant 0 <= i <= |pieces| && rest == pieces[i..]
      invariant Stream(pieces) == bytes + Stream(rest)
      invariant bytes == [] || |bytes| < limit
      decreases |pieces| - i
    {
      var buffer := if i < |pieces| then pieces[i] else [];
      assert i < |pieces| ==> pieces[i] == rest[0];
      if buffer == [] { break; }
      var remaining := if limit > |bytes| then limit - |bytes| else 0;
      var take := Smaller(|buffer|, remaining);
      Taking(bytes, buffer, take, Stream(rest[1..]));
      bytes := bytes + buffer[..take];
      if take < |buffer| || |bytes| >= limit {
        truncated := true;
        break;
      }
      i := i + 1;
      rest := rest[1..];
    }
  }

  lemma {:induction false} Taking(bytes: text, buffer: text, take: nat, rest: text)
    requires take <= |buffer|
    ensures (bytes + (buffer + rest))[..|bytes| + take] == bytes + buffer[..take]
    ensures take == |buffer| ==> bytes + (buffer + rest) == (bytes + buffer[..take]) + rest
  {
  }

  // ----- Status records

  const SPACE: byte := 0x20

  /** Two status letters, a path, and the path before a rename or copy. */
  datatype FileStatus = FileStatus(index: byte, worktree: byte, path: text, original: Option<text>)

  predicate Moved(index: byte, worktree: byte) {
    index == 'R' as int || index == 'C' as int || worktree == 'R' as int || worktree == 'C' as int
  }

  /** The pieces between NUL bytes. */
  function Records(s: text): (r: seq<text>)
    ensures r != []
    decreases |s|
  {
    if s == [] then [[]]
    else
      var rest := Records(s[1..]);
      if s[0] == 0 then [[]] + rest else [[s[0]] + rest[0]] + rest[1..]
  }

  function Entry(record: text, original: Option<text>): FileStatus
    requires |record| >= 4
  {
    FileStatus(record[0], record[1], record[3..], original)
  }

  function ParseRecords(records: seq<text>): seq<FileStatus>
    decreases |records|
  {
    if records == [] then []
    else if |records[0]| < 4 then ParseRecords(records[1..])
    else if Moved(records[0][0], records[0][1]) && |records| > 1 then
      [Entry(records[0], Some(records[1]))] + ParseRecords(records[2..])
    else [Entry(records[0], None)] + ParseRecords(records[1..])
  }

  function ParseStatus(output: text): seq<FileStatus> { ParseRecords(Records(output)) }

  method Parse(output: text) returns (files: seq<FileStatus>)
    ensures files == ParseStatus(output)
  {
    var records := Records(output);
    files := [];
    var index := 0;
    ghost var rest := records;
    while index < |records|
      invariant 0 <= index <= |records| && rest == records[index..]
      invariant files + ParseRecords(rest) == ParseStatus(output)
    {
      var record := records[index];
      assert record == rest[0];
      ghost var from := rest;
      index := index + 1;
      rest := rest[1..];
      if |record| >= 4 {
        var original := None;
        if Moved(record[0], record[1]) && index < |records| {
          original := Some(records[index]);
          assert rest[0] == records[index] && from[2..] == rest[1..];
          index := index + 1;
          rest := rest[1..];
        }
        assert ParseRecords(from) == [Entry(record, original)] + ParseRecords(rest);
        Associative(files, [Entry(record, original)], ParseRecords(rest));
        files := files + [Entry(record, original)];
      }
    }
  }

  // ----- Parsing undoes printing

  /** How git prints an entry with `-z`. */
  function Printed(f: FileStatus): text {
    [f.index, f.worktree, SPACE] + (f.path + ([0] + (if f.original.Some? then f.original.value + [0] else [])))
  }

  function Print(files: seq<FileStatus>): text
    decreases |files|
  {
    if files == [] then [] else Printed(files[0]) + Print(files[1..])
  }

  /** `R` and `C`, the letters of renames and copies. */
  const MOVES: set<byte> := {0x52, 0x43}

  /** An entry git prints: it gives an original path with a rename or a copy, in the index or the worktree. */
  predicate WellFormed(f: FileStatus) {
    && f.index != 0 && f.worktree != 0 && f.path != [] && 0 !in f.path
    && (f.original.Some? <==> f.index in MOVES || f.worktree in MOVES)
    && (f.original.Some? ==> 0 !in f.original.value)
  }

  lemma {:induction false} FirstRecord(record: text, rest: text)
    requires 0 !in record
    ensures Records(record + ([0] + rest)) == [record] + Records(rest)
    decreases |record|
  {
    var s := record + ([0] + rest);
    if record == [] {
      assert s == [0] + rest && s[1..] == rest;
    } else {
      assert s[0] == record[0] && s[1..] == record[1..] + ([0] + rest);
      FirstRecord(record[1..], rest);
      assert [record[0]] + record[1..] == record;
    }
  }

  lemma {:induction false} PrintedRecords(f: FileStatus, rest: text)
    requires WellFormed(f)
    ensures
      Records(Printed(f) + rest) ==
      [[f.index, f.worktree, SPACE] + f.path] + ((if f.original.Some? then [f.original.value] else []) + Records(rest))
  {
    var record := [f.index, f.worktree, SPACE] + f.path;
    if f.original.Some? {
      var tail := f.original.value + ([0] + rest);
      assert Printed(f) + rest == record + ([0] + tail);
      FirstRecord(record, tail);
      FirstRecord(f.original.value, rest);
      assert [f.original.value] + Records(rest) == Records(tail);
    } else {
      assert Printed(f) + rest == record + ([0] + rest);
      FirstRecord(record, rest);
      assert [] + Records(rest) == Records(rest);
    }
  }

  /** Parsing what was printed gives the entries back, renames included. */
  lemma {:induction false} ParseUndoesPrint(files: seq<FileStatus>)
    requires forall i :: 0 <= i < |files| ==> WellFormed(files[i])
    ensures ParseStatus(Print(files)) == files
    decreases |files|
  {
    if files == [] {
      assert Records([]) == [[]] && ParseRecords([[]]) == ParseRecords([[]][1..]);
    } else {
      var f, rest := files[0], Print(files[1..]);
      ParseUndoesPrint(files[1..]);
      PrintedRecords(f, rest);
      ParseFirst(f, Records(rest));
      assert files == [f] + files[1..];
    }
  }

  lemma {:induction false} ParseFirst(f: FileStatus, rest: seq<text>)
    requires WellFormed(f)
    ensures
      var record := [f.index, f.worktree, SPACE] + f.path;
      ParseRecords([record] + ((if f.original.Some? then [f.original.value] else []) + rest)) == [f] + ParseRecords(rest)
  {
    var record := [f.index, f.worktree, SPACE] + f.path;
    var originals := if f.original.Some? then [f.original.value] else [];
    var records := [record] + (originals + rest);
    assert record[3..] == f.path && |record| >= 4;
    if f.original.Some? {
      assert records[1] == f.original.value && records[2..] == rest;
    } else {
      assert records[1..] == rest;
    }
  }

  // ----- Parsing a prefix

  /** The first records of `whole`, the last of them perhaps cut short. */
  predicate CutRecords(cut: seq<text>, whole: seq<text>) {
    && 0 < |cut| <= |whole|
    && cut[..|cut| - 1] == whole[..|cut| - 1]
    && cut[|cut| - 1] <= whole[|cut| - 1]
  }

  lemma {:induction false} CutAfterRecord(record: text, cut: seq<text>, whole: seq<text>)
    requires CutRecords(cut, whole)
    ensures CutRecords([record] + cut, [record] + whole)
  {
    var n := |cut|;
    assert ([record] + cut)[..n] == [record] + cut[..n - 1];
    assert ([record] + whole)[..n] == [record] + whole[..n - 1];
  }

  lemma {:induction false} CutSplits(cut: seq<text>, whole: seq<text>)
    requires CutRecords(cut, whole) && |cut| > 1
    ensures cut[0] == whole[0] && CutRecords(cut[1..], whole[1..])
    ensures cut == [cut[0]] + cut[1..] && whole == [whole[0]] + whole[1..]
  {
    assert cut[0] == cut[..|cut| - 1][0] && whole[0] == whole[..|cut| - 1][0];
    assert cut[1..][..|cut| - 2] == cut[..|cut| - 1][1..];
    assert whole[1..][..|cut| - 2] == whole[..|cut| - 1][1..];
  }

  lemma {:induction false} CutInFirst(b: byte, cut: seq<text>, whole: seq<text>)
    requires CutRecords(cut, whole)
    ensures CutRecords([[b] + cut[0]] + cut[1..], [[b] + whole[0]] + whole[1..])
  {
    if |cut| > 1 {
      CutSplits(cut, whole);
      CutAfterRecord([b] + cut[0], cut[1..], whole[1..]);
    }
  }

  lemma {:induction false} PrefixCutsRecords(p: text, s: text)
    requires p <= s
    ensures CutRecords(Records(p), Records(s))
    decreases |p|
  {
    if p != [] {
      PrefixCutsRecords(p[1..], s[1..]);
      var cut, whole := Records(p[1..]), Records(s[1..]);
      if p[0] == 0 { CutAfterRecord([], cut, whole); } else { CutInFirst(p[0], cut, whole); }
    }
  }

  /** `part` is an entry whose record, or whose original path, ended too early. */
  predicate CutEntry(part: FileStatus, whole: FileStatus) {
    && part.index == whole.index && part.worktree == whole.worktree && part.path <= whole.path
    && (part.original.Some? ==>
          part.path == whole.path && whole.original.Some? && part.original.value <= whole.original.value)
  }

  /** All entries but the last are those of the whole, and the last is the next one, perhaps cut short. */
  predicate CutEntries(part: seq<FileStatus>, whole: seq<FileStatus>) {
    part == [] ||
    (|part| <= |whole| && part[..|part| - 1] == whole[..|part| - 1]
     && CutEntry(part[|part| - 1], whole[|part| - 1]))
  }

  lemma {:induction false} CutAfter(first: FileStatus, part: seq<FileStatus>, whole: seq<FileStatus>)
    requires CutEntries(part, whole)
    ensures CutEntries([first] + part, [first] + whole)
  {
  }

  lemma {:induction false} CutRecordsParse(cut: seq<text>, whole: seq<text>)
    requires CutRecords(cut, whole)
    ensures CutEntries(ParseRecords(cut), ParseRecords(whole))
    decreases |cut|
  {
    if |cut| == 1 {
      LastRecordParse(cut[0], whole);
      assert cut == [cut[0]];
    } else {
      assert cut[0] == cut[..|cut| - 1][0] == whole[..|cut| - 1][0] == whole[0];
      if |cut[0]| < 4 {
        CutTail(cut, whole, 1);
        CutRecordsParse(cut[1..], whole[1..]);
      } else if Moved(cut[0][0], cut[0][1]) {
        if |cut| == 2 {
          assert cut[2..] == [];
          assert CutEntry(Entry(cut[0], Some(cut[1])), Entry(whole[0], Some(whole[1])));
        } else {
          assert cut[1] == cut[..|cut| - 1][1] == whole[..|cut| - 1][1] == whole[1];
          CutTail(cut, whole, 2);
          CutRecordsParse(cut[2..], whole[2..]);
          CutAfter(Entry(cut[0], Some(cut[1])), ParseRecords(cut[2..]), ParseRecords(whole[2..]));
        }
      } else {
        CutTail(cut, whole, 1);
        CutRecordsParse(cut[1..], whole[1..]);
        CutAfter(Entry(cut[0], None), ParseRecords(cut[1..]), ParseRecords(whole[1..]));
      }
    }
  }

  lemma {:induction false} CutTail(cut: seq<text>, whole: seq<text>, n: nat)
    requires CutRecords(cut, whole) && n < |cut|
    ensures CutRecords(cut[n..], whole[n..])
  {
    assert cut[n..][..|cut| - n - 1] == cut[..|cut| - 1][n..];
    assert whole[n..][..|cut| - n - 1] == whole[..|cut| - 1][n..];
  }

  lemma {:induction false} LastRecordParse(record: text, whole: seq<text>)
    requires whole != [] && record <= whole[0]
    ensures CutEntries(ParseRecords([record]), ParseRecords(whole))
  {
  }

  /** Of any output, a prefix parses to the entries of the whole, with only the last one perhaps cut short. */
  lemma {:induction false} PrefixParses(p: text, s: text)
    requires p <= s
    ensures CutEntries(ParseStatus(p), ParseStatus(s))
  {
    PrefixCutsRecords(p, s);
    CutRecordsParse(Records(p), Records(s));
  }

  /** A status read under a limit: complete if it was not truncated, and right but for its last entry if it was. */
  method ReadStatus(pieces: seq<text>, limit: nat, ghost files: seq<FileStatus>)
    returns (status: seq<FileStatus>, truncated: bool)
    requires Stream(pieces) == Print(files)
    requires forall i :: 0 <= i < |files| ==> WellFormed(files[i])
    ensures !truncated ==> status == files
    ensures CutEntries(status, files)
    ensures truncated <==> Print(files) != [] && |Print(files)| >= limit
  {
    var bytes;
    bytes, truncated := ReadLimited(pieces, limit);
    assert !truncated ==> bytes == Print(files);
    status := Parse(bytes);
    ParseUndoesPrint(files);
    PrefixParses(bytes, Print(files));
  }
}
