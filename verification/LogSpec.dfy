/** What a reader of the log must return, said without blocks, budgets or cursors. */
module LogSpec {
  import opened Wrappers
  import opened LogModel

  /**
   * One search: `decode` stands for JSON decoding of one line and may be any total function;
   * `shows` is the filter.
   */
  datatype Query = Query(decode: seq<byte> -> Option<Record>, shows: Record -> bool) {
    /** The record of one line, if it decodes and matches. */
    function Decoded(line: seq<byte>): seq<Record> {
      if decode(line).Some? && shows(decode(line).value) then [decode(line).value] else []
    }

    /** Lines longer than the largest record are never shown. */
    function Accept(line: seq<byte>): seq<Record> {
      if |line| <= MAX_RECORD_BYTES then Decoded(line) else []
    }
  }

  ghost predicate NoNewline(s: seq<byte>, lo: nat, hi: nat)
    requires lo <= hi <= |s|
  {
    forall i :: lo <= i < hi ==> s[i] != NEWLINE
  }

  /** The first line end at or after `from`, or `|s|`. */
  function LineEnd(s: seq<byte>, from: nat): (k: nat)
    requires from <= |s|
    ensures from <= k <= |s| && NoNewline(s, from, k) && (k < |s| ==> s[k] == NEWLINE)
    decreases |s| - from
  {
    if from == |s| || s[from] == NEWLINE then from else LineEnd(s, from + 1)
  }

  /** The records of every newline-terminated line of `s`, newest first. */
  function Items(q: Query, s: seq<byte>): seq<Record>
    decreases |s|
  {
    var k := LineEnd(s, 0);
    if k == |s| then [] else Items(q, s[k + 1..]) + q.Accept(s[..k])
  }

  /** `s` is empty or ends a line. */
  predicate AtLineStart(s: seq<byte>) { s == [] || s[|s| - 1] == NEWLINE }

  /** Reading the first line, wherever its end was found. */
  lemma {:induction false} FirstLine(q: Query, s: seq<byte>, k: nat)
    requires k < |s| && s[k] == NEWLINE && NoNewline(s, 0, k)
    ensures Items(q, s) == Items(q, s[k + 1..]) + q.Accept(s[..k])
  {
    assert LineEnd(s, 0) == k;
  }

  lemma {:induction false} NoLine(q: Query, s: seq<byte>)
    requires NoNewline(s, 0, |s|)
    ensures Items(q, s) == []
  {
    assert LineEnd(s, 0) == |s|;
  }

  lemma {:induction false} ItemsAppend(q: Query, a: seq<byte>, b: seq<byte>)
    requires AtLineStart(a)
    ensures Items(q, a + b) == Items(q, b) + Items(q, a)
    decreases |a|
  {
    if a == [] {
      assert a + b == b;
      NoLine(q, a);
    } else {
      var k := LineEnd(a, 0);
      assert k < |a|;
      var line, rest := a[..k], a[k + 1..];
      ItemsAppend(q, rest, b);
      FirstLine(q, a, k);
      FirstLineOfBoth(q, a, b, k);
      Associative(Items(q, b), Items(q, rest), q.Accept(line));
    }
  }

  lemma {:induction false} FirstLineOfBoth(q: Query, a: seq<byte>, b: seq<byte>, k: nat)
    requires k < |a| && a[k] == NEWLINE && NoNewline(a, 0, k)
    ensures Items(q, a + b) == Items(q, a[k + 1..] + b) + q.Accept(a[..k])
  {
    var s := a + b;
    assert s[..k] == a[..k];
    assert s[k + 1..] == a[k + 1..] + b;
    FirstLine(q, s, k);
  }

  lemma {:induction false} OneLine(q: Query, line: seq<byte>)
    requires NoNewline(line, 0, |line|)
    ensures Items(q, line + [NEWLINE]) == q.Accept(line)
  {
    var s := line + [NEWLINE];
    assert s[..|line|] == line && s[|line| + 1..] == [];
    FirstLine(q, s, |line|);
    NoLine(q, []);
  }

  /** Where the last, unterminated line of `s` starts. */
  function LineStart(s: seq<byte>): (k: nat)
    ensures k <= |s| && AtLineStart(s[..k]) && NoNewline(s, k, |s|)
  {
    if s == [] || s[|s| - 1] == NEWLINE then |s|
    else
      var k := LineStart(s[..|s| - 1]);
      assert s[..|s| - 1][..k] == s[..k];
      k
  }

  /** An unterminated tail adds nothing. */
  lemma {:induction false} TornTail(q: Query, a: seq<byte>, tail: seq<byte>)
    requires NoNewline(tail, 0, |tail|)
    ensures Items(q, a + tail) == Items(q, a)
  {
    var k := LineStart(a);
    assert a == a[..k] + a[k..];
    assert a + tail == a[..k] + (a[k..] + tail);
    ItemsAppend(q, a[..k], a[k..]);
    ItemsAppend(q, a[..k], a[k..] + tail);
    NoLine(q, a[k..]);
    NoLine(q, a[k..] + tail);
  }

  /** Ending the line in progress adds exactly that line. */
  lemma {:induction false} EndLine(q: Query, a: seq<byte>, line: seq<byte>)
    requires NoNewline(line, 0, |line|)
    ensures AtLineStart(a) ==> Items(q, a + (line + [NEWLINE])) == q.Accept(line) + Items(q, a)
    ensures |line| > MAX_RECORD_BYTES ==> Items(q, a + (line + [NEWLINE])) == Items(q, a)
  {
    if AtLineStart(a) {
      ItemsAppend(q, a, line + [NEWLINE]);
      OneLine(q, line);
    } else {
      var k := LineStart(a);
      assert a == a[..k] + a[k..];
      assert a + (line + [NEWLINE]) == a[..k] + ((a[k..] + line) + [NEWLINE]);
      OneLine(q, a[k..] + line);
      ItemsAppend(q, a[..k], a[k..]);
      ItemsAppend(q, a[..k], (a[k..] + line) + [NEWLINE]);
      NoLine(q, a[k..]);
    }
  }

  // ----- Files, newest first

  datatype LogFile = LogFile(name: string, content: seq<byte>)

  /** The records of whole files. */
  ghost function All(q: Query, files: seq<LogFile>): seq<Record>
    decreases |files|
  {
    if files == [] then [] else Items(q, files[0].content) + All(q, files[1..])
  }

  ghost function Size(files: seq<LogFile>): nat
    decreases |files|
  {
    if files == [] then 0 else |files[0].content| + Size(files[1..])
  }

  /** The records below `offset` in the first file, then those of the other files. */
  ghost function Below(q: Query, files: seq<LogFile>, offset: nat): seq<Record>
    requires files != [] ==> offset <= |files[0].content|
  {
    if files == [] then [] else Items(q, files[0].content[..offset]) + All(q, files[1..])
  }

  function EndOf(files: seq<LogFile>): nat { if files == [] then 0 else |files[0].content| }

  /** Below the end of the first file lies everything. */
  lemma {:induction false} BelowEnd(q: Query, files: seq<LogFile>)
    ensures Below(q, files, EndOf(files)) == All(q, files)
  {
    if files != [] {
      assert files[0].content[..|files[0].content|] == files[0].content;
    }
  }

  // ----- Directories

  datatype Entry = Entry(regular: bool, content: seq<byte>)

  /** A missing directory is an empty one. */
  type Directory = map<string, Entry>

  function Listed(dir: Directory): set<string> {
    set name | name in dir && dir[name].regular && LogFileName(name)
  }

  ghost predicate Descending(files: seq<string>) {
    forall i, j :: 0 <= i < j < |files| ==> Less(files[j], files[i])
  }

  function Insert(files: seq<string>, name: string): (r: seq<string>)
    requires Descending(files) && name !in files
    ensures Descending(r) && |r| == |files| + 1
    ensures forall n :: n in r <==> n == name || n in files
  {
    if files == [] then [name]
    else if Less(files[0], name) then
      assert forall j :: 0 <= j < |files| ==> Less(files[j], name) by {
        forall j | 0 < j < |files| ensures Less(files[j], name) {
          LessTransitive(files[j], files[0], name);
        }
      }
      [name] + files
    else
      var rest := Insert(files[1..], name);
      assert forall n :: n in rest ==> Less(n, files[0]) by {
        LessTotal(files[0], name);
        assert forall n :: n in files[1..] ==> Less(n, files[0]);
      }
      [files[0]] + rest
  }

  ghost predicate Lists(files: seq<string>, names: set<string>) {
    Descending(files) && forall n :: n in files <==> n in names
  }

  lemma {:induction false} ListingExists(names: set<string>) returns (files: seq<string>)
    ensures Lists(files, names)
  {
    if names == {} {
      files := [];
    } else {
      var n :| n in names;
      var rest := ListingExists(names - {n});
      files := Insert(rest, n);
    }
  }

  /** The names in descending order. */
  ghost function Sorted(names: set<string>): (r: seq<string>)
    ensures Lists(r, names)
  {
    assert exists r :: Lists(r, names) by {
      var r := ListingExists(names);
    }
    var r :| Lists(r, names);
    r
  }

  lemma {:induction false} SortedUnique(a: seq<string>, b: seq<string>)
    requires Descending(a) && Descending(b)
    requires forall n :: n in a <==> n in b
    ensures a == b
    decreases |a|
  {
    assert a != [] ==> a[0] in b;
    assert b != [] ==> b[0] in a;
    if a != [] && b != [] {
      var i :| 0 <= i < |b| && b[i] == a[0];
      var j :| 0 <= j < |a| && a[j] == b[0];
      if i != 0 {
        assert Less(b[i], b[0]);
        if j != 0 { LessTransitive(a[0], b[0], a[0]); }
        LessIrreflexive(a[0]);
      }
      forall n ensures n in a[1..] <==> n in b[1..] {
        LessIrreflexive(a[0]);
        assert n in a <==> n == a[0] || n in a[1..];
        assert n in b <==> n == b[0] || n in b[1..];
      }
      SortedUnique(a[1..], b[1..]);
    }
  }

  ghost function Smaller(names: set<string>, file: string): set<string> {
    set n | n in names && Less(n, file)
  }

  /** In a sorted listing, what follows a name is the listing of the smaller names. */
  lemma {:induction false} SortedTail(names: set<string>, i: nat)
    requires i < |Sorted(names)|
    ensures Sorted(names)[i] in names && Sorted(names)[i + 1..] == Sorted(Smaller(names, Sorted(names)[i]))
  {
    var files := Sorted(names);
    assert files[i] in files;
    TailIsSmaller(files, i);
    SortedUnique(files[i + 1..], Sorted(Smaller(names, files[i])));
  }

  lemma {:induction false} TailIsSmaller(files: seq<string>, i: nat)
    requires Descending(files) && i < |files|
    ensures forall n :: n in files[i + 1..] <==> n in files && Less(n, files[i])
  {
    forall n | n in files && Less(n, files[i]) ensures n in files[i + 1..] {
      var j :| 0 <= j < |files| && files[j] == n;
      LessIrreflexive(n);
      if j < i { LessTransitive(n, files[i], n); }
      assert files[i + 1..][j - i - 1] == n;
    }
  }

  lemma {:induction false} SmallerTwice(names: set<string>, f: string, g: string)
    requires Less(g, f)
    ensures Smaller(Smaller(names, f), g) == Smaller(names, g)
  {
    forall n | n in names && Less(n, g) ensures Less(n, f) { LessTransitive(n, g, f); }
  }

  /** The names a read visits: all, or one and those smaller than it. */
  ghost function NamesFrom(names: set<string>, file: Option<string>): seq<string> {
    if file.Some? then [file.value] + Sorted(Smaller(names, file.value)) else Sorted(names)
  }

  /** In a listing of the names smaller than `file`, what follows a name is what follows it anywhere. */
  lemma {:induction false} SmallerTail(names: set<string>, file: string, i: nat)
    requires i < |Sorted(Smaller(names, file))|
    ensures
      var smaller := Sorted(Smaller(names, file));
      && smaller[i] in names && Less(smaller[i], file)
      && smaller[i + 1..] == Sorted(Smaller(names, smaller[i]))
  {
    SortedTail(Smaller(names, file), i);
    SmallerTwice(names, file, Sorted(Smaller(names, file))[i]);
  }

  lemma {:induction false} SplitFirst<T>(s: seq<T>, i: nat)
    requires i < |s|
    ensures s[i..] == [s[i]] + s[i + 1..]
  {
  }

  lemma {:induction false} NamesFromFile(names: set<string>, i: nat)
    requires i < |Sorted(names)|
    ensures Sorted(names)[i] in names && Sorted(names)[i..] == NamesFrom(names, Some(Sorted(names)[i]))
  {
    SortedTail(names, i);
    SplitFirst(Sorted(names), i);
  }

  /** From any visited name on, the read visits that name and the smaller ones. */
  lemma {:induction false} NamesFromTail(names: set<string>, file: Option<string>, i: nat)
    requires i < |NamesFrom(names, file)| && (file.Some? ==> file.value in names)
    ensures
      var visited := NamesFrom(names, file);
      && visited[i] in names && visited[i..] == [visited[i]] + Sorted(Smaller(names, visited[i]))
      && (file.Some? && i > 0 ==> Less(visited[i], visited[0]))
  {
    var visited := NamesFrom(names, file);
    SplitFirst(visited, i);
    if file.None? {
      SortedTail(names, i);
    } else if i > 0 {
      var smaller := Sorted(Smaller(names, file.value));
      SmallerTail(names, file.value, i - 1);
      assert visited[i] == smaller[i - 1] && visited[i + 1..] == smaller[i..];
    }
  }

  /** The files of a directory, as named. */
  function Files(dir: Directory, names: seq<string>): (r: seq<LogFile>)
    requires forall n :: n in names ==> n in dir
    ensures |r| == |names|
    ensures forall i :: 0 <= i < |names| ==> r[i] == LogFile(names[i], dir[names[i]].content)
    decreases |names|
  {
    if names == [] then [] else [LogFile(names[0], dir[names[0]].content)] + Files(dir, names[1..])
  }

  datatype Cursor = Cursor(file: string, offset: nat)

  predicate ValidCursor(dir: Directory, c: Cursor) {
    c.file in Listed(dir) && c.offset <= |dir[c.file].content|
  }

  ghost predicate Usable(dir: Directory, cursor: Option<Cursor>) {
    cursor.Some? ==> ValidCursor(dir, cursor.value)
  }

  /** The files a read visits: all of them, or the cursor's own and the older ones. */
  ghost function Visited(dir: Directory, cursor: Option<Cursor>): (names: seq<string>)
    requires Usable(dir, cursor)
    ensures forall n :: n in names ==> n in Listed(dir)
  {
    NamesFrom(Listed(dir), if cursor.Some? then Some(cursor.value.file) else None)
  }

  /** The offset in the first visited file below which a read starts. */
  ghost function Top(dir: Directory, cursor: Option<Cursor>): nat
    requires Usable(dir, cursor)
  {
    if cursor.Some? then cursor.value.offset else EndOf(Files(dir, Visited(dir, cursor)))
  }

  /**
   * Everything that is still to be returned from a cursor: the complete lines below it in its
   * file, then all older files, newest first. Without a cursor it is the whole log.
   */
  ghost function Remaining(q: Query, dir: Directory, cursor: Option<Cursor>): seq<Record>
    requires Usable(dir, cursor)
  {
    Below(q, Files(dir, Visited(dir, cursor)), Top(dir, cursor))
  }
}
