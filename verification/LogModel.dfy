/** Records, filters, size limits and file names of the operation log. */
module LogModel {
  import opened Wrappers

  const MAX_RECORD_BYTES: nat := 64 * 1024
  const MAX_SCAN_BYTES: nat := 16 * 1024 * 1024
  const MIN_SCAN_BYTES: nat := MAX_RECORD_BYTES + 2
  const BLOCK_BYTES: nat := 16 * 1024
  const NEWLINE: byte := 10

  /** Text is kept as its UTF-8 bytes, the form in which the source measures and searches it. */
  type text = seq<byte>

  datatype Level = Info | Warn | Error

  datatype Outcome = Succeeded | PartialSuccess | Failed | Interrupted | Cancelled

  datatype Record = Record(
    timestamp: text, operationId: text, bootId: text, kind: text, source: text, title: text,
    event: text, level: Level, message: text, projectId: Option<text>, resource: Option<text>,
    outcome: Option<Outcome>, completed: Option<nat>, total: Option<nat>)

  predicate FoundAt(hay: text, needle: text, i: nat) {
    i + |needle| <= |hay| && hay[i..i + |needle|] == needle
  }

  predicate Contains(hay: text, needle: text) {
    exists i :: 0 <= i <= |hay| && FoundAt(hay, needle, i)
  }

  datatype Filter = Filter(
    query: Option<text>, operationId: Option<text>, kind: Option<text>, source: Option<text>,
    projectId: Option<text>, level: Option<Level>)
  {
    predicate Matches(record: Record) {
      && (operationId.Some? ==> operationId.value == record.operationId)
      && (kind.Some? ==> kind.value == record.kind)
      && (source.Some? ==> source.value == record.source)
      && (projectId.Some? ==> record.projectId == projectId)
      && (level.Some? ==> level.value == record.level)
      && (query.Some? ==>
            || Contains(record.message, query.value)
            || Contains(record.title, query.value)
            || (record.resource.Some? && Contains(record.resource.value, query.value))
            || Contains(record.operationId, query.value))
    }
  }

  lemma {:induction false} FoundPiece(hay: text, needle: text, i: nat)
    requires FoundAt(hay, needle, i)
    ensures hay == hay[..i] + (needle + hay[i + |needle|..])
  {
    var j := i + |needle|;
    assert hay == hay[..i] + hay[i..] && hay[i..] == hay[i..j] + hay[j..];
  }

  /** Containing is occurring as a piece. */
  lemma {:induction false} ContainsPiece(hay: text, needle: text)
    ensures Contains(hay, needle) <==> exists a, b :: hay == a + (needle + b)
  {
    if Contains(hay, needle) {
      var i :| 0 <= i <= |hay| && FoundAt(hay, needle, i);
      FoundPiece(hay, needle, i);
    }
    if a, b :| hay == a + (needle + b) {
      assert FoundAt(hay, needle, |a|);
    }
  }

  const EVERYTHING := Filter(None, None, None, None, None, None)

  /** Each criterion that is given narrows the filter by exactly its own condition. */
  lemma {:induction false} FilterNarrows(f: Filter, r: Record)
    ensures EVERYTHING.Matches(r)
    ensures forall x :: f.(operationId := Some(x)).Matches(r) <==> f.(operationId := None).Matches(r) && r.operationId == x
    ensures forall x :: f.(kind := Some(x)).Matches(r) <==> f.(kind := None).Matches(r) && r.kind == x
    ensures forall x :: f.(source := Some(x)).Matches(r) <==> f.(source := None).Matches(r) && r.source == x
    ensures forall x :: f.(projectId := Some(x)).Matches(r) <==> f.(projectId := None).Matches(r) && r.projectId == Some(x)
    ensures forall x :: f.(level := Some(x)).Matches(r) <==> f.(level := None).Matches(r) && r.level == x
  {
  }

  /** The parts of a record that a query looks at. */
  function Searched(r: Record): set<text> {
    {r.message, r.title, r.operationId} + if r.resource.Some? then {r.resource.value} else {}
  }

  /** A query narrows it to the records with the text in their message, title, resource or operation. */
  lemma {:induction false} QueryNarrows(f: Filter, r: Record, x: text)
    ensures
      f.(query := Some(x)).Matches(r) <==>
      f.(query := None).Matches(r) && exists part :: part in Searched(r) && Contains(part, x)
  {
    assert r.message in Searched(r) && r.title in Searched(r) && r.operationId in Searched(r);
    if r.resource.Some? { assert r.resource.value in Searched(r); }
  }

  // ----- File names

  /** Byte order on names, the order in which the reader sorts them. */
  predicate Less(a: string, b: string) {
    if b == [] then false
    else if a == [] then true
    else a[0] < b[0] || (a[0] == b[0] && Less(a[1..], b[1..]))
  }

  lemma {:induction false} LessIrreflexive(a: string)
    ensures !Less(a, a)
  {
    if a != [] { LessIrreflexive(a[1..]); }
  }

  lemma {:induction false} LessTransitive(a: string, b: string, c: string)
    requires Less(a, b) && Less(b, c)
    ensures Less(a, c)
  {
    if a != [] && a[0] == b[0] == c[0] { LessTransitive(a[1..], b[1..], c[1..]); }
  }

  lemma {:induction false} LessTotal(a: string, b: string)
    ensures a == b || Less(a, b) || Less(b, a)
  {
    if a != [] && b != [] {
      LessTotal(a[1..], b[1..]);
      assert a == [a[0]] + a[1..] && b == [b[0]] + b[1..];
    }
  }

  predicate Digit(c: char) { '0' <= c <= '9' }

  const NAME_FORMAT: string := "operations.####-##-##-##.log"

  /** `operations.YYYY-MM-DD-HH.log`: fixed characters, and a digit for every `#`. */
  predicate LogFileName(name: string) {
    |name| == 28 && forall i :: 0 <= i < 28 ==> Fits(name[i], i)
  }

  predicate Fits(c: char, i: nat)
    requires i < 28
  {
    if NAME_FORMAT[i] == '#' then Digit(c) else c == NAME_FORMAT[i]
  }

  predicate AllDigits(s: string) { forall i :: 0 <= i < |s| ==> '0' <= s[i] <= '9' }

  function NameOf(year: string, month: string, day: string, hour: string): string {
    "operations." + (year + ("-" + (month + ("-" + (day + ("-" + (hour + ".log")))))))
  }

  /** The names recognised are exactly `operations.`, four numbers of fixed width joined by hyphens, and `.log`. */
  lemma {:induction false} LogFileNameMeans(name: string)
    ensures
      LogFileName(name) <==>
      exists y, m, d, h ::
        && |y| == 4 && |m| == 2 && |d| == 2 && |h| == 2
        && AllDigits(y) && AllDigits(m) && AllDigits(d) && AllDigits(h) && name == NameOf(y, m, d, h)
  {
    if LogFileName(name) { NameParts(name); }
    if y, m, d, h :|
      && |y| == 4 && |m| == 2 && |d| == 2 && |h| == 2
      && AllDigits(y) && AllDigits(m) && AllDigits(d) && AllDigits(h) && name == NameOf(y, m, d, h)
    {
      PartsName(y, m, d, h);
    }
  }

  lemma {:induction false} FixedPart(name: string, from: nat, to: nat)
    requires LogFileName(name) && from <= to <= 28 && forall i :: from <= i < to ==> NAME_FORMAT[i] != '#'
    ensures name[from..to] == NAME_FORMAT[from..to]
  {
    forall i | from <= i < to ensures name[i] == NAME_FORMAT[i] {
      assert Fits(name[i], i);
    }
  }

  lemma {:induction false} DigitPart(name: string, from: nat, to: nat)
    requires LogFileName(name) && from <= to <= 28 && forall i :: from <= i < to ==> NAME_FORMAT[i] == '#'
    ensures AllDigits(name[from..to])
  {
    forall i | from <= i < to ensures Digit(name[i]) {
      assert Fits(name[i], i);
    }
    forall i | 0 <= i < to - from ensures '0' <= name[from..to][i] <= '9' {
      assert name[from..to][i] == name[from + i];
    }
  }

  lemma {:induction false} FormatParts()
    ensures NAME_FORMAT[0..11] == "operations." && NAME_FORMAT[24..28] == ".log"
    ensures NAME_FORMAT[15..16] == "-" && NAME_FORMAT[18..19] == "-" && NAME_FORMAT[21..22] == "-"
  {
  }

  lemma {:induction false} Cut(s: string, from: nat, to: nat)
    requires from <= to <= |s|
    ensures s[from..] == s[from..to] + s[to..]
  {
  }

  lemma {:induction false} Pieces(s: string)
    requires |s| == 28
    ensures s == s[0..11] + (s[11..15] + (s[15..16] + (s[16..18] + (s[18..19] + (s[19..21]
                 + (s[21..22] + (s[22..24] + s[24..])))))))
  {
    assert s == s[0..];
    Cut(s, 0, 11);
    Cut(s, 11, 15);
    Cut(s, 15, 16);
    Cut(s, 16, 18);
    Cut(s, 18, 19);
    Cut(s, 19, 21);
    Cut(s, 21, 22);
    Cut(s, 22, 24);
  }

  lemma {:induction false} FixedOfName(name: string)
    requires LogFileName(name)
    ensures name[0..11] == "operations." && name[24..] == ".log"
    ensures name[15..16] == "-" && name[18..19] == "-" && name[21..22] == "-"
  {
    FormatParts();
    FixedPart(name, 0, 11);
    FixedPart(name, 15, 16);
    FixedPart(name, 18, 19);
    FixedPart(name, 21, 22);
    FixedPart(name, 24, 28);
    assert name[24..] == name[24..28];
  }

  lemma {:induction false} NameParts(name: string)
    requires LogFileName(name)
    ensures AllDigits(name[11..15]) && AllDigits(name[16..18]) && AllDigits(name[19..21]) && AllDigits(name[22..24])
    ensures name == NameOf(name[11..15], name[16..18], name[19..21], name[22..24])
  {
    DigitPart(name, 11, 15);
    DigitPart(name, 16, 18);
    DigitPart(name, 19, 21);
    DigitPart(name, 22, 24);
    FixedOfName(name);
    Pieces(name);
  }

  lemma {:induction false} PartsName(y: string, m: string, d: string, h: string)
    requires |y| == 4 && |m| == 2 && |d| == 2 && |h| == 2
    requires AllDigits(y) && AllDigits(m) && AllDigits(d) && AllDigits(h)
    ensures LogFileName(NameOf(y, m, d, h))
  {
  }

  function Pow10(n: nat): nat { if n == 0 then 1 else 10 * Pow10(n - 1) }

  /** `value` in exactly `width` decimal digits. */
  function Digits(value: nat, width: nat): (r: string)
    ensures |r| == width && forall i :: 0 <= i < width ==> Digit(r[i])
  {
    if width == 0 then [] else Digits(value / 10, width - 1) + [('0' as int + value % 10) as char]
  }

  datatype Hour = Hour(year: nat, month: nat, day: nat, hour: nat) {
    predicate Valid() { year < 10000 && month < 100 && day < 100 && hour < 100 }

    predicate Before(other: Hour) {
      || year < other.year
      || (year == other.year && (
          || month < other.month
          || (month == other.month && (
              || day < other.day
              || (day == other.day && hour < other.hour)))))
    }

    /** The name the writer formats for an hour of UTC time. */
    function FileName(): string {
      "operations." + (Digits(year, 4) + ("-" + (Digits(month, 2) + ("-" + (Digits(day, 2) + ("-"
      + (Digits(hour, 2) + ".log")))))))
    }
  }

  /** Names of equal length compare part by part. */
  lemma {:induction false} LessConcat(a: string, b: string, x: string, y: string)
    requires |a| == |b|
    ensures Less(a + x, b + y) <==> Less(a, b) || (a == b && Less(x, y))
  {
    if a == [] {
      assert a + x == x && b + y == y;
    } else {
      assert (a + x)[1..] == a[1..] + x && (b + y)[1..] == b[1..] + y;
      LessConcat(a[1..], b[1..], x, y);
      assert a == [a[0]] + a[1..] && b == [b[0]] + b[1..];
    }
  }

  lemma {:induction false} DigitsOrder(a: nat, b: nat, width: nat)
    requires a < Pow10(width) && b < Pow10(width)
    ensures Less(Digits(a, width), Digits(b, width)) <==> a < b
    ensures Digits(a, width) == Digits(b, width) <==> a == b
  {
    if width > 0 {
      var x, y := Digits(a / 10, width - 1), Digits(b / 10, width - 1);
      var c, d := ('0' as int + a % 10) as char, ('0' as int + b % 10) as char;
      DigitsOrder(a / 10, b / 10, width - 1);
      LessConcat(x, y, [c], [d]);
      assert (x + [c])[..|x|] == x && (y + [d])[..|y|] == y;
      assert (x + [c])[|x|] == c && (y + [d])[|y|] == d;
    }
  }

  lemma {:induction false} FileNameIsLogFileName(h: Hour)
    ensures LogFileName(h.FileName())
  {
  }

  /** One numeric part and the rest of a name: the part decides unless it is equal. */
  lemma {:induction false} PartOrder(a: nat, b: nat, width: nat, separator: string, x: string, y: string)
    requires a < Pow10(width) && b < Pow10(width)
    ensures
      var p, q := separator + (Digits(a, width) + x), separator + (Digits(b, width) + y);
      (Less(p, q) <==> a < b || (a == b && Less(x, y))) && (p == q <==> a == b && x == y)
  {
    var c, d := Digits(a, width), Digits(b, width);
    DigitsOrder(a, b, width);
    LessConcat(c, d, x, y);
    LessConcat(separator, separator, c + x, d + y);
    LessIrreflexive(separator);
    assert (separator + (c + x))[|separator|..] == c + x && (separator + (d + y))[|separator|..] == d + y;
    assert (c + x)[..width] == c && (c + x)[width..] == x && (d + y)[..width] == d && (d + y)[width..] == y;
  }

  /** The order in which names sort is the order of the hours they encode. */
  lemma {:induction false} NamesEncodeTime(g: Hour, h: Hour)
    requires g.Valid() && h.Valid()
    ensures Less(g.FileName(), h.FileName()) <==> g.Before(h)
    ensures g.FileName() == h.FileName() <==> g == h
  {
    assert Pow10(2) == 100 && Pow10(3) == 1000 && Pow10(4) == 10000;
    var g3, h3 := "-" + (Digits(g.hour, 2) + ".log"), "-" + (Digits(h.hour, 2) + ".log");
    var g2, h2 := "-" + (Digits(g.day, 2) + g3), "-" + (Digits(h.day, 2) + h3);
    var g1, h1 := "-" + (Digits(g.month, 2) + g2), "-" + (Digits(h.month, 2) + h2);
    LessIrreflexive(".log");
    PartOrder(g.hour, h.hour, 2, "-", ".log", ".log");
    PartOrder(g.day, h.day, 2, "-", g3, h3);
    PartOrder(g.month, h.month, 2, "-", g2, h2);
    PartOrder(g.year, h.year, 4, "operations.", g1, h1);
  }
}
