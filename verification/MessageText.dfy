/** The text of a notification within a budget of characters. */
module MessageText {
  import opened Wrappers

  const ELLIPSIS := '\U{2026}'
  const COLON := '\U{FF1A}'
  const BREAK := "\n\n"

  datatype Field = Field(name: string, value: string, url: Option<string>)

  datatype Message = Message(title: string, fields: seq<Field>, bodyLabel: string, body: string)

  function Smaller(a: nat, b: nat): nat { if a < b then a else b }

  function Truncate(text: string, limit: nat): (r: string)
    ensures |r| <= limit && (r == text <==> |text| <= limit)
    ensures |text| > limit > 0 ==> |r| == limit && r[..limit - 1] <= text && r[limit - 1] == ELLIPSIS
  {
    if |text| <= limit then text
    else if limit == 0 then []
    else text[..limit - 1] + [ELLIPSIS]
  }

  // ----- Paragraphs

  predicate Blank(line: string) { forall i :: 0 <= i < |line| ==> White(line[i]) }

  /** A line that ended in a line feed, without the carriage return before it. */
  function Chomped(line: string): string {
    if line != [] && line[|line| - 1] == '\r' then line[..|line| - 1] else line
  }

  function Lines(text: string, line: string): seq<string>
    decreases |text|
  {
    if text == [] then (if line == [] then [] else [line])
    else if text[0] == '\n' then [Chomped(line)] + Lines(text[1..], [])
    else Lines(text[1..], line + [text[0]])
  }

  function NonBlank(lines: seq<string>): seq<string>
    decreases |lines|
  {
    if lines == [] then [] else (if Blank(lines[0]) then [] else [lines[0]]) + NonBlank(lines[1..])
  }

  function Joined(lines: seq<string>): string
    decreases |lines|
  {
    if lines == [] then [] else if |lines| == 1 then lines[0] else lines[0] + (BREAK + Joined(lines[1..]))
  }

  function Paragraphs(text: string): string { Joined(NonBlank(Lines(text, []))) }

  // ----- Lines

  /** A line ends at a line feed, and the carriage return before it belongs to the ending. */
  lemma {:induction false} LinesSplit(line: string, a: string, b: string)
    requires '\n' !in a
    ensures Lines(a + (['\n'] + b), line) == [Chomped(line + a)] + Lines(b, [])
    decreases |a|
  {
    if a == [] {
      assert a + (['\n'] + b) == ['\n'] + b && (['\n'] + b)[1..] == b && line + a == line;
    } else {
      assert (a + (['\n'] + b))[0] == a[0] && (a + (['\n'] + b))[1..] == a[1..] + (['\n'] + b);
      assert (line + [a[0]]) + a[1..] == line + a;
      LinesSplit(line + [a[0]], a[1..], b);
    }
  }

  /** What follows the last line feed is a line, as it is, unless it is empty. */
  lemma {:induction false} LastLine(line: string, a: string)
    requires '\n' !in a
    ensures Lines(a, line) == if line + a == [] then [] else [line + a]
    decreases |a|
  {
    if a == [] {
      assert line + a == line;
    } else {
      assert (line + [a[0]]) + a[1..] == line + a;
      LastLine(line + [a[0]], a[1..]);
    }
  }

  /** Lines with something to read, none of which holds a line feed. */
  predicate Paragraph(line: string) { !Blank(line) && '\n' !in line }

  predicate Readable(lines: seq<string>) { forall i :: 0 <= i < |lines| ==> Paragraph(lines[i]) }

  predicate Returns(line: string) { line != [] && line[|line| - 1] == '\r' }

  /** No line but the last still ends in a carriage return. */
  predicate Unreturned(lines: seq<string>) { forall i :: 0 <= i < |lines| - 1 ==> !Returns(lines[i]) }

  lemma {:induction false} LinesAreLines(text: string, line: string)
    requires '\n' !in line
    ensures Readable(NonBlank(Lines(text, line)))
    decreases |text|
  {
    if text == [] {
      NonBlankOne(line);
    } else if text[0] == '\n' {
      LinesAreLines(text[1..], []);
    } else {
      LinesAreLines(text[1..], line + [text[0]]);
    }
  }

  lemma {:induction false} NonBlankOne(line: string)
    ensures NonBlank([line]) == if Blank(line) then [] else [line]
  {
    assert [line][1..] == [] && NonBlank([]) == [];
  }

  lemma {:induction false} ChompedStays(line: string)
    requires Paragraph(line)
    ensures !Blank(Chomped(line))
    ensures Chomped(line) == line <==> !Returns(line)
  {
    var k :| 0 <= k < |line| && !White(line[k]);
    assert White('\r');
    if line[|line| - 1] == '\r' { assert Chomped(line)[k] == line[k]; }
  }

  /** The lines of joined lines: one, and after its empty line the others. */
  lemma {:induction false} JoinedSplit(first: string, rest: string)
    requires Paragraph(first)
    ensures NonBlank(Lines(first + (BREAK + rest), [])) == [Chomped(first)] + NonBlank(Lines(rest, []))
  {
    assert BREAK + rest == ['\n'] + (['\n'] + rest);
    assert [] + first == first && [] + (['\n'] + rest) == ['\n'] + rest;
    LinesSplit([], first, ['\n'] + rest);
    LinesSplit([], [], rest);
    ChompedStays(first);
    var lines := Lines(rest, []);
    assert ([[]] + lines)[1..] == lines && NonBlank([[]] + lines) == NonBlank(lines);
    assert ([Chomped(first)] + ([[]] + lines))[1..] == [[]] + lines;
  }

  /** Lines joined to paragraphs are read back, except for carriage returns left at their ends. */
  lemma {:induction false} JoinedLines(lines: seq<string>)
    requires Readable(lines)
    ensures NonBlank(Lines(Joined(lines), [])) == lines <==> Unreturned(lines)
    decreases |lines|
  {
    if |lines| == 1 {
      assert [] + lines[0] == lines[0];
      LastLine([], lines[0]);
      NonBlankOne(lines[0]);
    } else if |lines| > 1 {
      var rest := lines[1..];
      JoinedLines(rest);
      JoinedSplit(lines[0], Joined(rest));
      ChompedStays(lines[0]);
      assert lines == [lines[0]] + rest;
      var read := NonBlank(Lines(Joined(rest), []));
      assert ([Chomped(lines[0])] + read)[1..] == read;
      LastMatters(lines);
    }
  }

  lemma {:induction false} LastMatters(lines: seq<string>)
    requires |lines| > 1
    ensures Unreturned(lines) <==> !Returns(lines[0]) && Unreturned(lines[1..])
  {
    var rest := lines[1..];
    assert forall i :: 0 <= i < |rest| ==> rest[i] == lines[i + 1];
    if !Returns(lines[0]) && Unreturned(rest) {
      forall i | 0 <= i < |lines| - 1 ensures !Returns(lines[i]) {
        if i > 0 { assert lines[i] == rest[i - 1]; }
      }
    }
  }

  /**
   * Paragraphs hold the non-blank lines of the text, in order, and nothing else to read. A carriage
   * return is lost only if it is left at the end of one of them that is not the last.
   */
  lemma {:induction false} ParagraphsKeepLines(text: string)
    ensures Readable(NonBlank(Lines(text, [])))
    ensures NonBlank(Lines(Paragraphs(text), [])) == NonBlank(Lines(text, [])) <==> Unreturned(NonBlank(Lines(text, [])))
  {
    LinesAreLines(text, []);
    JoinedLines(NonBlank(Lines(text, [])));
  }

  // ----- The text

  function FieldText(f: Field): string {
    match f.url
    case Some(url) =>
      BREAK + (Truncate(f.name, 40) + ([COLON] + (Paragraphs(Truncate(f.value, 80)) + (BREAK + url))))
    case None => BREAK + (Truncate(f.name, 40) + ([COLON] + Paragraphs(Truncate(f.value, 160))))
  }

  /** The fields that find room: each needs its own text and 300 characters more, after `used`. */
  function Kept(text: Field -> string, fields: seq<Field>, used: nat, limit: nat): seq<Field>
    decreases |fields|
  {
    if fields == [] then []
    else if used + |text(fields[0])| + 300 <= limit then
      [fields[0]] + Kept(text, fields[1..], used + |text(fields[0])|, limit)
    else Kept(text, fields[1..], used, limit)
  }

  function Metadata(text: Field -> string, fields: seq<Field>): string
    decreases |fields|
  {
    if fields == [] then [] else text(fields[0]) + Metadata(text, fields[1..])
  }

  function Title(m: Message, limit: nat): string { Truncate(m.title, Smaller(160, limit)) }

  function KeptOf(m: Message, limit: nat): seq<Field> { Kept(FieldText, m.fields, |Title(m, limit)|, limit) }

  function Prefix(m: Message, limit: nat): string {
    (Title(m, limit) + Metadata(FieldText, KeptOf(m, limit))) + (BREAK + (Truncate(m.bodyLabel, 40) + ([COLON] + BREAK)))
  }

  function Budget(m: Message, limit: nat): nat {
    if |Prefix(m, limit)| < limit then limit - |Prefix(m, limit)| else 0
  }

  function TextOf(m: Message, limit: nat): string {
    Truncate(Prefix(m, limit) + Truncate(m.body, Budget(m, limit)), limit)
  }

  lemma {:induction false} MetadataAppend(text: Field -> string, a: seq<Field>, b: seq<Field>)
    ensures Metadata(text, a + b) == Metadata(text, a) + Metadata(text, b)
    decreases |a|
  {
    if a == [] {
      assert a + b == b;
    } else {
      assert (a + b)[0] == a[0] && (a + b)[1..] == a[1..] + b;
      MetadataAppend(text, a[1..], b);
      Associative(text(a[0]), Metadata(text, a[1..]), Metadata(text, b));
    }
  }

  lemma {:induction false} MetadataOne(text: Field -> string, f: Field)
    ensures Metadata(text, [f]) == text(f)
  {
    assert [f][1..] == [] && text(f) + [] == text(f);
  }

  /** The loop over the fields. */
  method Collect(text: Field -> string, fields: seq<Field>, used: nat, limit: nat) returns (metadata: string)
    ensures metadata == Metadata(text, Kept(text, fields, used, limit))
  {
    metadata := "";
    ghost var kept: seq<Field>, rest := [], fields;
    var i := 0;
    while i < |fields|
      invariant 0 <= i <= |fields| && rest == fields[i..]
      invariant metadata == Metadata(text, kept)
      invariant kept + Kept(text, rest, used + |metadata|, limit) == Kept(text, fields, used, limit)
    {
      var field := fields[i];
      assert field == rest[0];
      var value := text(field);
      if used + |metadata| + |value| + 300 <= limit {
        MetadataAppend(text, kept, [field]);
        MetadataOne(text, field);
        Associative(kept, [field], Kept(text, rest[1..], used + |metadata| + |value|, limit));
        metadata := metadata + value;
        kept := kept + [field];
      }
      i := i + 1;
      rest := rest[1..];
    }
    assert kept + [] == kept;
  }

  method Text(m: Message, limit: nat) returns (r: string)
    ensures r == TextOf(m, limit)
  {
    var title := Truncate(m.title, Smaller(160, limit));
    var metadata := Collect(FieldText, m.fields, |title|, limit);
    var prefix := (title + metadata) + (BREAK + (Truncate(m.bodyLabel, 40) + ([COLON] + BREAK)));
    var budget := if |prefix| < limit then limit - |prefix| else 0;
    r := Truncate(prefix + Truncate(m.body, budget), limit);
  }

  // ----- What the budget guarantees

  /** Whatever is kept leaves 300 characters after the title and all metadata. */
  lemma {:induction false} KeptLeavesRoom(text: Field -> string, fields: seq<Field>, used: nat, limit: nat)
    ensures
      var kept := Kept(text, fields, used, limit);
      kept != [] ==> used + |Metadata(text, kept)| + 300 <= limit
    decreases |fields|
  {
    if fields != [] {
      var f, n := fields[0], |text(fields[0])|;
      if used + n + 300 <= limit {
        var tail := Kept(text, fields[1..], used + n, limit);
        KeptLeavesRoom(text, fields[1..], used + n, limit);
        MetadataAppend(text, [f], tail);
        MetadataOne(text, f);
        assert tail == [] ==> Metadata(text, tail) == [];
      } else {
        KeptLeavesRoom(text, fields[1..], used, limit);
      }
    }
  }

  /** Fields are kept in order, and each by what was kept before it. */
  lemma {:induction false} KeptAppend(text: Field -> string, a: seq<Field>, b: seq<Field>, used: nat, limit: nat)
    ensures
      Kept(text, a + b, used, limit) ==
      Kept(text, a, used, limit) + Kept(text, b, used + |Metadata(text, Kept(text, a, used, limit))|, limit)
    decreases |a|
  {
    if a == [] {
      assert a + b == b;
    } else {
      assert (a + b)[0] == a[0] && (a + b)[1..] == a[1..] + b;
      var n := |text(a[0])|;
      if used + n + 300 <= limit {
        KeptAppend(text, a[1..], b, used + n, limit);
        var tail := Kept(text, a[1..], used + n, limit);
        assert ([a[0]] + tail)[1..] == tail;
      } else {
        KeptAppend(text, a[1..], b, used, limit);
      }
    }
  }

  lemma {:induction false} KeptFirst(text: Field -> string, f: Field, b: seq<Field>, used: nat, limit: nat)
    ensures
      var room := used + |text(f)| + 300 <= limit;
      Kept(text, [f] + b, used, limit) ==
      (if room then [f] else []) + Kept(text, b, if room then used + |text(f)| else used, limit)
  {
    assert ([f] + b)[1..] == b;
  }

  /** A field is kept if and only if it leaves 300 characters after `used` and the fields kept before it. */
  lemma {:induction false} KeptExactly(
    text: Field -> string, a: seq<Field>, f: Field, b: seq<Field>, used: nat, limit: nat)
    ensures
      var before := Kept(text, a, used, limit);
      var taken := used + |Metadata(text, before)|;
      var room := taken + |text(f)| + 300 <= limit;
      Kept(text, a + ([f] + b), used, limit) ==
      before + ((if room then [f] else []) + Kept(text, b, if room then taken + |text(f)| else taken, limit))
  {
    KeptAppend(text, a, [f] + b, used, limit);
    KeptFirst(text, f, b, used + |Metadata(text, Kept(text, a, used, limit))|, limit);
  }

  /** Every field is kept if all of them leave room. */
  lemma {:induction false} EverythingFits(text: Field -> string, fields: seq<Field>, used: nat, limit: nat)
    requires used + |Metadata(text, fields)| + 300 <= limit
    ensures Kept(text, fields, used, limit) == fields
    decreases |fields|
  {
    if fields != [] {
      EverythingFits(text, fields[1..], used + |text(fields[0])|, limit);
      assert fields == [fields[0]] + fields[1..];
    }
  }

  lemma {:induction false} PrefixFits(m: Message, limit: nat)
    requires KeptOf(m, limit) != [] || limit >= 205
    ensures |Prefix(m, limit)| <= limit
    ensures KeptOf(m, limit) != [] ==> |Prefix(m, limit)| + 255 <= limit
  {
    KeptLeavesRoom(FieldText, m.fields, |Title(m, limit)|, limit);
    if KeptOf(m, limit) == [] { assert Metadata(FieldText, KeptOf(m, limit)) == []; }
  }

  /**
   * The text never exceeds the limit. The last truncation cuts nothing exactly when what comes
   * before the body fits, and it does as soon as a field is kept or the limit is 205; a kept field
   * leaves the body its full text or at least 255 characters.
   */
  lemma {:induction false} TextWithinLimit(m: Message, limit: nat)
    ensures |TextOf(m, limit)| <= limit
    ensures
      TextOf(m, limit) == Prefix(m, limit) + Truncate(m.body, Budget(m, limit)) <==> |Prefix(m, limit)| <= limit
    ensures KeptOf(m, limit) != [] || limit >= 205 ==> |Prefix(m, limit)| <= limit
    ensures KeptOf(m, limit) != [] ==> Truncate(m.body, Budget(m, limit)) == m.body || Budget(m, limit) >= 255
  {
    if KeptOf(m, limit) != [] || limit >= 205 { PrefixFits(m, limit); }
  }

  predicate At(text: string, part: string, i: nat) {
    i + |part| <= |text| && forall k :: 0 <= k < |part| ==> part[k] == text[i + k]
  }

  lemma {:induction false} AtAfter(before: string, part: string, after: string)
    ensures At(before + (part + after), part, |before|)
  {
  }

  /** A kept field's text appears in the metadata as it is. */
  lemma {:induction false} KeptAppears(text: Field -> string, fields: seq<Field>, k: nat) returns (i: nat)
    requires k < |fields|
    ensures At(Metadata(text, fields), text(fields[k]), i)
  {
    var a, f, b := fields[..k], fields[k], fields[k + 1..];
    assert fields == a + ([f] + b);
    MetadataAppend(text, a, [f] + b);
    MetadataAppend(text, [f], b);
    MetadataOne(text, f);
    i := |Metadata(text, a)|;
    AtAfter(Metadata(text, a), text(f), Metadata(text, b));
  }

  lemma {:induction false} UrlEnds(f: Field) returns (i: nat)
    requires f.url.Some?
    ensures At(FieldText(f), f.url.value, i)
  {
    var url := f.url.value;
    var a, b := Truncate(f.name, 40), Paragraphs(Truncate(f.value, 80));
    Associative(b, BREAK, url);
    Associative([COLON], b + BREAK, url);
    Associative(a, [COLON] + (b + BREAK), url);
    Associative(BREAK, a + ([COLON] + (b + BREAK)), url);
    var before := BREAK + (a + ([COLON] + (b + BREAK)));
    assert FieldText(f) == before + url;
    i := |before|;
  }

  lemma {:induction false} AtWithin(text: string, part: string, i: nat, piece: string, j: nat)
    requires At(text, part, i) && At(part, piece, j)
    ensures At(text, piece, i + j)
  {
    forall k | 0 <= k < |piece| ensures piece[k] == text[i + j + k] { assert piece[k] == part[j + k]; }
  }

  /** The title, the metadata and what follows them. */
  lemma {:induction false} TextInParts(m: Message, limit: nat) returns (rest: string)
    requires |Prefix(m, limit)| <= limit
    ensures TextOf(m, limit) == Title(m, limit) + (Metadata(FieldText, KeptOf(m, limit)) + rest)
  {
    TextWithinLimit(m, limit);
    var title, metadata := Title(m, limit), Metadata(FieldText, KeptOf(m, limit));
    var end := BREAK + (Truncate(m.bodyLabel, 40) + ([COLON] + BREAK));
    var body := Truncate(m.body, Budget(m, limit));
    Associative(title + metadata, end, body);
    Associative(title, metadata, end + body);
    rest := end + body;
  }

  lemma {:induction false} UrlInMetadata(fields: seq<Field>, k: nat) returns (i: nat)
    requires k < |fields| && fields[k].url.Some?
    ensures At(Metadata(FieldText, fields), fields[k].url.value, i)
  {
    var start := KeptAppears(FieldText, fields, k);
    var offset := UrlEnds(fields[k]);
    AtWithin(Metadata(FieldText, fields), FieldText(fields[k]), start, fields[k].url.value, offset);
    i := start + offset;
  }

  /** The address of every kept field is in the text, complete. */
  lemma {:induction false} UrlsAreComplete(m: Message, limit: nat, k: nat) returns (i: nat)
    requires k < |KeptOf(m, limit)| && KeptOf(m, limit)[k].url.Some?
    ensures At(TextOf(m, limit), KeptOf(m, limit)[k].url.value, i)
  {
    var kept := KeptOf(m, limit);
    var metadata := Metadata(FieldText, kept);
    PrefixFits(m, limit);
    var rest := TextInParts(m, limit);
    var offset := UrlInMetadata(kept, k);
    AtAfter(Title(m, limit), metadata, rest);
    AtWithin(TextOf(m, limit), metadata, |Title(m, limit)|, kept[k].url.value, offset);
    i := |Title(m, limit)| + offset;
  }

  // ----- What can be read

  ghost predicate Shows(text: string, part: string) { exists i: nat :: At(text, part, i) }

  lemma {:induction false} ShowsAmong(before: string, part: string, after: string)
    ensures Shows(before + (part + after), part)
  {
    AtAfter(before, part, after);
  }

  lemma {:induction false} ShowsWithin(text: string, part: string, piece: string)
    requires Shows(text, part) && Shows(part, piece)
    ensures Shows(text, piece)
  {
    var i: nat :| At(text, part, i);
    var j: nat :| At(part, piece, j);
    AtWithin(text, part, i, piece, j);
  }

  lemma {:induction false} AtEnd(before: string, part: string)
    ensures Shows(before + part, part)
  {
    assert At(before + part, part, |before|);
  }

  lemma {:induction false} JoinedOne(line: string)
    ensures Joined([line]) == line && Shows(line, line)
  {
    assert At(line, line, 0);
  }

  lemma {:induction false} JoinedMore(line: string, rest: seq<string>)
    requires rest != []
    ensures Joined([line] + rest) == line + (BREAK + Joined(rest))
    ensures Shows(Joined([line] + rest), line) && Shows(Joined([line] + rest), Joined(rest))
  {
    assert ([line] + rest)[1..] == rest;
    assert At(line + (BREAK + Joined(rest)), line, 0);
    AtEnd(line + BREAK, Joined(rest));
    Associative(line, BREAK, Joined(rest));
  }

  lemma {:induction false} JoinedShows(lines: seq<string>, k: nat)
    requires k < |lines|
    ensures Shows(Joined(lines), lines[k])
    decreases k
  {
    var rest := lines[1..];
    assert lines == [lines[0]] + rest;
    if rest == [] {
      JoinedOne(lines[0]);
    } else {
      JoinedMore(lines[0], rest);
      if k > 0 {
        JoinedShows(rest, k - 1);
        ShowsWithin(Joined(lines), Joined(rest), lines[k]);
      }
    }
  }

  /** The value of a field, shortened more if an address follows. */
  function Value(f: Field): string { Truncate(f.value, if f.url.Some? then 80 else 160) }

  lemma {:induction false} FieldParts(f: Field)
    ensures Shows(FieldText(f), Truncate(f.name, 40) + [COLON])
    ensures Shows(FieldText(f), Paragraphs(Value(f)))
    ensures f.url.Some? ==> Shows(FieldText(f), f.url.value)
  {
    var name, value := Truncate(f.name, 40), Paragraphs(Value(f));
    var end := if f.url.Some? then BREAK + f.url.value else [];
    assert value + [] == value;
    assert FieldText(f) == BREAK + (name + ([COLON] + (value + end)));
    Associative(name, [COLON], value + end);
    ShowsAmong(BREAK, name + [COLON], value + end);
    Associative(BREAK, name + [COLON], value + end);
    ShowsAmong(BREAK + (name + [COLON]), value, end);
    if f.url.Some? { var i := UrlEnds(f); }
  }

  /** A field's text shows its name, every non-blank line of its value, and its address. */
  lemma {:induction false} FieldShows(f: Field)
    ensures Shows(FieldText(f), Truncate(f.name, 40) + [COLON])
    ensures forall line :: line in NonBlank(Lines(Value(f), [])) ==> Shows(FieldText(f), line)
    ensures f.url.Some? ==> Shows(FieldText(f), f.url.value)
  {
    FieldParts(f);
    var lines := NonBlank(Lines(Value(f), []));
    forall line | line in lines ensures Shows(FieldText(f), line) {
      var k :| 0 <= k < |lines| && lines[k] == line;
      JoinedShows(lines, k);
      ShowsWithin(FieldText(f), Joined(lines), line);
    }
  }

  /** The title, the name of the body and the body, as far as it has room. */
  lemma {:induction false} FrameShows(m: Message, limit: nat)
    requires |Prefix(m, limit)| <= limit
    ensures Title(m, limit) <= TextOf(m, limit)
    ensures Shows(TextOf(m, limit), Truncate(m.bodyLabel, 40) + [COLON])
    ensures Shows(TextOf(m, limit), Truncate(m.body, Budget(m, limit)))
  {
    TextWithinLimit(m, limit);
    var head, name := Title(m, limit) + Metadata(FieldText, KeptOf(m, limit)), Truncate(m.bodyLabel, 40);
    var body := Truncate(m.body, Budget(m, limit));
    AtEnd(Prefix(m, limit), body);
    Associative(head, BREAK + (name + ([COLON] + BREAK)), body);
    Associative(BREAK, name + ([COLON] + BREAK), body);
    Associative(name, [COLON] + BREAK, body);
    Associative([COLON], BREAK, body);
    Associative(name, [COLON], BREAK + body);
    Associative(head, BREAK, (name + [COLON]) + (BREAK + body));
    ShowsAmong(head + BREAK, name + [COLON], BREAK + body);
    Associative(Title(m, limit), Metadata(FieldText, KeptOf(m, limit)), BREAK + ((name + [COLON]) + (BREAK + body)));
  }

  lemma {:induction false} KeptShows(m: Message, limit: nat, f: Field)
    requires f in KeptOf(m, limit)
    ensures Shows(TextOf(m, limit), FieldText(f))
  {
    var kept := KeptOf(m, limit);
    var k :| 0 <= k < |kept| && kept[k] == f;
    PrefixFits(m, limit);
    var rest := TextInParts(m, limit);
    var i := KeptAppears(FieldText, kept, k);
    ShowsAmong(Title(m, limit), Metadata(FieldText, kept), rest);
    ShowsWithin(TextOf(m, limit), Metadata(FieldText, kept), FieldText(f));
  }

  /** Of a kept field the text shows the name, every non-blank line of the value, and the whole address. */
  lemma {:induction false} FieldIsShown(m: Message, limit: nat, f: Field)
    requires f in KeptOf(m, limit)
    ensures Shows(TextOf(m, limit), Truncate(f.name, 40) + [COLON])
    ensures forall line :: line in NonBlank(Lines(Value(f), [])) ==> Shows(TextOf(m, limit), line)
    ensures f.url.Some? ==> Shows(TextOf(m, limit), f.url.value)
  {
    KeptShows(m, limit, f);
    FieldShows(f);
    ShowsWithin(TextOf(m, limit), FieldText(f), Truncate(f.name, 40) + [COLON]);
    forall line | line in NonBlank(Lines(Value(f), [])) ensures Shows(TextOf(m, limit), line) {
      ShowsWithin(TextOf(m, limit), FieldText(f), line);
    }
    if f.url.Some? { ShowsWithin(TextOf(m, limit), FieldText(f), f.url.value); }
  }
}
