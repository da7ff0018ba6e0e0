/** Writing a message to the system log in chunks that its records can hold. */
module MessageLog {
  import opened Wrappers
  import opened Utf8

  type text = seq<byte>

  const CHUNK_BYTES: nat := 768
  const NUL: byte := 0
  const NEWLINE: byte := 10
  /** `\0`, written out. */
  const ESCAPED_NUL: text := [0x5C, 0x30]
  /** `[continued] ` */
  const CONTINUED: text := [0x5B, 0x63, 0x6F, 0x6E, 0x74, 0x69, 0x6E, 0x75, 0x65, 0x64, 0x5D, 0x20]

  function Escape(s: text): text
    decreases |s|
  {
    if s == [] then [] else (if s[0] == NUL then ESCAPED_NUL else [s[0]]) + Escape(s[1..])
  }

  function TrimEnd(s: text): text
    decreases |s|
  {
    if s != [] && s[|s| - 1] == NEWLINE then TrimEnd(s[..|s| - 1]) else s
  }

  // ----- The chunks

  function Smaller(a: nat, b: nat): nat { if a < b then a else b }

  function Cut(s: text): nat
    requires Valid(s)
  {
    Floor(s, Smaller(|s|, CHUNK_BYTES))
  }

  lemma {:induction false} CutMakesProgress(s: text)
    requires Valid(s) && s != []
    ensures 0 < Cut(s) <= |s| && Valid(s[Cut(s)..]) && Valid(s[..Cut(s)])
    ensures Cut(s) < |s| ==> CHUNK_BYTES - 3 <= Cut(s) <= CHUNK_BYTES
  {
    FloorIsNear(s, Smaller(|s|, CHUNK_BYTES));
    if |s| <= CHUNK_BYTES { assert Boundary(s, |s|); }
  }

  function Chunks(s: text): seq<text>
    requires Valid(s)
    decreases |s|
  {
    if s == [] then []
    else
      CutMakesProgress(s);
      [s[..Cut(s)]] + Chunks(s[Cut(s)..])
  }

  function Concat(chunks: seq<text>): text
    decreases |chunks|
  {
    if chunks == [] then [] else chunks[0] + Concat(chunks[1..])
  }

  /** Every chunk after the first says that it continues the message. */
  function Records(chunks: seq<text>, continued: bool): seq<text>
    decreases |chunks|
  {
    if chunks == [] then []
    else [(if continued then CONTINUED else []) + chunks[0]] + Records(chunks[1..], true)
  }

  /** What a reader of the records can do: drop the mark of continuation, and join. */
  function Joined(records: seq<text>, continued: bool): text
    decreases |records|
  {
    if records == [] then []
    else (if continued && |records[0]| >= |CONTINUED| then records[0][|CONTINUED|..] else records[0])
         + Joined(records[1..], true)
  }

  function Body(message: text): text { TrimEnd(Escape(message)) }

  method Emit(message: text) returns (written: seq<text>)
    requires Valid(message)
    ensures Valid(Body(message))
    ensures written == Records(Chunks(Body(message)), false)
  {
    BodyIsText(message);
    var rest := Body(message);
    var continued := false;
    written := [];
    while rest != []
      invariant Valid(rest)
      invariant written + Records(Chunks(rest), continued) == Records(Chunks(Body(message)), false)
      decreases |rest|
    {
      CutMakesProgress(rest);
      ghost var chunks := Chunks(rest);
      var end := StepBack(rest, CHUNK_BYTES);
      var chunk := rest[..end];
      var record := if continued then CONTINUED + chunk else chunk;
      assert record == (if continued then CONTINUED else []) + chunk;
      assert chunks[0] == chunk && chunks[1..] == Chunks(rest[end..]);
      Associative(written, [record], Records(chunks[1..], true));
      written := written + [record];
      continued := true;
      rest := rest[end..];
    }
  }

  // ----- What the records hold

  /** Within the limit, valid, and close to the limit unless it is the last. */
  predicate GoodChunk(c: text, last: bool) {
    0 < |c| <= CHUNK_BYTES && Valid(c) && (!last ==> |c| >= CHUNK_BYTES - 3)
  }

  lemma {:induction false} ConcatFirst(first: text, rest: seq<text>)
    ensures Concat([first] + rest) == first + Concat(rest)
  {
    assert ([first] + rest)[1..] == rest;
  }

  lemma {:induction false} ChunksJoin(s: text)
    requires Valid(s)
    ensures Concat(Chunks(s)) == s
    decreases |s|
  {
    if s != [] {
      CutMakesProgress(s);
      var first, rest := s[..Cut(s)], s[Cut(s)..];
      ChunksJoin(rest);
      ConcatFirst(first, Chunks(rest));
      SplitAt(s, Cut(s));
    }
  }

  lemma {:induction false} ChunksAreGood(s: text)
    requires Valid(s)
    ensures forall i :: 0 <= i < |Chunks(s)| ==> GoodChunk(Chunks(s)[i], i == |Chunks(s)| - 1)
    decreases |s|
  {
    if s != [] {
      CutMakesProgress(s);
      var first, rest := s[..Cut(s)], s[Cut(s)..];
      ChunksAreGood(rest);
      var chunks, tail := Chunks(s), Chunks(rest);
      assert chunks == [first] + tail && (Cut(s) == |s| ==> tail == []);
      assert Cut(s) < |s| ==> rest != [];
      assert GoodChunk(first, rest == []);
      forall i | 1 <= i < |chunks| ensures GoodChunk(chunks[i], i == |chunks| - 1) {
        assert chunks[i] == tail[i - 1];
      }
    }
  }

  /** No chunk could have held another character. */
  lemma {:induction false} ChunksAreLongest(s: text, k: nat)
    requires Valid(s) && s != [] && Cut(s) < k <= |s| && Valid(s[..k])
    ensures k > CHUNK_BYTES
  {
    if k < |s| && Tail(s[k]) {
      if k <= CHUNK_BYTES { ValidEndsAtBoundary(s, k); }
    } else {
      assert Boundary(s, k);
    }
  }

  /** A valid prefix of valid text ends between characters. */
  lemma {:induction false} ValidEndsAtBoundary(s: text, k: nat)
    requires Valid(s) && k <= |s| && Valid(s[..k])
    ensures Boundary(s, k)
    decreases |s|
  {
    if k > 0 && k < |s| {
      var n := Width(s[0]);
      assert s[..k][0] == s[0] && n <= k;
      assert s[..k][n..] == s[n..][..k - n];
      ValidEndsAtBoundary(s[n..], k - n);
      assert s[n..][k - n] == s[k];
    } else if k == 0 && s != [] {
      assert !Tail(s[..Width(s[0])][0]);
    }
  }

  lemma {:induction false} RecordsJoin(chunks: seq<text>, continued: bool)
    ensures Joined(Records(chunks, continued), continued) == Concat(chunks)
    decreases |chunks|
  {
    if chunks != [] {
      var records := Records(chunks, continued);
      RecordsJoin(chunks[1..], true);
      assert records[1..] == Records(chunks[1..], true);
      if continued { assert (CONTINUED + chunks[0])[|CONTINUED|..] == chunks[0]; }
      else { assert [] + chunks[0] == chunks[0]; }
    }
  }

  lemma {:induction false} EscapeIsText(s: text)
    requires Valid(s)
    ensures Valid(Escape(s)) && NUL !in Escape(s)
    decreases |s|
  {
    if s != [] {
      var n := Width(s[0]);
      var c, rest := s[..n], s[n..];
      EscapeIsText(rest);
      assert s == c + rest;
      if s[0] == NUL {
        assert Escape(s) == ESCAPED_NUL + Escape(rest);
        AsciiIsText(ESCAPED_NUL);
        ValidAppend(ESCAPED_NUL, Escape(rest));
      } else {
        EscapeKeeps(c, rest);
        ValidChar(c, Escape(rest));
      }
    }
  }

  lemma {:induction false} EscapeKeeps(c: text, rest: text)
    requires NUL !in c
    ensures Escape(c + rest) == c + Escape(rest)
    decreases |c|
  {
    if c == [] {
      assert c + rest == rest;
    } else {
      assert (c + rest)[0] == c[0] && (c + rest)[1..] == c[1..] + rest;
      EscapeKeeps(c[1..], rest);
    }
  }

  /** Every NUL is written out, and nothing else changes. */
  lemma {:induction false} EscapeWritesOut(a: text, b: text)
    requires NUL !in a
    ensures Escape(a) == a
    ensures Escape(a + ([NUL] + b)) == a + (ESCAPED_NUL + Escape(b))
  {
    EscapeKeeps(a, []);
    assert a + [] == a && Escape([]) == [];
    EscapeKeeps(a, [NUL] + b);
    assert ([NUL] + b)[1..] == b;
  }

  lemma {:induction false} TrimIsText(s: text)
    requires Valid(s)
    ensures Valid(TrimEnd(s)) && TrimEnd(s) <= s
    decreases |s|
  {
    if s != [] && s[|s| - 1] == NEWLINE {
      var n := |s| - 1;
      assert Boundary(s, n);
      CutAtBoundary(s, n);
      TrimIsText(s[..n]);
    }
  }

  lemma {:induction false} BodyIsText(message: text)
    requires Valid(message)
    ensures Valid(Body(message)) && NUL !in Body(message)
    ensures Body(message) == [] || Body(message)[|Body(message)| - 1] != NEWLINE
  {
    EscapeIsText(message);
    TrimIsText(Escape(message));
    TrimEnds(Escape(message));
  }

  /** Only newlines are cut off, and all of those at the end. */
  lemma {:induction false} TrimEnds(s: text)
    ensures var t := TrimEnd(s);
      && t <= s && (t == [] || t[|t| - 1] != NEWLINE)
      && forall i :: |t| <= i < |s| ==> s[i] == NEWLINE
    decreases |s|
  {
    if s != [] && s[|s| - 1] == NEWLINE {
      TrimEnds(s[..|s| - 1]);
    }
  }

  /**
   * The records of a message: valid text without NUL, of at most 768 bytes besides the mark of
   * continuation, and together the escaped message without its trailing newlines.
   */
  lemma {:induction false} RecordsHoldMessage(message: text)
    requires Valid(message)
    ensures Valid(Body(message))
    ensures
      var chunks, records := Chunks(Body(message)), Records(Chunks(Body(message)), false);
      && Joined(records, false) == Body(message)
      && |records| == |chunks|
      && (forall i :: 0 <= i < |records| ==>
            && GoodChunk(chunks[i], i == |chunks| - 1)
            && records[i] == (if i == 0 then chunks[i] else CONTINUED + chunks[i])
            && Valid(records[i]) && NUL !in records[i])
  {
    BodyIsText(message);
    var chunks := Chunks(Body(message));
    ChunksAreGood(Body(message));
    ChunksJoin(Body(message));
    RecordsJoin(chunks, false);
    RecordsAt(chunks, false);
    assert Valid(CONTINUED) && NUL !in CONTINUED by { Marks(); }
    forall i | 0 <= i < |chunks| ensures NUL !in chunks[i] { ChunkIn(chunks, i); }
    forall i | 1 <= i < |chunks| ensures Valid(CONTINUED + chunks[i]) { ValidAppend(CONTINUED, chunks[i]); }
  }

  lemma {:induction false} RecordsAt(chunks: seq<text>, continued: bool)
    ensures |Records(chunks, continued)| == |chunks|
    ensures forall i :: 0 <= i < |chunks| ==>
      Records(chunks, continued)[i] == if i > 0 || continued then CONTINUED + chunks[i] else chunks[i]
    decreases |chunks|
  {
    if chunks != [] { RecordsAt(chunks[1..], true); }
  }

  lemma {:induction false} ChunkIn(chunks: seq<text>, i: nat)
    requires i < |chunks|
    ensures forall b :: b in chunks[i] ==> b in Concat(chunks)
    decreases |chunks|
  {
    if i > 0 { ChunkIn(chunks[1..], i - 1); }
  }

  lemma {:induction false} Marks()
    ensures Valid(CONTINUED) && NUL !in CONTINUED
  {
    AsciiIsText(CONTINUED);
  }
}
