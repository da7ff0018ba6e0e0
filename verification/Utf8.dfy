/** UTF-8 text as bytes (sections 3 and 4 of RFC 3629), and cutting it between characters. */
module Utf8 {
  import opened Wrappers

  predicate Tail(b: byte) { 0x80 <= b < 0xC0 }

  /** The bytes of one character, by the syntax of UTF-8 byte sequences. */
  predicate Char(s: seq<byte>) {
    || (|s| == 1 && s[0] < 0x80)
    || (|s| == 2 && 0xC2 <= s[0] < 0xE0 && Tail(s[1]))
    || (|s| == 3 && 0xE0 <= s[0] < 0xF0 && Tail(s[1]) && Tail(s[2])
        && (s[0] == 0xE0 ==> s[1] >= 0xA0) && (s[0] == 0xED ==> s[1] < 0xA0))
    || (|s| == 4 && 0xF0 <= s[0] < 0xF5 && Tail(s[1]) && Tail(s[2]) && Tail(s[3])
        && (s[0] == 0xF0 ==> s[1] >= 0x90) && (s[0] == 0xF4 ==> s[1] < 0x90))
  }

  /** The table of section 3: the marks on the bytes of each length, and the number their free bits hold. */
  predicate Marked(s: seq<byte>) {
    || (|s| == 1 && s[0] < 0x80)
    || (|s| == 2 && 0xC0 <= s[0] < 0xE0 && Tail(s[1]))
    || (|s| == 3 && 0xE0 <= s[0] < 0xF0 && Tail(s[1]) && Tail(s[2]))
    || (|s| == 4 && 0xF0 <= s[0] < 0xF8 && Tail(s[1]) && Tail(s[2]) && Tail(s[3]))
  }

  function Number(s: seq<byte>): int
    requires Marked(s)
  {
    var low := (i: int) requires 0 <= i < |s| => s[i] as int - 0x80;
    if |s| == 1 then s[0] as int
    else if |s| == 2 then (s[0] as int - 0xC0) * 64 + low(1)
    else if |s| == 3 then (s[0] as int - 0xE0) * 4096 + low(1) * 64 + low(2)
    else (s[0] as int - 0xF0) * 262144 + low(1) * 4096 + low(2) * 64 + low(3)
  }

  /** The smallest number that needs `n` bytes. */
  function Smallest(n: nat): int { if n <= 1 then 0 else if n == 2 then 0x80 else if n == 3 then 0x800 else 0x10000 }

  /** The characters are the marked bytes of the Unicode scalar values, each in its shortest form. */
  lemma {:induction false} CharsAreScalars(s: seq<byte>)
    ensures
      Char(s) <==>
      Marked(s) && Smallest(|s|) <= Number(s) < 0x110000 && !(0xD800 <= Number(s) < 0xE000)
  {
  }

  /** How many bytes a character has, from its first byte. */
  function Width(first: byte): (n: nat)
    ensures 1 <= n <= 4
  {
    if first < 0x80 then 1 else if first < 0xE0 then 2 else if first < 0xF0 then 3 else 4
  }

  predicate Valid(s: seq<byte>)
    decreases |s|
  {
    s == [] || (Width(s[0]) <= |s| && Char(s[..Width(s[0])]) && Valid(s[Width(s[0])..]))
  }

  /** Neither inside nor past a character: where the text may be cut. */
  predicate Boundary(s: seq<byte>, i: nat) { i <= |s| && (i == |s| || !Tail(s[i])) }

  predicate IsAscii(s: string) { forall i :: 0 <= i < |s| ==> s[i] as int < 0x80 }

  /** The bytes of text that is all ASCII. */
  function Ascii(s: string): (r: seq<byte>)
    requires IsAscii(s)
    ensures |r| == |s| && forall i :: 0 <= i < |s| ==> r[i] == s[i] as int
  {
    seq(|s|, i requires 0 <= i < |s| => s[i] as int)
  }

  // ----- Putting together and cutting apart

  lemma {:induction false} AsciiIsText(s: seq<byte>)
    requires forall i :: 0 <= i < |s| ==> s[i] < 0x80
    ensures Valid(s)
    decreases |s|
  {
    if s != [] { AsciiIsText(s[1..]); }
  }

  lemma {:induction false} ValidChar(c: seq<byte>, rest: seq<byte>)
    requires Char(c) && Valid(rest)
    ensures Valid(c + rest)
  {
    assert (c + rest)[..Width(c[0])] == c && (c + rest)[Width(c[0])..] == rest;
  }

  lemma {:induction false} ValidAppend(a: seq<byte>, b: seq<byte>)
    requires Valid(a) && Valid(b)
    ensures Valid(a + b)
    decreases |a|
  {
    if a == [] {
      assert a + b == b;
    } else {
      var n := Width(a[0]);
      ValidAppend(a[n..], b);
      ValidChar(a[..n], a[n..] + b);
      SplitAt(a, n);
      Associative(a[..n], a[n..], b);
    }
  }

  lemma {:induction false} CutLater(s: seq<byte>, n: nat, i: nat)
    requires n <= i <= |s|
    ensures s[..i] == s[..n] + s[n..][..i - n]
    ensures s[i..] == s[n..][i - n..]
  {
  }

  /** No boundary lies inside the first character. */
  lemma {:induction false} FirstCharacter(s: seq<byte>, i: nat)
    requires Valid(s) && Boundary(s, i) && i > 0
    ensures Width(s[0]) <= i && Boundary(s[Width(s[0])..], i - Width(s[0]))
  {
    var c := s[..Width(s[0])];
    assert forall k :: 1 <= k < |c| ==> Tail(c[k]) && s[k] == c[k];
  }

  /** Cutting valid text at a boundary leaves two valid texts. */
  lemma {:induction false} CutAtBoundary(s: seq<byte>, i: nat)
    requires Valid(s) && Boundary(s, i)
    ensures Valid(s[..i]) && Valid(s[i..])
    decreases |s|
  {
    if i == 0 {
      assert s[0..] == s;
    } else {
      var n := Width(s[0]);
      FirstCharacter(s, i);
      CutAtBoundary(s[n..], i - n);
      ValidChar(s[..n], s[n..][..i - n]);
      CutLater(s, n, i);
    }
  }

  /** A character is at most four bytes long, so a boundary is never more than three bytes back. */
  lemma {:induction false} BoundaryNear(s: seq<byte>, i: nat)
    requires Valid(s) && i <= |s|
    ensures exists j :: 0 <= j <= i && i - j <= 3 && Boundary(s, j)
    decreases |s|
  {
    if i == 0 {
      assert Boundary(s, 0);
    } else {
      var n := Width(s[0]);
      assert !Tail(s[..n][0]);
      if i < n {
        assert Boundary(s, 0);
      } else {
        var rest := s[n..];
        BoundaryNear(rest, i - n);
        var j :| 0 <= j <= i - n && i - n - j <= 3 && Boundary(rest, j);
        if j < |rest| { assert s[n + j] == rest[j]; }
        assert Boundary(s, n + j);
      }
    }
  }

  /** The last boundary at or before `i`. */
  function Floor(s: seq<byte>, i: nat): (j: nat)
    requires Valid(s) && i <= |s|
    ensures j <= i && Boundary(s, j)
    ensures forall k :: j < k <= i ==> !Boundary(s, k)
    decreases i
  {
    if Boundary(s, i) then i
    else
      BoundaryNear(s, i);
      Floor(s, i - 1)
  }

  lemma {:induction false} FloorIsNear(s: seq<byte>, i: nat)
    requires Valid(s) && i <= |s|
    ensures i - Floor(s, i) <= 3
    ensures Valid(s[..Floor(s, i)]) && Valid(s[Floor(s, i)..])
  {
    BoundaryNear(s, i);
    CutAtBoundary(s, Floor(s, i));
  }

  /** The loop that steps back to a boundary. */
  method StepBack(s: seq<byte>, maximum: nat) returns (end: nat)
    requires Valid(s)
    ensures end == Floor(s, if |s| < maximum then |s| else maximum)
  {
    end := if |s| < maximum then |s| else maximum;
    ghost var start := end;
    while !Boundary(s, end)
      invariant end <= |s| && Floor(s, end) == Floor(s, start)
      decreases end
    {
      BoundaryNear(s, end);
      end := end - 1;
    }
  }
}
