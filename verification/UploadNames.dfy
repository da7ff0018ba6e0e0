/** The names an upload tries when its own is taken. */
module UploadNames {
  import opened Wrappers
  import opened Utf8

  type text = seq<byte>

  const NAME_BYTES: nat := 255
  const DOT: byte := 0x2E
  /** ` (` and `)` */
  const OPEN: text := [0x20, 0x28]
  const CLOSE: text := [0x29]

  /** The index of the last dot, if there is one. */
  function LastDot(name: text): (r: Option<nat>)
    ensures r.Some? ==> r.value < |name| && name[r.value] == DOT
    ensures r.Some? ==> forall i :: r.value < i < |name| ==> name[i] != DOT
    ensures r.None? ==> DOT !in name
    decreases |name|
  {
    if name == [] then None
    else if name[|name| - 1] == DOT then Some(|name| - 1)
    else LastDot(name[..|name| - 1])
  }

  /** A leading dot does not begin an extension. */
  function StemLength(name: text): (n: nat)
    ensures n <= |name|
  {
    var dot := LastDot(name);
    if dot.Some? && dot.value > 0 then dot.value else |name|
  }

  function Stem(name: text): text { name[..StemLength(name)] }

  function Extension(name: text): text { name[StemLength(name)..] }

  function Digits(n: nat): (r: text)
    ensures |r| > 0 && AllDigits(r)
  {
    Ascii(Decimal(n))
  }

  predicate AllDigits(s: text) { forall i :: 0 <= i < |s| ==> 0x30 <= s[i] < 0x3A }

  function Number(index: nat): text { OPEN + (Digits(index) + CLOSE) }

  function Suffix(name: text, index: nat): text { Number(index) + Extension(name) }

  /** `suffix` after as much of `stem` as fits. */
  function Fitted(stem: text, suffix: text): text
    requires Valid(stem) && |suffix| <= NAME_BYTES
  {
    var maximum := NAME_BYTES - |suffix|;
    stem[..Floor(stem, if |stem| < maximum then |stem| else maximum)] + suffix
  }

  /** The name tried at `index`, or `None` if the suffix alone is too long. */
  function Candidate(name: text, index: nat): Option<text>
    requires Valid(name)
  {
    if index == 0 then Some(name)
    else if |Suffix(name, index)| > NAME_BYTES then None
    else
      StemIsText(name);
      Some(Fitted(Stem(name), Suffix(name, index)))
  }

  // ----- What the names keep

  lemma {:induction false} StemIsText(name: text)
    requires Valid(name)
    ensures Valid(Stem(name)) && Valid(Extension(name))
    ensures name == Stem(name) + Extension(name)
  {
    assert Boundary(name, StemLength(name));
    CutAtBoundary(name, StemLength(name));
  }

  /** At most 255 bytes, valid text, the whole suffix, and a stem cut only as much as it must be. */
  predicate Fits(candidate: text, stem: text, suffix: text) {
    var kept := |candidate| - |suffix|;
    && |candidate| <= NAME_BYTES && Valid(candidate)
    && 0 <= kept <= |stem| && candidate == stem[..kept] + suffix && Boundary(stem, kept)
    && (kept < |stem| ==> |candidate| >= NAME_BYTES - 3)
  }

  lemma {:induction false} FittedFits(stem: text, suffix: text)
    requires Valid(stem) && Valid(suffix) && |suffix| <= NAME_BYTES
    ensures Fits(Fitted(stem, suffix), stem, suffix)
  {
    var maximum := NAME_BYTES - |suffix|;
    var from := if |stem| < maximum then |stem| else maximum;
    FloorIsNear(stem, from);
    assert Boundary(stem, |stem|);
    ValidAppend(stem[..Floor(stem, from)], suffix);
  }

  lemma {:induction false} SuffixIsText(name: text, index: nat)
    requires Valid(name)
    ensures Valid(Suffix(name, index))
  {
    StemIsText(name);
    AsciiIsText(Number(index));
    ValidAppend(Number(index), Extension(name));
  }

  /** A numbered name fits and keeps the number and the extension. */
  lemma {:induction false} CandidateFits(name: text, index: nat)
    requires Valid(name) && index > 0 && Candidate(name, index).Some?
    ensures Fits(Candidate(name, index).value, Stem(name), Number(index) + Extension(name))
  {
    StemIsText(name);
    SuffixIsText(name, index);
    FittedFits(Stem(name), Suffix(name, index));
  }

  lemma {:induction false} CandidateForm(name: text, index: nat) returns (kept: text)
    requires Valid(name) && index > 0 && Candidate(name, index).Some?
    ensures kept <= Stem(name) && Candidate(name, index).value == kept + (Number(index) + Extension(name))
  {
    CandidateFits(name, index);
    kept := Stem(name)[..|Candidate(name, index).value| - |Suffix(name, index)|];
  }

  lemma {:induction false} LastDotIs(a: text, e: text)
    requires DOT !in e
    ensures LastDot(a + ([DOT] + e)) == Some(|a|)
  {
    var name := a + ([DOT] + e);
    assert name[|a|] == DOT;
    assert forall i :: |a| < i < |name| ==> name[i] == e[i - |a| - 1];
  }

  /** The extension is the last dot of a name and what follows it, unless the name begins with it. */
  lemma {:induction false} ExtensionIs(name: text, a: text, e: text)
    requires name == a + ([DOT] + e) && DOT !in e
    ensures Stem(name) == (if a == [] then name else a) && Extension(name) == if a == [] then [] else [DOT] + e
  {
    LastDotIs(a, e);
  }

  /** A numbered name begins and ends as the name does: behind the number stands its extension. */
  lemma {:induction false} ExtensionStays(name: text, index: nat, a: text, e: text) returns (kept: text)
    requires Valid(name) && index > 0 && Candidate(name, index).Some?
    requires name == a + ([DOT] + e) && a != [] && DOT !in e
    ensures kept <= a && Candidate(name, index).value == kept + (Number(index) + ([DOT] + e))
  {
    ExtensionIs(name, a, e);
    kept := CandidateForm(name, index);
  }

  /** Without a dot, but for a leading one, the number comes last. */
  lemma {:induction false} NumberLast(name: text, index: nat) returns (kept: text)
    requires Valid(name) && index > 0 && Candidate(name, index).Some?
    requires forall i :: 0 < i < |name| ==> name[i] != DOT
    ensures kept <= name && Candidate(name, index).value == kept + Number(index)
  {
    assert StemLength(name) == |name|;
    kept := CandidateForm(name, index);
    assert Number(index) + Extension(name) == Number(index);
  }

  lemma {:induction false} DigitsInjective(m: nat, n: nat)
    requires Digits(m) == Digits(n)
    ensures m == n
  {
    var a, b := Decimal(m), Decimal(n);
    assert |a| == |Digits(m)| && |b| == |Digits(n)|;
    forall i | 0 <= i < |a| ensures a[i] == b[i] { assert Digits(m)[i] == Digits(n)[i]; }
    DecimalInjective(m, n);
  }

  /** A number in brackets at the end of a name can be read off. */
  lemma {:induction false} SameNumber(x: text, d: text, y: text, e: text)
    requires AllDigits(d) && AllDigits(e)
    requires x + (OPEN + d) == y + (OPEN + e)
    ensures d == e
  {
    var t := x + (OPEN + d);
    var n := |t|;
    assert t[n - |d|..] == d && t[n - |e|..] == e;
    assert t[n - |d| - 1] == OPEN[1] && t[n - |e| - 1] == OPEN[1];
    assert forall k :: n - |d| <= k < n ==> t[k] != OPEN[1] by {
      forall k | n - |d| <= k < n ensures t[k] != OPEN[1] { assert t[k] == d[k - (n - |d|)]; }
    }
    assert forall k :: n - |e| <= k < n ==> t[k] != OPEN[1] by {
      forall k | n - |e| <= k < n ensures t[k] != OPEN[1] { assert t[k] == e[k - (n - |e|)]; }
    }
  }

  /** The same name with the same extension has the same number. */
  lemma {:induction false} SameSuffix(x: text, i: nat, y: text, j: nat, extension: text)
    requires x + (Number(i) + extension) == y + (Number(j) + extension)
    ensures i == j
  {
    Unbracketed(x, i, extension);
    Unbracketed(y, j, extension);
    SameStart(x + (OPEN + Digits(i)), y + (OPEN + Digits(j)), CLOSE + extension);
    SameNumber(x, Digits(i), y, Digits(j));
    DigitsInjective(i, j);
  }

  /** Numbered names of one upload are pairwise distinct. */
  lemma {:induction false} CandidatesDiffer(name: text, i: nat, j: nat)
    requires Valid(name) && i > 0 && j > 0
    requires Candidate(name, i).Some? && Candidate(name, i) == Candidate(name, j)
    ensures i == j
  {
    var x := CandidateForm(name, i);
    var y := CandidateForm(name, j);
    SameSuffix(x, i, y, j, Extension(name));
  }

  lemma {:induction false} Unbracketed(x: text, index: nat, extension: text)
    ensures x + (Number(index) + extension) == (x + (OPEN + Digits(index))) + (CLOSE + extension)
  {
    Associative(OPEN, Digits(index), CLOSE);
    Associative(OPEN + Digits(index), CLOSE, extension);
    Associative(x, OPEN + Digits(index), CLOSE + extension);
  }
}
