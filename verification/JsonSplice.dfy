/** The walk as it runs: it consumes a token iterator, collects span edits and splices them. */
module JsonSplice {
  import opened Wrappers
  import opened JsonRelocation

  /** A token and where it stands in the text. */
  datatype Span = Span(start: nat, end: nat, token: Token)

  datatype TextEdit = TextEdit(start: nat, end: nat, text: string)

  /** Where token `k - 1` ends. */
  function End(spans: seq<Span>, k: nat): nat
    requires k <= |spans|
  {
    if k == 0 then 0 else spans[k - 1].end
  }

  /** The first `k` tokens come in order and do not overlap; between them lie blanks and comments. */
  predicate Tokenized(original: string, spans: seq<Span>, k: nat)
    requires k <= |spans|
  {
    k > 0 ==>
      && Tokenized(original, spans, k - 1)
      && var span := spans[k - 1];
         && End(spans, k - 1) <= span.start <= span.end <= |original|
         && original[span.start..span.end] == span.token.Source()
  }

  function Tokens(spans: seq<Span>): (r: seq<Token>)
    ensures |r| == |spans| && forall i :: 0 <= i < |spans| ==> r[i] == spans[i].token
    decreases |spans|
  {
    if spans == [] then [] else [spans[0].token] + Tokens(spans[1..])
  }

  /** `s[lo..hi]`, for bounds in order. */
  function Slice(s: string, lo: nat, hi: nat): string { if lo <= hi <= |s| then s[lo..hi] else "" }

  // ----- Splicing

  /** Where edit `k - 1` ends. */
  function Boundary(edits: seq<TextEdit>, k: nat): nat
    requires k <= |edits|
  {
    if k == 0 then 0 else edits[k - 1].end
  }

  /** The first `k` edits are in order and do not overlap. */
  predicate Ordered(original: string, edits: seq<TextEdit>, k: nat)
    requires k <= |edits|
  {
    k > 0 ==>
      && Ordered(original, edits, k - 1)
      && Boundary(edits, k - 1) <= edits[k - 1].start <= edits[k - 1].end <= |original|
  }

  /** The text between two edits and the new text of the second. */
  function Piece(original: string): (nat, TextEdit) -> string {
    (from: nat, edit: TextEdit) => Slice(original, from, edit.start) + edit.text
  }

  /** The pieces of the first `k` edits, joined. */
  function Joined(piece: (nat, TextEdit) -> string, edits: seq<TextEdit>, k: nat): string
    requires k <= |edits|
    decreases k
  {
    if k == 0 then "" else Joined(piece, edits, k - 1) + piece(Boundary(edits, k - 1), edits[k - 1])
  }

  /** The first `k` edits made at once: the text up to the end of the last of them, with every edited span replaced. */
  function Substituted(original: string, edits: seq<TextEdit>, k: nat): string
    requires k <= |edits|
  {
    Joined(Piece(original), edits, k)
  }

  /** `text` has the edits from `k` on made, `tail` is what they made of the end of the text. */
  ghost predicate Spliced(original: string, edits: seq<TextEdit>, k: nat, text: string, tail: string, all: string)
    requires k <= |edits|
  {
    && Boundary(edits, k) <= |original| && text == original[..Boundary(edits, k)] + tail
    && Substituted(original, edits, k) + tail == all
  }

  lemma {:induction false} OneSplice(original: string, tail: string, b: nat, edit: TextEdit)
    requires b <= edit.start <= edit.end <= |original|
    ensures
      var text := original[..edit.end] + tail;
      && edit.end <= |text|
      && text[..edit.start] + edit.text + text[edit.end..]
         == original[..b] + ((original[b..edit.start] + edit.text) + tail)
  {
  }

  lemma {:induction false} SpliceStep(original: string, edits: seq<TextEdit>, k: nat, text: string, tail: string, all: string)
    returns (tail': string)
    requires 0 < k <= |edits| && Ordered(original, edits, k) && Spliced(original, edits, k, text, tail, all)
    ensures
      var TextEdit(start, end, value) := edits[k - 1];
      && start <= end <= |text|
      && Spliced(original, edits, k - 1, text[..start] + value + text[end..], tail', all)
  {
    var b, edit := Boundary(edits, k - 1), edits[k - 1];
    OneSplice(original, tail, b, edit);
    Associative(Substituted(original, edits, k - 1), original[b..edit.start] + edit.text, tail);
    tail' := (original[b..edit.start] + edit.text) + tail;
  }

  lemma {:induction false} OrderedBound(original: string, edits: seq<TextEdit>, k: nat)
    requires k <= |edits| && Ordered(original, edits, k)
    ensures Boundary(edits, k) <= |original|
  {
  }

  /** Splicing ordered, disjoint edits one by one from the right is substituting them all at once. */
  method Splice(original: string, edits: seq<TextEdit>) returns (text: string)
    requires Ordered(original, edits, |edits|)
    ensures Boundary(edits, |edits|) <= |original|
    ensures text == Substituted(original, edits, |edits|) + original[Boundary(edits, |edits|)..]
  {
    OrderedBound(original, edits, |edits|);
    text := original;
    ghost var tail := original[Boundary(edits, |edits|)..];
    ghost var all := Substituted(original, edits, |edits|) + tail;
    var k := |edits|;
    while k > 0
      invariant 0 <= k <= |edits| && Ordered(original, edits, k)
      invariant Spliced(original, edits, k, text, tail, all)
    {
      tail := SpliceStep(original, edits, k, text, tail, all);
      k := k - 1;
      var TextEdit(start, end, value) := edits[k];
      text := text[..start] + value + text[end..];
    }
    assert text == tail && all == tail;
  }

  // ----- Edits between two versions of the tokens

  function EditOf(span: Span, token: Token): seq<TextEdit> {
    if span.token == token then [] else [TextEdit(span.start, span.end, token.Source())]
  }

  /** The edits that turn each of the first `k` tokens into the one of `out`. */
  function EditsTo(spans: seq<Span>, out: seq<Token>, k: nat): (edits: seq<TextEdit>)
    requires k <= |spans| && k <= |out|
  {
    if k == 0 then [] else EditsTo(spans, out, k - 1) + EditOf(spans[k - 1], out[k - 1])
  }

  /** The text up to the end of token `k - 1`: the gaps of the original with the tokens of `out`. */
  function Assembled(original: string, spans: seq<Span>, out: seq<Token>, k: nat): string
    requires k <= |spans| && k <= |out|
  {
    if k == 0 then ""
    else
      Assembled(original, spans, out, k - 1)
      + (Slice(original, End(spans, k - 1), spans[k - 1].start) + out[k - 1].Source())
  }

  lemma {:induction false} OrderedPrefix(original: string, edits: seq<TextEdit>, edit: TextEdit, k: nat)
    requires k <= |edits|
    ensures Ordered(original, edits + [edit], k) == Ordered(original, edits, k)
  {
    if k > 0 { OrderedPrefix(original, edits, edit, k - 1); }
  }

  lemma {:induction false} EditKeepsOrder(original: string, edits: seq<TextEdit>, span: Span, token: Token)
    requires Ordered(original, edits, |edits|) && Boundary(edits, |edits|) <= span.start <= span.end <= |original|
    ensures
      var all := edits + EditOf(span, token);
      Ordered(original, all, |all|) && Boundary(all, |all|) <= span.end
  {
    if span.token == token {
      assert edits + EditOf(span, token) == edits;
    } else {
      OrderedPrefix(original, edits, TextEdit(span.start, span.end, token.Source()), |edits|);
    }
  }

  lemma {:induction false} EditsAreOrdered(original: string, spans: seq<Span>, out: seq<Token>, k: nat)
    requires k <= |spans| && k <= |out| && Tokenized(original, spans, k)
    ensures
      var edits := EditsTo(spans, out, k);
      Ordered(original, edits, |edits|) && Boundary(edits, |edits|) <= End(spans, k) <= |original|
  {
    if k > 0 {
      EditsAreOrdered(original, spans, out, k - 1);
      EditKeepsOrder(original, EditsTo(spans, out, k - 1), spans[k - 1], out[k - 1]);
    }
  }

  lemma {:induction false} JoinedPrefix(piece: (nat, TextEdit) -> string, edits: seq<TextEdit>, edit: TextEdit, k: nat)
    requires k <= |edits|
    ensures Joined(piece, edits + [edit], k) == Joined(piece, edits, k)
    decreases k
  {
    if k > 0 { JoinedPrefix(piece, edits, edit, k - 1); }
  }

  lemma {:induction false} TokenKept(original: string, done: string, all: string, b: nat, e: nat, start: nat, end: nat)
    requires b <= e <= start <= end <= |original| && done + original[b..e] == all
    ensures done + original[b..end] == all + (original[e..start] + original[start..end])
  {
    assert original[b..end] == original[b..e] + (original[e..start] + original[start..end]);
    Associative(done, original[b..e], original[e..start] + original[start..end]);
  }

  lemma {:induction false} TokenEdited(original: string, done: string, all: string, b: nat, e: nat, start: nat, text: string)
    requires b <= e <= start <= |original| && done + original[b..e] == all
    ensures done + (original[b..start] + text) == all + (original[e..start] + text)
  {
    assert original[b..start] == original[b..e] + original[e..start];
    Associative(original[b..e], original[e..start], text);
    Associative(done, original[b..e], original[e..start] + text);
  }

  /** The text up to `at` with the edits made. */
  function EditedUpTo(original: string, edits: seq<TextEdit>, at: nat): string {
    Substituted(original, edits, |edits|) + Slice(original, Boundary(edits, |edits|), at)
  }

  lemma {:induction false} EditedFurther(original: string, edits: seq<TextEdit>, e: nat, span: Span, token: Token)
    requires Boundary(edits, |edits|) <= e <= span.start <= span.end <= |original|
    requires original[span.start..span.end] == span.token.Source()
    ensures EditedUpTo(original, edits + EditOf(span, token), span.end)
         == EditedUpTo(original, edits, e) + (original[e..span.start] + token.Source())
  {
    if span.token == token {
      assert edits + EditOf(span, token) == edits;
      TokenKept(original, Substituted(original, edits, |edits|), EditedUpTo(original, edits, e),
                Boundary(edits, |edits|), e, span.start, span.end);
    } else {
      EditedByOne(original, edits, e, TextEdit(span.start, span.end, token.Source()));
    }
  }

  lemma {:induction false} EditedByOne(original: string, edits: seq<TextEdit>, e: nat, edit: TextEdit)
    requires Boundary(edits, |edits|) <= e <= edit.start <= edit.end <= |original|
    ensures EditedUpTo(original, edits + [edit], edit.end)
         == EditedUpTo(original, edits, e) + (original[e..edit.start] + edit.text)
  {
    var b, done, after := Boundary(edits, |edits|), Substituted(original, edits, |edits|), edits + [edit];
    JoinedLast(Piece(original), edits, edit);
    TokenEdited(original, done, EditedUpTo(original, edits, e), b, e, edit.start, edit.text);
    assert Boundary(after, |after|) == edit.end && Slice(original, edit.end, edit.end) == "";
    var text := Substituted(original, after, |after|);
    assert text == done + (original[b..edit.start] + edit.text);
    assert text + "" == text;
  }

  lemma {:induction false} JoinedLast(piece: (nat, TextEdit) -> string, edits: seq<TextEdit>, edit: TextEdit)
    ensures Joined(piece, edits + [edit], |edits| + 1)
         == Joined(piece, edits, |edits|) + piece(Boundary(edits, |edits|), edit)
  {
    JoinedPrefix(piece, edits, edit, |edits|);
  }

  /** Substituting the edited tokens leaves every gap, comment and other token as it was. */
  lemma {:induction false} EditedIsAssembled(original: string, spans: seq<Span>, out: seq<Token>, k: nat)
    requires k <= |spans| && k <= |out| && Tokenized(original, spans, k)
    ensures EditedUpTo(original, EditsTo(spans, out, k), End(spans, k)) == Assembled(original, spans, out, k)
  {
    if k > 0 {
      EditsAreOrdered(original, spans, out, k - 1);
      EditedIsAssembled(original, spans, out, k - 1);
      EditedFurther(original, EditsTo(spans, out, k - 1), End(spans, k - 1), spans[k - 1], out[k - 1]);
    }
  }

  // ----- The walk

  lemma {:induction false} EditsToPrefix(spans: seq<Span>, out: seq<Token>, more: seq<Token>, k: nat)
    requires k <= |spans| && k <= |out|
    ensures EditsTo(spans, out + more, k) == EditsTo(spans, out, k)
  {
    if k > 0 { EditsToPrefix(spans, out, more, k - 1); }
  }

  lemma {:induction false} KeyStep(c: Rules, key: string, ahead: seq<Token>, path: seq<Scalar>, out: seq<Token>)
    requires c.loads(key).Some?
    ensures
      var r := WalkMembers(c, [Word(key)] + ahead, path, out);
      if ahead == [] || ahead[0] != Punct(':') then r == Failed
      else r == AfterMember(c, WalkValue(c, ahead[1..], path + [c.loads(key).value],
                                         out + [Word(c.Key(key, path)), Punct(':')]), path)
  {
    var ts := [Word(key)] + ahead;
    if ahead != [] {
      assert ts[1] == ahead[0] && ts[2..] == ahead[1..];
    }
    assert WalkMembers(c, ts, path, out) == AfterMember(c, WalkMember(c, ts, path, out), path);
  }

  /** The walk over a value, by its first token. */
  lemma {:induction false} ValueStep(c: Rules, token: Token, rest: seq<Token>, path: seq<Scalar>, out: seq<Token>)
    ensures
      var r := WalkValue(c, [token] + rest, path, out);
      && (token == Punct('{') ==> r == WalkMembers(c, rest, path, out + [token]))
      && (token == Punct('[') ==> r == WalkItems(c, rest, path, 0, out + [token]))
      && (token.Punct? && token != Punct('{') && token != Punct('[') ==> r == Failed)
      && (token.Word? && Quoted(token.text) ==>
            r == match c.rewrite(token.text, path) case None => Failed case Some(text) => Walked(out + [Word(text)], rest))
      && (token.Word? && !Quoted(token.text) ==>
            r == if c.loads(token.text).Some? then Walked(out + [token], rest) else Failed)
  {
    assert ([token] + rest)[1..] == rest;
  }

  lemma {:induction false} ObjectEnd(c: Rules, rest: seq<Token>, path: seq<Scalar>, out: seq<Token>)
    ensures WalkMembers(c, [Punct('}')] + rest, path, out) == Walked(out + [Punct('}')], rest)
  {
  }

  lemma {:induction false} ArrayEnd(c: Rules, rest: seq<Token>, path: seq<Scalar>, index: nat, out: seq<Token>)
    ensures WalkItems(c, [Punct(']')] + rest, path, index, out) == Walked(out + [Punct(']')], rest)
  {
  }

  lemma {:induction false} ArrayStep(c: Rules, ts: seq<Token>, path: seq<Scalar>, index: nat, out: seq<Token>)
    requires ts != [] && ts[0] != Punct(']')
    ensures WalkItems(c, ts, path, index, out)
         == AfterArrayItem(c, WalkValue(c, ts, path + [Text(Decimal(index))], out), path, index)
  {
  }

  /** Taking a token as it is adds no edit. */
  lemma {:induction false} TokenTaken(spans: seq<Span>, out: seq<Token>)
    requires |out| < |spans|
    ensures
      EditsTo(spans, out + [spans[|out|].token], |out| + 1) == EditsTo(spans, out, |out|)
  {
    EditsToPrefix(spans, out, [spans[|out|].token], |out|);
    assert EditsTo(spans, out, |out|) + [] == EditsTo(spans, out, |out|);
  }

  lemma {:induction false} FirstAhead(tokens: seq<Token>, pos: nat)
    requires pos < |tokens|
    ensures tokens[pos..] == [tokens[pos]] + tokens[pos + 1..]
  {
  }

  lemma {:induction false} LastTaken(out: seq<Token>, token: Token)
    requires out != [] && out[|out| - 1] == token
    ensures out[..|out| - 1] + [token] == out
  {
  }

  /** The edit for a new text of the token just taken. */
  lemma {:induction false} NewText(spans: seq<Span>, before: seq<Token>, token: string, text: string)
    requires |before| < |spans| && spans[|before|].token == Word(token) && text != token
    ensures
      var k := |before|;
      EditsTo(spans, before + [Word(text)], k + 1)
      == EditsTo(spans, before + [Word(token)], k + 1) + [TextEdit(spans[k].start, spans[k].end, text)]
  {
    EditsToPrefix(spans, before, [Word(token)], |before|);
    EditsToPrefix(spans, before, [Word(text)], |before|);
  }

  lemma {:induction false} NewTextDiffers(c: Codec, token: string, previous: string)
    requires c.Lawful() && c.loads(token) == Some(Text(previous)) && c.relocate(previous) != previous
    ensures c.dumps(c.relocate(previous)) != token
  {
    assert c.loads(c.dumps(c.relocate(previous))) == Some(Text(c.relocate(previous)));
  }

  class Walker {
    const c: Codec
    const spans: seq<Span>
    ghost const rules: Rules
    ghost const tokens: seq<Token>
    var pos: nat                  // of the token iterator
    var edits: seq<TextEdit>
    ghost var out: seq<Token>     // the tokens taken so far, with their new texts

    ghost predicate Valid()
      reads this
    {
      && c.Lawful() && rules == RulesOf(c) && tokens == Tokens(spans)
      && pos <= |spans| && |out| == pos
      && edits == EditsTo(spans, out, pos)
    }

    /** The tokens not yet taken. */
    ghost function Ahead(): seq<Token>
      reads this
      requires pos <= |tokens|
    {
      tokens[pos..]
    }

    constructor (c: Codec, spans: seq<Span>)
      requires c.Lawful()
      ensures Valid() && this.c == c && this.spans == spans && pos == 0 && out == []
    {
      this.c, this.spans, pos, edits, out := c, spans, 0, [], [];
      rules, tokens := RulesOf(c), Tokens(spans);
    }

    method Next() returns (token: Option<Token>)
      requires Valid()
      modifies this
      ensures Valid()
      ensures old(pos) == |spans| ==> token == None && pos == old(pos) && out == old(out)
      ensures old(pos) < |spans| ==>
                && pos == old(pos) + 1 && token == Some(spans[old(pos)].token)
                && out == old(out) + [token.value] && old(Ahead()) == [token.value] + Ahead()
    {
      if pos == |spans| { return None; }
      token := Some(spans[pos].token);
      TokenTaken(spans, out);
      FirstAhead(tokens, pos);
      pos := pos + 1;
      out := out + [token.value];
    }

    /** The token just taken, as it was read. */
    ghost predicate Holds(token: Token)
      reads this
    {
      0 < pos <= |spans| && |out| == pos && spans[pos - 1].token == token && out[pos - 1] == token
    }

    /** The tokens taken before the one just taken. */
    ghost function Before(): seq<Token>
      reads this
    {
      if 0 < pos <= |out| then out[..pos - 1] else []
    }

    /** A new text for the token just taken. */
    method Replace(token: string, text: string)
      requires Valid() && Holds(Word(token)) && text != token
      modifies this`edits, this`out
      ensures Valid() && out == old(Before()) + [Word(text)]
    {
      ghost var before := Before();
      assert out == before + [Word(token)];
      NewText(spans, before, token, text);
      edits := edits + [TextEdit(spans[pos - 1].start, spans[pos - 1].end, text)];
      out := before + [Word(text)];
    }

    method Rewrite(token: string, path: seq<Scalar>) returns (ok: bool)
      requires Valid() && Holds(Word(token))
      modifies this`edits, this`out
      ensures Valid()
      ensures ok <==> c.Rewrite(token, path).Some?
      ensures ok ==> out == old(Before()) + [Word(c.Rewrite(token, path).value)]
    {
      assert out == Before() + [Word(token)];
      if !c.Selected(path) { return true; }
      var previous := c.loads(token);
      if previous.None? { return false; }
      ok := true;
      if previous.value.Text? {
        var relocated := c.relocate(previous.value.s);
        if relocated != previous.value.s {
          NewTextDiffers(c, token, previous.value.s);
          Replace(token, c.dumps(relocated));
        }
      }
    }

    /** A key, which has been taken, and its colon. */
    method TakeKey(key: string, path: seq<Scalar>) returns (ok: bool)
      requires Valid() && Holds(Word(key)) && c.loads(key).Some?
      modifies this
      ensures Valid() && pos >= old(pos)
      ensures !ok ==> WalkMembers(rules, [Word(key)] + old(Ahead()), path, old(Before())) == Failed
      ensures ok ==>
                WalkMembers(rules, [Word(key)] + old(Ahead()), path, old(Before()))
                == AfterMember(rules, WalkValue(rules, Ahead(), path + [c.loads(key).value], out), path)
      ensures ok ==> pos > old(pos)
    {
      ghost var before, ahead := Before(), Ahead();
      ok := Rewrite(key, path + [KEYS]);
      assert out == before + [Word(rules.Key(key, path))];
      var next := Next();
      KeyStep(rules, key, ahead, path, before);
      if next != Some(Punct(':')) { return false; }
      assert ahead[1..] == Ahead();
      assert out == before + [Word(rules.Key(key, path)), Punct(':')];
      return true;
    }

    /** One member: its key has been taken; the token after the member is taken as well. */
    method WalkMember(token: Token, path: seq<Scalar>) returns (next: Option<Token>)
      requires Valid() && Holds(token) && token != Punct('}')
      modifies this
      ensures Valid() && pos >= old(pos)
      ensures next.Some? ==> pos > old(pos) && Holds(next.value)
      ensures next.Some? ==>
        WalkMembers(rules, [token] + old(Ahead()), path, old(Before()))
        == WalkMembers(rules, [next.value] + Ahead(), path, Before())
      ensures next.None? ==> WalkMembers(rules, [token] + old(Ahead()), path, old(Before())) == Failed
      decreases |spans| - pos, 2
    {
      if token.Punct? || c.loads(token.text).None? { return None; }
      var ok := TakeKey(token.text, path);
      if !ok { return None; }
      next := Next();
      if next.None? { return None; }
      ok := Walk(next.value, path + [c.loads(token.text).value]);
      if !ok { return None; }
      next := TakeSeparator(path);
    }

    /** What follows the value of a member, up to the next key or the closing brace. */
    method TakeSeparator(path: seq<Scalar>) returns (next: Option<Token>)
      requires Valid()
      modifies this
      ensures Valid() && pos >= old(pos)
      ensures next.Some? ==> pos > old(pos) && Holds(next.value)
      ensures AfterMember(rules, Walked(old(out), old(Ahead())), path)
           == if next.Some? then WalkMembers(rules, [next.value] + Ahead(), path, Before()) else Failed
    {
      ghost var r := Walked(out, Ahead());
      next := Next();
      if next.None? { return None; }
      assert r.rest[0] == next.value && r.rest[1..] == Ahead() && out == r.out + [next.value];
      if next.value == Punct(',') {
        next := Next();
        return next;
      } else if next.value == Punct('}') {
        ObjectEnd(rules, Ahead(), path, Before());
        return next;
      }
      return None;
    }

    /** One item, whose first token has been taken; the token after the item is taken as well. */
    method WalkItem(token: Token, path: seq<Scalar>, index: nat) returns (next: Option<Token>)
      requires Valid() && Holds(token) && token != Punct(']')
      modifies this
      ensures Valid() && pos >= old(pos)
      ensures next.Some? ==> pos > old(pos) && Holds(next.value)
      ensures next.Some? ==>
        WalkItems(rules, [token] + old(Ahead()), path, index, old(Before()))
        == WalkItems(rules, [next.value] + Ahead(), path, index + 1, Before())
      ensures next.None? ==> WalkItems(rules, [token] + old(Ahead()), path, index, old(Before())) == Failed
      decreases |spans| - pos, 2
    {
      ArrayStep(rules, [token] + Ahead(), path, index, Before());
      var ok := Walk(token, path + [Text(Decimal(index))]);
      if !ok { return None; }
      ghost var r1 := Walked(out, Ahead());
      next := Next();
      if next.None? { return None; }
      assert r1.rest[0] == next.value && r1.rest[1..] == Ahead() && out == r1.out + [next.value];
      if next.value == Punct(',') {
        next := Next();
      } else if next.value != Punct(']') {
        next := None;
      }
    }

    method Walk(token: Token, path: seq<Scalar>) returns (ok: bool)
      requires Valid() && Holds(token)
      modifies this
      ensures Valid() && pos >= old(pos)
      ensures WalkValue(rules, [token] + old(Ahead()), path, old(Before()))
           == if ok then Walked(out, Ahead()) else Failed
      decreases |spans| - pos, 1
    {
      ValueStep(rules, token, Ahead(), path, Before());
      LastTaken(out, token);
      if token == Punct('{') {
        ok := WalkObject(path);
      } else if token == Punct('[') {
        ok := WalkArray(path);
      } else if token.Punct? {
        ok := false;
      } else if Quoted(token.text) {
        ok := Rewrite(token.text, path);
      } else {
        ok := c.loads(token.text).Some?;
      }
    }

    method WalkObject(path: seq<Scalar>) returns (ok: bool)
      requires Valid() && pos > 0
      modifies this
      ensures Valid() && pos >= old(pos)
      ensures WalkMembers(rules, old(Ahead()), path, old(out)) == if ok then Walked(out, Ahead()) else Failed
      decreases |spans| - pos, 0
    {
      var next := Next();
      if next.None? { return false; }
      assert Before() == old(out);
      ok := Members(next.value, path);
    }

    /** The members of an object, from the token after its opening brace. */
    method Members(first: Token, path: seq<Scalar>) returns (ok: bool)
      requires Valid() && Holds(first)
      modifies this
      ensures Valid() && pos >= old(pos)
      ensures ok ==> WalkMembers(rules, [first] + old(Ahead()), path, old(Before())) == Walked(out, Ahead())
      ensures !ok ==> WalkMembers(rules, [first] + old(Ahead()), path, old(Before())) == Failed
      decreases |spans| - pos, 4
    {
      ok := MembersLoop(first, path);
      if ok {
        ObjectEnd(rules, Ahead(), path, Before());
        LastTaken(out, Punct('}'));
      }
    }

    /** The loop over the members of an object, from the token after its opening brace to the closing one. */
    method MembersLoop(first: Token, path: seq<Scalar>) returns (ok: bool)
      requires Valid() && Holds(first)
      modifies this
      ensures Valid() && pos >= old(pos)
      ensures ok ==> Holds(Punct('}'))
      ensures ok ==>
        WalkMembers(rules, [first] + old(Ahead()), path, old(Before()))
        == WalkMembers(rules, [Punct('}')] + Ahead(), path, Before())
      ensures !ok ==> WalkMembers(rules, [first] + old(Ahead()), path, old(Before())) == Failed
      decreases |spans| - pos, 3
    {
      ghost var all := WalkMembers(rules, [first] + Ahead(), path, Before());
      var token := first;
      while token != Punct('}')
        invariant Valid() && Holds(token) && pos >= old(pos)
        invariant WalkMembers(rules, [token] + Ahead(), path, Before()) == all
        decreases |spans| - pos
      {
        var next := WalkMember(token, path);
        if next.None? { return false; }
        token := next.value;
      }
      return true;
    }

    method WalkArray(path: seq<Scalar>) returns (ok: bool)
      requires Valid() && pos > 0
      modifies this
      ensures Valid() && pos >= old(pos)
      ensures WalkItems(rules, old(Ahead()), path, 0, old(out)) == if ok then Walked(out, Ahead()) else Failed
      decreases |spans| - pos, 0
    {
      var next := Next();
      if next.None? { return false; }
      assert Before() == old(out);
      ok := Items(next.value, path);
    }

    /** The items of an array, from the token after its opening bracket. */
    method Items(first: Token, path: seq<Scalar>) returns (ok: bool)
      requires Valid() && Holds(first)
      modifies this
      ensures Valid() && pos >= old(pos)
      ensures ok ==> WalkItems(rules, [first] + old(Ahead()), path, 0, old(Before())) == Walked(out, Ahead())
      ensures !ok ==> WalkItems(rules, [first] + old(Ahead()), path, 0, old(Before())) == Failed
      decreases |spans| - pos, 4
    {
      ghost var index: nat;
      ok, index := ItemsLoop(first, path);
      if ok {
        ArrayEnd(rules, Ahead(), path, index, Before());
        LastTaken(out, Punct(']'));
      }
    }

    /** The loop over the items of an array, from the token after its opening bracket to the closing one. */
    method ItemsLoop(first: Token, path: seq<Scalar>) returns (ok: bool, ghost index: nat)
      requires Valid() && Holds(first)
      modifies this
      ensures Valid() && pos >= old(pos)
      ensures ok ==> Holds(Punct(']'))
      ensures ok ==>
        WalkItems(rules, [first] + old(Ahead()), path, 0, old(Before()))
        == WalkItems(rules, [Punct(']')] + Ahead(), path, index, Before())
      ensures !ok ==> WalkItems(rules, [first] + old(Ahead()), path, 0, old(Before())) == Failed
      decreases |spans| - pos, 3
    {
      ghost var all := WalkItems(rules, [first] + Ahead(), path, 0, Before());
      var token := first;
      var count: nat := 0;
      while token != Punct(']')
        invariant Valid() && Holds(token) && pos >= old(pos)
        invariant WalkItems(rules, [token] + Ahead(), path, count, Before()) == all
        decreases |spans| - pos
      {
        var next := WalkItem(token, path, count);
        if next.None? { return false, 0; }
        count := count + 1;
        token := next.value;
      }
      return true, count;
    }
  }

  /** The walk over a whole document: nothing may follow its value. */
  method WalkAll(c: Codec, spans: seq<Span>) returns (ok: bool, edits: seq<TextEdit>, ghost out: seq<Token>)
    requires c.Lawful()
    ensures ok <==> WalkValue(RulesOf(c), Tokens(spans), [], []).Walked? && WalkValue(RulesOf(c), Tokens(spans), [], []).rest == []
    ensures ok ==> out == WalkValue(RulesOf(c), Tokens(spans), [], []).out && |out| == |spans|
    ensures ok ==> edits == EditsTo(spans, out, |spans|)
  {
    edits, out := [], [];
    var walker := new Walker(c, spans);
    var token := walker.Next();
    if token.None? { return false, [], []; }
    assert [token.value] + walker.Ahead() == Tokens(spans) && walker.Before() == [];
    ok := walker.Walk(token.value, []);
    if !ok { return false, [], []; }
    out := walker.out;
    var extra := walker.Next();
    if extra.Some? { return false, [], []; }
    edits := walker.edits;
  }

  /** A tree whose tokens the document consists of, and which can be rewritten. */
  ghost predicate IsTree(c: Codec, spans: seq<Span>, n: Node) {
    Accepts(RulesOf(c), n, []) && Print(n) == Tokens(spans)
  }

  lemma {:induction false} WalkFindsTrees(c: Codec, spans: seq<Span>)
    ensures
      var r := WalkValue(RulesOf(c), Tokens(spans), [], []);
      && ((r.Walked? && r.rest == []) <==> exists n :: IsTree(c, spans, n))
      && (forall n :: IsTree(c, spans, n) ==> r == Walked(Print(Relocated(RulesOf(c), n, [])), []))
  {
    var rules, ts := RulesOf(c), Tokens(spans);
    var r := WalkValue(rules, ts, [], []);
    WalkIsRelocation(rules, ts);
    if r.Walked? && r.rest == [] {
      var n :| Accepts(rules, n, []) && Print(n) == ts;
      assert IsTree(c, spans, n);
    }
  }

  /**
   * Rewrites a document: it succeeds exactly on the documents that have an acceptable tree, and the
   * result is the original text with only the tokens of that tree exchanged for those of the
   * relocated tree.
   */
  method RelocateJson(c: Codec, original: string, spans: seq<Span>) returns (r: Result<string, ()>)
    requires c.Lawful() && Tokenized(original, spans, |spans|)
    ensures r.Ok? <==> exists n :: IsTree(c, spans, n)
    ensures r.Ok? ==> End(spans, |spans|) <= |original|
    ensures r.Ok? ==> forall n :: IsTree(c, spans, n) ==>
              && |Print(Relocated(RulesOf(c), n, []))| == |spans|
              && r.value == Assembled(original, spans, Print(Relocated(RulesOf(c), n, [])), |spans|)
                            + original[End(spans, |spans|)..]
  {
    WalkFindsTrees(c, spans);
    var ok, edits, out := WalkAll(c, spans);
    if !ok { return Err(()); }
    SplicedIsAssembled(original, spans, out);
    var text := Splice(original, edits);
    return Ok(text);
  }

  lemma {:induction false} SplicedIsAssembled(original: string, spans: seq<Span>, out: seq<Token>)
    requires Tokenized(original, spans, |spans|) && |out| == |spans|
    ensures
      var edits := EditsTo(spans, out, |spans|);
      && Ordered(original, edits, |edits|) && Boundary(edits, |edits|) <= End(spans, |spans|) <= |original|
      && Substituted(original, edits, |edits|) + original[Boundary(edits, |edits|)..]
         == Assembled(original, spans, out, |spans|) + original[End(spans, |spans|)..]
  {
    var edits, e := EditsTo(spans, out, |spans|), End(spans, |spans|);
    EditsAreOrdered(original, spans, out, |spans|);
    EditedIsAssembled(original, spans, out, |spans|);
    JoinRest(original, Substituted(original, edits, |edits|), Boundary(edits, |edits|), e);
  }

  lemma {:induction false} JoinRest(original: string, done: string, b: nat, e: nat)
    requires b <= e <= |original|
    ensures done + original[b..] == (done + original[b..e]) + original[e..]
  {
    assert original[b..] == original[b..e] + original[e..];
    Associative(done, original[b..e], original[e..]);
  }
}
