/**
 * Rewriting the path strings of a JSONC document in place: a walk over its tokens collects span
 * edits, which are then spliced into the text from right to left.
 */
module JsonRelocation {
  import opened Wrappers

  /** A decoded scalar: a string, or anything else, kept as its text. */
  datatype Scalar = Text(s: string) | Atom(raw: string)

  /** A punctuation mark, or any other token with its text. */
  datatype Token = Punct(mark: char) | Word(text: string) {
    function Source(): string { if Punct? then [mark] else text }
  }

  predicate Quoted(text: string) { text != [] && text[0] == '"' }

  /** JSON decoding and encoding of one token, and the table that relocates paths. */
  datatype Codec = Codec(loads: string -> Option<Scalar>, dumps: string -> string, relocate: string -> string,
                         selectors: seq<seq<string>>)
  {
    ghost predicate Lawful() {
      && (forall text :: loads(text).Some? ==> (Quoted(text) <==> loads(text).value.Text?))
      && (forall s :: Quoted(dumps(s)) && loads(dumps(s)) == Some(Text(s)))
    }

    /** `*` stands for any part of a path. */
    predicate Selected(path: seq<Scalar>) {
      exists i :: 0 <= i < |selectors| && Matches(selectors[i], path)
    }

    /** The text of a string token or key at `path` after the walk; `None` if it cannot be decoded there. */
    function Rewrite(token: string, path: seq<Scalar>): Option<string> {
      if !Selected(path) then Some(token)
      else
        match loads(token)
        case None => None
        case Some(Atom(_)) => Some(token)
        case Some(Text(s)) => Some(if relocate(s) != s then dumps(relocate(s)) else token)
    }
  }

  function RulesOf(c: Codec): Rules { Rules(c.loads, (token, path) => c.Rewrite(token, path)) }

  predicate Matches(selector: seq<string>, path: seq<Scalar>) {
    |selector| == |path| && forall k :: 0 <= k < |path| ==> selector[k] == "*" || path[k] == Text(selector[k])
  }

  /** A selector selects part by part: a name only itself, and the star every part. */
  lemma {:induction false} MatchesByPart(a: seq<string>, key: string, b: seq<string>,
                                         x: seq<Scalar>, part: Scalar, y: seq<Scalar>)
    requires |a| == |x| && |b| == |y|
    ensures
      Matches(a + ([key] + b), x + ([part] + y))
      <==> Matches(a, x) && Matches(b, y) && (key != "*" ==> part == Text(key))
  {
    Around(a, key, b);
    Around(x, part, y);
    var s, p := a + ([key] + b), x + ([part] + y);
    if Matches(a, x) && Matches(b, y) && (key != "*" ==> part == Text(key)) {
      forall k | 0 <= k < |s| ensures s[k] == "*" || p[k] == Text(s[k]) {
        if k > |a| { assert b[k - |a| - 1] == s[k] && y[k - |a| - 1] == p[k]; }
      }
    }
    if Matches(s, p) { PartsMatch(a, key, b, x, part, y); }
  }

  lemma {:induction false} PartsMatch(a: seq<string>, key: string, b: seq<string>,
                                      x: seq<Scalar>, part: Scalar, y: seq<Scalar>)
    requires |a| == |x| && |b| == |y| && Matches(a + ([key] + b), x + ([part] + y))
    ensures Matches(a, x) && Matches(b, y) && (key != "*" ==> part == Text(key))
  {
    var s, p := a + ([key] + b), x + ([part] + y);
    Around(a, key, b);
    Around(x, part, y);
    forall k | 0 <= k < |b| ensures b[k] == "*" || y[k] == Text(b[k]) {
      assert s[|a| + 1 + k] == b[k] && p[|a| + 1 + k] == y[k];
    }
  }

  /** The empty selector selects the whole document, and no selector a path of another length. */
  lemma {:induction false} MatchesLength(selector: seq<string>, path: seq<Scalar>)
    ensures Matches([], path) <==> path == []
    ensures Matches(selector, path) ==> |selector| == |path|
  {
  }

  /** Several selectors select what any of them selects, and none select nothing. */
  lemma {:induction false} SelectedByAny(c: Codec, a: seq<seq<string>>, selector: seq<string>, b: seq<seq<string>>, path: seq<Scalar>)
    ensures
      c.(selectors := a + ([selector] + b)).Selected(path)
      <==> Matches(selector, path) || c.(selectors := a).Selected(path) || c.(selectors := b).Selected(path)
    ensures !c.(selectors := []).Selected(path)
  {
    var all := a + ([selector] + b);
    assert all[|a|] == selector;
    assert forall i :: 0 <= i < |a| ==> all[i] == a[i];
    assert forall i :: 0 <= i < |b| ==> b[i] == all[|a| + 1 + i];
  }

  const KEYS := Text("$keys")

  /**
   * What the walk asks about a token: whether it decodes, and the text a string or key at some path
   * is to have, if it decodes there.
   */
  datatype Rules = Rules(loads: string -> Option<Scalar>, rewrite: (string, seq<Scalar>) -> Option<string>) {
    /** The text of a key of the object at `path`. */
    function Key(token: string, path: seq<Scalar>): string {
      var text := rewrite(token, path + [KEYS]);
      if text.Some? then text.value else token
    }
  }

  // ----- The walk, as a function of the tokens still to be read

  /** `out` are the tokens read so far with their new texts, `rest` those still to be read. */
  datatype Walked = Failed | Walked(out: seq<Token>, rest: seq<Token>)

  function WalkValue(c: Rules, ts: seq<Token>, path: seq<Scalar>, out: seq<Token>): (r: Walked)
    ensures r.Walked? ==> |r.rest| < |ts| && |r.out| + |r.rest| == |out| + |ts|
    decreases |ts|, 1
  {
    if ts == [] then Failed
    else
      match ts[0]
      case Punct(mark) =>
        if mark == '{' then WalkMembers(c, ts[1..], path, out + [ts[0]])
        else if mark == '[' then WalkItems(c, ts[1..], path, 0, out + [ts[0]])
        else Failed
      case Word(text) =>
        if Quoted(text) then
          match c.rewrite(text, path)
          case None => Failed
          case Some(after) => Walked(out + [Word(after)], ts[1..])
        else if c.loads(text).None? then Failed
        else Walked(out + [ts[0]], ts[1..])
  }

  function WalkMembers(c: Rules, ts: seq<Token>, path: seq<Scalar>, out: seq<Token>): (r: Walked)
    ensures r.Walked? ==> |r.rest| < |ts| && |r.out| + |r.rest| == |out| + |ts|
    decreases |ts|, 0
  {
    if ts == [] then Failed
    else if ts[0] == Punct('}') then Walked(out + [ts[0]], ts[1..])
    else AfterMember(c, WalkMember(c, ts, path, out), path)
  }

  /** A key, a colon and a value. */
  function WalkMember(c: Rules, ts: seq<Token>, path: seq<Scalar>, out: seq<Token>): (r: Walked)
    ensures r.Walked? ==> |r.rest| < |ts| && |r.out| + |r.rest| == |out| + |ts|
    decreases |ts| - 1, 3
  {
    if |ts| < 2 || ts[0].Punct? || c.loads(ts[0].text).None? || ts[1] != Punct(':') then Failed
    else
      WalkValue(c, ts[2..], path + [c.loads(ts[0].text).value], out + [Word(c.Key(ts[0].text, path)), ts[1]])
  }

  /** What follows the value of a member. */
  function AfterMember(c: Rules, r: Walked, path: seq<Scalar>): (r': Walked)
    ensures r'.Walked? ==> r.Walked? && |r'.rest| < |r.rest| && |r'.out| + |r'.rest| == |r.out| + |r.rest|
    decreases if r.Walked? then |r.rest| else 0, 3
  {
    if r.Failed? || r.rest == [] then Failed
    else if r.rest[0] == Punct(',') then WalkMembers(c, r.rest[1..], path, r.out + [r.rest[0]])
    else if r.rest[0] == Punct('}') then Walked(r.out + [r.rest[0]], r.rest[1..])
    else Failed
  }

  function WalkItems(c: Rules, ts: seq<Token>, path: seq<Scalar>, index: nat, out: seq<Token>): (r: Walked)
    ensures r.Walked? ==> |r.rest| < |ts| && |r.out| + |r.rest| == |out| + |ts|
    decreases |ts|, 2
  {
    if ts == [] then Failed
    else if ts[0] == Punct(']') then Walked(out + [ts[0]], ts[1..])
    else AfterArrayItem(c, WalkValue(c, ts, path + [Text(Decimal(index))], out), path, index)
  }

  function AfterArrayItem(c: Rules, r: Walked, path: seq<Scalar>, index: nat): (r': Walked)
    ensures r'.Walked? ==> r.Walked? && |r'.rest| < |r.rest| && |r'.out| + |r'.rest| == |r.out| + |r.rest|
    decreases if r.Walked? then |r.rest| else 0, 3
  {
    if r.Failed? || r.rest == [] then Failed
    else if r.rest[0] == Punct(',') then WalkItems(c, r.rest[1..], path, index + 1, r.out + [r.rest[0]])
    else if r.rest[0] == Punct(']') then Walked(r.out + [r.rest[0]], r.rest[1..])
    else Failed
  }

  // ----- Documents as trees, trailing commas included

  datatype Node = Str(token: string) | Leaf(token: string) | Obj(members: Members) | Arr(items: Items)

  /** `Item` is followed by a comma, so a trailing comma is an `Item` before `Close`. */
  datatype Members =
    | CloseBrace
    | LastMember(key: string, value: Node)
    | Member(key: string, value: Node, rest: Members)

  datatype Items =
    | CloseBracket
    | LastItem(value: Node)
    | Item(value: Node, rest: Items)

  function Print(n: Node): (r: seq<Token>)
    ensures r != [] && r[0] != Punct(']') && r[0] != Punct('}')
  {
    match n
    case Str(token) => [Word(token)]
    case Leaf(token) => [Word(token)]
    case Obj(members) => [Punct('{')] + PrintMembers(members)
    case Arr(items) => [Punct('[')] + PrintItems(items)
  }

  function PrintMembers(ms: Members): (r: seq<Token>)
    ensures r != []
  {
    if ms.CloseBrace? then [Punct('}')] else [Word(ms.key), Punct(':')] + (Print(ms.value) + After(ms))
  }

  function After(ms: Members): (r: seq<Token>)
    requires !ms.CloseBrace?
    ensures r != []
    decreases ms, 0
  {
    if ms.Member? then [Punct(',')] + PrintMembers(ms.rest) else [Punct('}')]
  }

  function PrintItems(es: Items): (r: seq<Token>)
    ensures r != []
  {
    if es.CloseBracket? then [Punct(']')] else Print(es.value) + AfterItem(es)
  }

  function AfterItem(es: Items): (r: seq<Token>)
    requires !es.CloseBracket?
    ensures r != []
    decreases es, 0
  {
    if es.Item? then [Punct(',')] + PrintItems(es.rest) else [Punct(']')]
  }

  /** The documents that can be rewritten: scalars and keys decode, and so does every selected string. */
  predicate Accepts(c: Rules, n: Node, path: seq<Scalar>) {
    match n
    case Str(token) => Quoted(token) && c.rewrite(token, path).Some?
    case Leaf(token) => !Quoted(token) && c.loads(token).Some?
    case Obj(members) => AcceptsMembers(c, members, path)
    case Arr(items) => AcceptsItems(c, items, path, 0)
  }

  predicate AcceptsMembers(c: Rules, ms: Members, path: seq<Scalar>) {
    ms.CloseBrace? ||
    (&& c.loads(ms.key).Some? && Accepts(c, ms.value, path + [c.loads(ms.key).value])
     && (ms.Member? ==> AcceptsMembers(c, ms.rest, path)))
  }

  predicate AcceptsItems(c: Rules, es: Items, path: seq<Scalar>, index: nat) {
    es.CloseBracket? ||
    (&& Accepts(c, es.value, path + [Text(Decimal(index))])
     && (es.Item? ==> AcceptsItems(c, es.rest, path, index + 1)))
  }

  /** The tree with every selected string and key relocated; paths are those of the input. */
  function Relocated(c: Rules, n: Node, path: seq<Scalar>): (r: Node)
    requires Accepts(c, n, path)
    ensures |Print(r)| == |Print(n)|
  {
    match n
    case Str(token) => Str(c.rewrite(token, path).value)
    case Leaf(token) => n
    case Obj(members) => Obj(RelocatedMembers(c, members, path))
    case Arr(items) => Arr(RelocatedItems(c, items, path, 0))
  }

  function RelocatedMembers(c: Rules, ms: Members, path: seq<Scalar>): (r: Members)
    requires AcceptsMembers(c, ms, path)
    ensures |PrintMembers(r)| == |PrintMembers(ms)|
  {
    match ms
    case CloseBrace => ms
    case LastMember(key, value) =>
      LastMember(c.Key(key, path), Relocated(c, value, path + [c.loads(key).value]))
    case Member(key, value, rest) =>
      Member(c.Key(key, path), Relocated(c, value, path + [c.loads(key).value]),
             RelocatedMembers(c, rest, path))
  }

  function RelocatedItems(c: Rules, es: Items, path: seq<Scalar>, index: nat): (r: Items)
    requires AcceptsItems(c, es, path, index)
    ensures |PrintItems(r)| == |PrintItems(es)|
  {
    match es
    case CloseBracket => es
    case LastItem(value) => LastItem(Relocated(c, value, path + [Text(Decimal(index))]))
    case Item(value, rest) =>
      Item(Relocated(c, value, path + [Text(Decimal(index))]), RelocatedItems(c, rest, path, index + 1))
  }

  // ----- The walk turns the tokens of a tree into those of the relocated tree

  lemma {:induction false} Next(a: Token, ts: seq<Token>, rest: seq<Token>)
    ensures ([a] + ts) + rest == [a] + (ts + rest) && ([a] + (ts + rest))[1..] == ts + rest
  {
  }

  lemma {:induction false} Regroup<T>(a: seq<T>, b: seq<T>, c: seq<T>, d: seq<T>)
    ensures (a + (b + c)) + d == a + (b + (c + d))
    ensures ((a + b) + c) + d == a + (b + (c + d))
  {
    Associative(a, b, c);
    Associative(a, b + c, d);
    Associative(b, c, d);
  }

  lemma {:induction false} WalkFindsTree(c: Rules, n: Node, path: seq<Scalar>, out: seq<Token>, rest: seq<Token>)
    requires Accepts(c, n, path)
    ensures WalkValue(c, Print(n) + rest, path, out) == Walked(out + Print(Relocated(c, n, path)), rest)
    decreases n, 2
  {
    match n {
      case Str(token) => Next(Word(token), [], rest);
      case Leaf(token) => Next(Word(token), [], rest);
      case Obj(members) =>
        Next(Punct('{'), PrintMembers(members), rest);
        WalkFindsMembers(c, members, path, out + [Punct('{')], rest);
        Associative(out, [Punct('{')], PrintMembers(RelocatedMembers(c, members, path)));
      case Arr(items) =>
        Next(Punct('['), PrintItems(items), rest);
        WalkFindsItems(c, items, path, 0, out + [Punct('[')], rest);
        Associative(out, [Punct('[')], PrintItems(RelocatedItems(c, items, path, 0)));
    }
  }

  /** The walk over one member, given the walk over its value. */
  lemma {:induction false} MemberStep(c: Rules, key: string, ts: seq<Token>, path: seq<Scalar>, out: seq<Token>, out': seq<Token>, rest: seq<Token>)
    requires c.loads(key).Some? && rest != []
    requires WalkValue(c, ts, path + [c.loads(key).value], out + [Word(c.Key(key, path)), Punct(':')]) == Walked(out', rest)
    ensures
      var r := WalkMembers(c, [Word(key), Punct(':')] + ts, path, out);
      && (rest[0] == Punct('}') ==> r == Walked(out' + [rest[0]], rest[1..]))
      && (rest[0] == Punct(',') ==> r == WalkMembers(c, rest[1..], path, out' + [rest[0]]))
  {
    assert ([Word(key), Punct(':')] + ts)[2..] == ts;
  }

  lemma {:induction false} WalkFindsMembers(c: Rules, ms: Members, path: seq<Scalar>, out: seq<Token>, rest: seq<Token>)
    requires AcceptsMembers(c, ms, path)
    ensures WalkMembers(c, PrintMembers(ms) + rest, path, out)
         == Walked(out + PrintMembers(RelocatedMembers(c, ms, path)), rest)
    decreases ms, 1
  {
    if ms.CloseBrace? {
      Next(Punct('}'), [], rest);
    } else {
      var path' := path + [c.loads(ms.key).value];
      var head := [Word(c.Key(ms.key, path)), Punct(':')];
      var value, value' := Print(ms.value), Print(Relocated(c, ms.value, path'));
      var after, after' := After(ms), After(RelocatedMembers(c, ms, path));
      Regroup([Word(ms.key), Punct(':')], value, after, rest);
      Regroup(out, head, value', after');
      WalkFindsTree(c, ms.value, path', out + head, after + rest);
      MemberStep(c, ms.key, value + (after + rest), path, out, (out + head) + value', after + rest);
      WalkFindsAfter(c, ms, path, (out + head) + value', rest);
    }
  }

  /** What follows a member's value: the end, or a comma and further members. */
  lemma {:induction false} WalkFindsAfter(c: Rules, ms: Members, path: seq<Scalar>, out: seq<Token>, rest: seq<Token>)
    requires AcceptsMembers(c, ms, path) && !ms.CloseBrace?
    ensures
      var ts := After(ms) + rest;
      var out' := out + After(RelocatedMembers(c, ms, path));
      || (ts[0] == Punct('}') && Walked(out + [ts[0]], ts[1..]) == Walked(out', rest))
      || (ts[0] == Punct(',') && WalkMembers(c, ts[1..], path, out + [ts[0]]) == Walked(out', rest))
    decreases ms, 0
  {
    if ms.Member? {
      Next(Punct(','), PrintMembers(ms.rest), rest);
      WalkFindsMembers(c, ms.rest, path, out + [Punct(',')], rest);
      Associative(out, [Punct(',')], PrintMembers(RelocatedMembers(c, ms.rest, path)));
    } else {
      Next(Punct('}'), [], rest);
    }
  }

  /** The walk over one item, given the walk over its value. */
  lemma {:induction false} ItemStep(c: Rules, ts: seq<Token>, path: seq<Scalar>, index: nat, out: seq<Token>, out': seq<Token>, rest: seq<Token>)
    requires ts != [] && ts[0] != Punct(']') && rest != []
    requires WalkValue(c, ts, path + [Text(Decimal(index))], out) == Walked(out', rest)
    ensures
      var r := WalkItems(c, ts, path, index, out);
      && (rest[0] == Punct(']') ==> r == Walked(out' + [rest[0]], rest[1..]))
      && (rest[0] == Punct(',') ==> r == WalkItems(c, rest[1..], path, index + 1, out' + [rest[0]]))
  {
  }

  lemma {:induction false} WalkFindsItems(c: Rules, es: Items, path: seq<Scalar>, index: nat, out: seq<Token>, rest: seq<Token>)
    requires AcceptsItems(c, es, path, index)
    ensures WalkItems(c, PrintItems(es) + rest, path, index, out)
         == Walked(out + PrintItems(RelocatedItems(c, es, path, index)), rest)
    decreases es, 1
  {
    if es.CloseBracket? {
      Next(Punct(']'), [], rest);
    } else {
      var path' := path + [Text(Decimal(index))];
      var value, value' := Print(es.value), Print(Relocated(c, es.value, path'));
      var after, after' := AfterItem(es), AfterItem(RelocatedItems(c, es, path, index));
      Associative(value, after, rest);
      Associative(out, value', after');
      WalkFindsTree(c, es.value, path', out, after + rest);
      ItemStep(c, value + (after + rest), path, index, out, out + value', after + rest);
      WalkFindsAfterItem(c, es, path, index, out + value', rest);
    }
  }

  lemma {:induction false} WalkFindsAfterItem(c: Rules, es: Items, path: seq<Scalar>, index: nat, out: seq<Token>, rest: seq<Token>)
    requires AcceptsItems(c, es, path, index) && !es.CloseBracket?
    ensures
      var ts := AfterItem(es) + rest;
      var out' := out + AfterItem(RelocatedItems(c, es, path, index));
      || (ts[0] == Punct(']') && Walked(out + [ts[0]], ts[1..]) == Walked(out', rest))
      || (ts[0] == Punct(',') && WalkItems(c, ts[1..], path, index + 1, out + [ts[0]]) == Walked(out', rest))
    decreases es, 0
  {
    if es.Item? {
      Next(Punct(','), PrintItems(es.rest), rest);
      WalkFindsItems(c, es.rest, path, index + 1, out + [Punct(',')], rest);
      Associative(out, [Punct(',')], PrintItems(RelocatedItems(c, es.rest, path, index + 1)));
    } else {
      Next(Punct(']'), [], rest);
    }
  }

  // ----- The walk accepts nothing else

  lemma {:induction false} TreeOf(c: Rules, ts: seq<Token>, path: seq<Scalar>, out: seq<Token>) returns (n: Node)
    requires WalkValue(c, ts, path, out).Walked?
    ensures Accepts(c, n, path) && ts == Print(n) + WalkValue(c, ts, path, out).rest
    decreases |ts|, 1
  {
    match ts[0] {
      case Word(text) =>
        n := if Quoted(text) then Str(text) else Leaf(text);
      case Punct(mark) =>
        if mark == '{' {
          var members := MembersOf(c, ts[1..], path, out + [ts[0]]);
          n := Obj(members);
        } else {
          var items := ItemsOf(c, ts[1..], path, 0, out + [ts[0]]);
          n := Arr(items);
        }
        assert ts == [ts[0]] + ts[1..];
    }
  }

  lemma {:induction false} MembersOf(c: Rules, ts: seq<Token>, path: seq<Scalar>, out: seq<Token>) returns (ms: Members)
    requires WalkMembers(c, ts, path, out).Walked?
    ensures AcceptsMembers(c, ms, path) && ts == PrintMembers(ms) + WalkMembers(c, ts, path, out).rest
    decreases |ts|, 0
  {
    if ts[0] == Punct('}') {
      ms := CloseBrace;
    } else {
      var key := ts[0].text;
      var path' := path + [c.loads(key).value];
      var out0 := out + [Word(c.Key(key, path)), ts[1]];
      var value := TreeOf(c, ts[2..], path', out0);
      assert ts == [Word(key), Punct(':')] + ts[2..];
      ms := MembersAfter(c, key, value, WalkMember(c, ts, path, out), path);
      Regroup([Word(key), Punct(':')], Print(value), After(ms), WalkMembers(c, ts, path, out).rest);
    }
  }

  lemma {:induction false} MembersAfter(c: Rules, key: string, value: Node, r: Walked, path: seq<Scalar>) returns (ms: Members)
    requires c.loads(key).Some? && Accepts(c, value, path + [c.loads(key).value]) && AfterMember(c, r, path).Walked?
    ensures !ms.CloseBrace? && ms.key == key && ms.value == value && AcceptsMembers(c, ms, path)
    ensures r.rest == After(ms) + AfterMember(c, r, path).rest
    decreases |r.rest|, 3
  {
    assert r.rest == [r.rest[0]] + r.rest[1..];
    if r.rest[0] == Punct(',') {
      var more := MembersOf(c, r.rest[1..], path, r.out + [r.rest[0]]);
      ms := Member(key, value, more);
      Associative([Punct(',')], PrintMembers(more), AfterMember(c, r, path).rest);
    } else {
      ms := LastMember(key, value);
    }
  }

  lemma {:induction false} ItemsOf(c: Rules, ts: seq<Token>, path: seq<Scalar>, index: nat, out: seq<Token>) returns (es: Items)
    requires WalkItems(c, ts, path, index, out).Walked?
    ensures AcceptsItems(c, es, path, index) && ts == PrintItems(es) + WalkItems(c, ts, path, index, out).rest
    decreases |ts|, 2
  {
    if ts[0] == Punct(']') {
      es := CloseBracket;
    } else {
      var path' := path + [Text(Decimal(index))];
      var value := TreeOf(c, ts, path', out);
      es := ItemsAfter(c, value, WalkValue(c, ts, path', out), path, index);
      Associative(Print(value), AfterItem(es), WalkItems(c, ts, path, index, out).rest);
    }
  }

  lemma {:induction false} ItemsAfter(c: Rules, value: Node, r: Walked, path: seq<Scalar>, index: nat) returns (es: Items)
    requires Accepts(c, value, path + [Text(Decimal(index))]) && AfterArrayItem(c, r, path, index).Walked?
    ensures !es.CloseBracket? && es.value == value && AcceptsItems(c, es, path, index)
    ensures r.rest == AfterItem(es) + AfterArrayItem(c, r, path, index).rest
    decreases |r.rest|, 3
  {
    assert r.rest == [r.rest[0]] + r.rest[1..];
    if r.rest[0] == Punct(',') {
      var more := ItemsOf(c, r.rest[1..], path, index + 1, r.out + [r.rest[0]]);
      es := Item(value, more);
      Associative([Punct(',')], PrintItems(more), AfterArrayItem(c, r, path, index).rest);
    } else {
      es := LastItem(value);
    }
  }

  /** The walk takes a whole token stream exactly when it is the print of an acceptable tree. */
  lemma {:induction false} WalkIsRelocation(c: Rules, ts: seq<Token>)
    ensures
      var r := WalkValue(c, ts, [], []);
      && ((r.Walked? && r.rest == []) <==> exists n :: Accepts(c, n, []) && Print(n) == ts)
      && (forall n :: Accepts(c, n, []) && Print(n) == ts ==> r == Walked(Print(Relocated(c, n, [])), []))
  {
    var r := WalkValue(c, ts, [], []);
    if r.Walked? && r.rest == [] {
      var n := TreeOf(c, ts, [], []);
      assert Print(n) + [] == Print(n);
    }
    forall n | Accepts(c, n, []) && Print(n) == ts ensures r == Walked(Print(Relocated(c, n, [])), []) {
      WalkFindsTree(c, n, [], [], []);
      assert Print(n) + [] == Print(n) && [] + Print(Relocated(c, n, [])) == Print(Relocated(c, n, []));
    }
  }

  // ----- Tokens determine the tree

  /** Strings and other scalars are told apart by their tokens. */
  predicate Readable(n: Node) {
    match n
    case Str(token) => Quoted(token)
    case Leaf(token) => !Quoted(token)
    case Obj(members) => ReadableMembers(members)
    case Arr(items) => ReadableItems(items)
  }

  predicate ReadableMembers(ms: Members) {
    ms.CloseBrace? || (Readable(ms.value) && (ms.Member? ==> ReadableMembers(ms.rest)))
  }

  predicate ReadableItems(es: Items) {
    es.CloseBracket? || (Readable(es.value) && (es.Item? ==> ReadableItems(es.rest)))
  }

  lemma {:induction false} HeadTail(a: seq<Token>, x: seq<Token>, b: seq<Token>, y: seq<Token>)
    requires a + x == b + y
    ensures a != [] && b != [] ==> a[0] == b[0] && a[1..] + x == b[1..] + y
    ensures |a| == 1 && |b| == 1 ==> x == y
  {
    if a != [] && b != [] {
      assert (a + x)[|a|..] == x && (b + y)[|b|..] == y;
      assert (a + x)[0] == a[0] && (b + y)[0] == b[0];
      assert (a + x)[1..] == a[1..] + x && (b + y)[1..] == b[1..] + y;
    }
  }

  lemma {:induction false} Unambiguous(m: Node, x: seq<Token>, n: Node, y: seq<Token>)
    requires Readable(m) && Readable(n) && Print(m) + x == Print(n) + y
    ensures m == n && x == y
    decreases m, 2
  {
    HeadTail(Print(m), x, Print(n), y);
    if m.Obj? && n.Obj? {
      assert Print(m)[1..] == PrintMembers(m.members) && Print(n)[1..] == PrintMembers(n.members);
      UnambiguousMembers(m.members, x, n.members, y);
    } else if m.Arr? && n.Arr? {
      assert Print(m)[1..] == PrintItems(m.items) && Print(n)[1..] == PrintItems(n.items);
      UnambiguousItems(m.items, x, n.items, y);
    }
  }

  lemma {:induction false} UnambiguousMembers(ms: Members, x: seq<Token>, ns: Members, y: seq<Token>)
    requires ReadableMembers(ms) && ReadableMembers(ns) && PrintMembers(ms) + x == PrintMembers(ns) + y
    ensures ms == ns && x == y
    decreases ms, 1
  {
    HeadTail(PrintMembers(ms), x, PrintMembers(ns), y);
    if !ms.CloseBrace? && !ns.CloseBrace? {
      var head := [Word(ms.key), Punct(':')];
      Regroup(head, Print(ms.value), After(ms), x);
      Regroup([Word(ns.key), Punct(':')], Print(ns.value), After(ns), y);
      assert (head + (Print(ms.value) + (After(ms) + x)))[2..] == Print(ms.value) + (After(ms) + x);
      assert ([Word(ns.key), Punct(':')] + (Print(ns.value) + (After(ns) + y)))[2..] == Print(ns.value) + (After(ns) + y);
      Unambiguous(ms.value, After(ms) + x, ns.value, After(ns) + y);
      HeadTail(After(ms), x, After(ns), y);
      if ms.Member? && ns.Member? {
        assert After(ms)[1..] == PrintMembers(ms.rest) && After(ns)[1..] == PrintMembers(ns.rest);
        UnambiguousMembers(ms.rest, x, ns.rest, y);
      }
    }
  }

  lemma {:induction false} UnambiguousItems(es: Items, x: seq<Token>, fs: Items, y: seq<Token>)
    requires ReadableItems(es) && ReadableItems(fs) && PrintItems(es) + x == PrintItems(fs) + y
    ensures es == fs && x == y
    decreases es, 1
  {
    HeadTail(PrintItems(es), x, PrintItems(fs), y);
    if !es.CloseBracket? && !fs.CloseBracket? {
      Associative(Print(es.value), AfterItem(es), x);
      Associative(Print(fs.value), AfterItem(fs), y);
      Unambiguous(es.value, AfterItem(es) + x, fs.value, AfterItem(fs) + y);
      HeadTail(AfterItem(es), x, AfterItem(fs), y);
      if es.Item? && fs.Item? {
        assert AfterItem(es)[1..] == PrintItems(es.rest) && AfterItem(fs)[1..] == PrintItems(fs.rest);
        UnambiguousItems(es.rest, x, fs.rest, y);
      }
    }
  }

  // ----- What the document says

  /** A decoded document; a string that does not decode is kept as it is. */
  datatype Value = VScalar(s: Scalar) | VRaw(token: string) | VObject(fields: Fields) | VArray(values: Values)
  datatype Fields = NoField | Field(key: Scalar, value: Value, rest: Fields)
  datatype Values = NoValue | Elem(value: Value, rest: Values)

  function Decode(c: Codec, n: Node): Value {
    match n
    case Str(token) => if c.loads(token).Some? then VScalar(c.loads(token).value) else VRaw(token)
    case Leaf(token) => if c.loads(token).Some? then VScalar(c.loads(token).value) else VRaw(token)
    case Obj(members) => VObject(DecodeMembers(c, members))
    case Arr(items) => VArray(DecodeItems(c, items))
  }

  function DecodeMembers(c: Codec, ms: Members): Fields {
    if ms.CloseBrace? then NoField
    else
      Field(if c.loads(ms.key).Some? then c.loads(ms.key).value else Atom(ms.key), Decode(c, ms.value),
            if ms.Member? then DecodeMembers(c, ms.rest) else NoField)
  }

  function DecodeItems(c: Codec, es: Items): Values {
    if es.CloseBracket? then NoValue
    else Elem(Decode(c, es.value), if es.Item? then DecodeItems(c, es.rest) else NoValue)
  }

  function RelocateScalar(c: Codec, s: Scalar, path: seq<Scalar>): Scalar {
    if c.Selected(path) && s.Text? then Text(c.relocate(s.s)) else s
  }

  /** `relocate` on exactly the selected strings and keys of a decoded document. */
  function RelocateValue(c: Codec, v: Value, path: seq<Scalar>): Value {
    match v
    case VScalar(s) => VScalar(RelocateScalar(c, s, path))
    case VRaw(token) => v
    case VObject(fields) => VObject(RelocateFields(c, fields, path))
    case VArray(values) => VArray(RelocateValues(c, values, path, 0))
  }

  function RelocateFields(c: Codec, fields: Fields, path: seq<Scalar>): Fields {
    match fields
    case NoField => NoField
    case Field(key, value, rest) =>
      Field(RelocateScalar(c, key, path + [KEYS]), RelocateValue(c, value, path + [key]), RelocateFields(c, rest, path))
  }

  function RelocateValues(c: Codec, values: Values, path: seq<Scalar>, index: nat): Values {
    match values
    case NoValue => NoValue
    case Elem(value, rest) =>
      Elem(RelocateValue(c, value, path + [Text(Decimal(index))]), RelocateValues(c, rest, path, index + 1))
  }

  lemma {:induction false} RewriteMeans(c: Codec, token: string, path: seq<Scalar>)
    requires c.Lawful() && c.Rewrite(token, path).Some?
    ensures
      var after := c.Rewrite(token, path).value;
      && (c.loads(token).Some? ==> c.loads(after) == Some(RelocateScalar(c, c.loads(token).value, path)))
      && (c.loads(token).None? ==> after == token)
      && (Quoted(token) <==> Quoted(after))
  {
  }

  lemma {:induction false} KeyMeans(c: Codec, key: string, path: seq<Scalar>)
    requires c.Lawful() && c.loads(key).Some?
    ensures c.loads(RulesOf(c).Key(key, path)) == Some(RelocateScalar(c, c.loads(key).value, path + [KEYS]))
  {
    RewriteMeans(c, key, path + [KEYS]);
  }

  /** Relocating the tokens is relocating what they say. */
  lemma {:induction false} RelocationMeans(c: Codec, n: Node, path: seq<Scalar>)
    requires c.Lawful() && Accepts(RulesOf(c), n, path)
    ensures Readable(n) && Readable(Relocated(RulesOf(c), n, path))
    ensures Decode(c, Relocated(RulesOf(c), n, path)) == RelocateValue(c, Decode(c, n), path)
    decreases n, 1
  {
    match n {
      case Str(token) => RewriteMeans(c, token, path);
      case Leaf(token) =>
      case Obj(members) => RelocationMeansMembers(c, members, path);
      case Arr(items) => RelocationMeansItems(c, items, path, 0);
    }
  }

  lemma {:induction false} RelocationMeansMembers(c: Codec, ms: Members, path: seq<Scalar>)
    requires c.Lawful() && AcceptsMembers(RulesOf(c), ms, path)
    ensures ReadableMembers(ms) && ReadableMembers(RelocatedMembers(RulesOf(c), ms, path))
    ensures DecodeMembers(c, RelocatedMembers(RulesOf(c), ms, path)) == RelocateFields(c, DecodeMembers(c, ms), path)
    decreases ms, 0
  {
    if !ms.CloseBrace? {
      KeyMeans(c, ms.key, path);
      RelocationMeans(c, ms.value, path + [c.loads(ms.key).value]);
      if ms.Member? { RelocationMeansMembers(c, ms.rest, path); }
    }
  }

  lemma {:induction false} RelocationMeansItems(c: Codec, es: Items, path: seq<Scalar>, index: nat)
    requires c.Lawful() && AcceptsItems(RulesOf(c), es, path, index)
    ensures ReadableItems(es) && ReadableItems(RelocatedItems(RulesOf(c), es, path, index))
    ensures DecodeItems(c, RelocatedItems(RulesOf(c), es, path, index)) == RelocateValues(c, DecodeItems(c, es), path, index)
    decreases es, 0
  {
    if !es.CloseBracket? {
      RelocationMeans(c, es.value, path + [Text(Decimal(index))]);
      if es.Item? { RelocationMeansItems(c, es.rest, path, index + 1); }
    }
  }

  /**
   * Rewriting commutes with parsing: whatever tree the new tokens are read as, it says what the
   * tree of the old tokens says with `relocate` applied to exactly the selected strings and keys.
   */
  lemma {:induction false} RewritingCommutes(c: Codec, ts: seq<Token>, before: Node, after: Node)
    requires c.Lawful() && Readable(before) && Print(before) == ts
    requires WalkValue(RulesOf(c), ts, [], []).Walked? && WalkValue(RulesOf(c), ts, [], []).rest == []
    requires Readable(after) && Print(after) == WalkValue(RulesOf(c), ts, [], []).out
    ensures Decode(c, after) == RelocateValue(c, Decode(c, before), [])
  {
    var r := RulesOf(c);
    var n := TreeOf(r, ts, [], []);
    WalkIsRelocation(r, ts);
    assert Print(n) + [] == Print(n) && Print(before) + [] == Print(before);
    RelocationMeans(c, n, []);
    Unambiguous(n, [], before, []);
    assert Print(Relocated(r, n, [])) + [] == Print(after) + [];
    Unambiguous(Relocated(r, n, []), [], after, []);
  }

  // ----- Places in a document

  /** The `n`th field of an object. */
  function FieldAt(fields: Fields, n: nat): (r: Fields)
    decreases fields
  {
    if fields.NoField? || n == 0 then fields else FieldAt(fields.rest, n - 1)
  }

  function ElemAt(values: Values, n: nat): Values
    decreases values
  {
    if values.NoValue? || n == 0 then values else ElemAt(values.rest, n - 1)
  }

  /** The value found by going to the given field or item, one level down at a time. */
  function ValueAt(v: Value, steps: seq<nat>): Option<Value>
    decreases |steps|
  {
    if steps == [] then Some(v)
    else if v.VObject? && FieldAt(v.fields, steps[0]).Field? then ValueAt(FieldAt(v.fields, steps[0]).value, steps[1..])
    else if v.VArray? && ElemAt(v.values, steps[0]).Elem? then ValueAt(ElemAt(v.values, steps[0]).value, steps[1..])
    else None
  }

  /** The keys and indices on the way. */
  function PathTo(v: Value, steps: seq<nat>): seq<Scalar>
    decreases |steps|
  {
    if steps == [] then []
    else if v.VObject? && FieldAt(v.fields, steps[0]).Field? then
      [FieldAt(v.fields, steps[0]).key] + PathTo(FieldAt(v.fields, steps[0]).value, steps[1..])
    else if v.VArray? && ElemAt(v.values, steps[0]).Elem? then
      [Text(Decimal(steps[0]))] + PathTo(ElemAt(v.values, steps[0]).value, steps[1..])
    else []
  }

  lemma {:induction false} RelocatedField(c: Codec, fields: Fields, path: seq<Scalar>, n: nat)
    ensures FieldAt(RelocateFields(c, fields, path), n) == RelocateFields(c, FieldAt(fields, n), path)
    decreases fields
  {
    if fields.Field? && n > 0 { RelocatedField(c, fields.rest, path, n - 1); }
  }

  lemma {:induction false} RelocatedElem(c: Codec, values: Values, path: seq<Scalar>, index: nat, n: nat)
    ensures ElemAt(RelocateValues(c, values, path, index), n) == RelocateValues(c, ElemAt(values, n), path, index + n)
    decreases values
  {
    if values.Elem? && n > 0 { RelocatedElem(c, values.rest, path, index + 1, n - 1); }
  }

  /** What stands at a place of the relocated document is what stood there, relocated for its path. */
  lemma {:induction false} RelocatedAt(c: Codec, v: Value, path: seq<Scalar>, steps: seq<nat>)
    requires ValueAt(v, steps).Some?
    ensures
      ValueAt(RelocateValue(c, v, path), steps)
      == Some(RelocateValue(c, ValueAt(v, steps).value, path + PathTo(v, steps)))
    decreases |steps|
  {
    if steps == [] {
      assert path + [] == path;
    } else if v.VObject? {
      RelocatedField(c, v.fields, path, steps[0]);
      var f := FieldAt(v.fields, steps[0]);
      RelocatedAt(c, f.value, path + [f.key], steps[1..]);
      Associative(path, [f.key], PathTo(f.value, steps[1..]));
    } else {
      RelocatedElem(c, v.values, path, 0, steps[0]);
      var e, part := ElemAt(v.values, steps[0]), Text(Decimal(steps[0]));
      RelocatedAt(c, e.value, path + [part], steps[1..]);
      Associative(path, [part], PathTo(e.value, steps[1..]));
    }
  }

  /** The parsed result has, in place of a selected string, that string relocated. */
  lemma {:induction false} StringRelocated(c: Codec, ts: seq<Token>, before: Node, after: Node, steps: seq<nat>, x: string)
    requires c.Lawful() && Readable(before) && Print(before) == ts && Readable(after)
    requires WalkValue(RulesOf(c), ts, [], []) == Walked(Print(after), [])
    requires ValueAt(Decode(c, before), steps) == Some(VScalar(Text(x)))
    requires c.Selected(PathTo(Decode(c, before), steps))
    ensures ValueAt(Decode(c, after), steps) == Some(VScalar(Text(c.relocate(x))))
  {
    var v := Decode(c, before);
    RewritingCommutes(c, ts, before, after);
    RelocatedAt(c, v, [], steps);
    assert [] + PathTo(v, steps) == PathTo(v, steps);
  }
}
