/** The prefix table that rewrites old paths, and how it reads as paths made of components. */
module RelocationTable {
  import opened Wrappers

  /** An absolute path, as its components. */
  type Path = seq<string>

  predicate Name(s: string) { s != "" && '/' !in s }

  predicate Names(p: Path) { forall i :: 0 <= i < |p| ==> Name(p[i]) }

  function Text(p: Path): string
    decreases |p|
  {
    if p == [] then "" else "/" + (p[0] + Text(p[1..]))
  }

  /** The path as the text that appears in documents. */
  function Str(p: Path): string { if p == [] then "/" else Text(p) }

  datatype Prefix = Prefix(before: string, after: string)

  predicate Covers(before: string, path: string) { path == before || before + "/" <= path }

  predicate LongestFirst(table: seq<Prefix>) {
    forall i, j :: 0 <= i < j < |table| ==> |table[i].before| >= |table[j].before|
  }

  // ----- Building and searching the table

  function Insert(p: Prefix, table: seq<Prefix>): (r: seq<Prefix>)
    decreases |table|
  {
    if table == [] || |table[0].before| <= |p.before| then [p] + table else [table[0]] + Insert(p, table[1..])
  }

  /** Longest `before` first; prefixes of equal length keep their order. */
  function Sort(table: seq<Prefix>): (r: seq<Prefix>)
    decreases |table|
  {
    if table == [] then [] else Insert(table[0], Sort(table[1..]))
  }

  lemma {:induction false} InsertKeeps(p: Prefix, table: seq<Prefix>)
    requires LongestFirst(table)
    ensures LongestFirst(Insert(p, table))
    ensures forall q :: q in Insert(p, table) <==> q == p || q in table
    decreases |table|
  {
    if table != [] && |table[0].before| > |p.before| {
      InsertKeeps(p, table[1..]);
      var r := Insert(p, table[1..]);
      forall i | 0 <= i < |r| ensures |table[0].before| >= |r[i].before| {
        assert r[i] in r;
        if r[i] != p { assert r[i] in table[1..]; }
      }
    }
  }

  lemma {:induction false} SortKeeps(table: seq<Prefix>)
    ensures LongestFirst(Sort(table))
    ensures forall q :: q in Sort(table) <==> q in table
    decreases |table|
  {
    if table != [] {
      SortKeeps(table[1..]);
      InsertKeeps(table[0], Sort(table[1..]));
      forall q ensures q in table <==> q == table[0] || q in table[1..] { }
    }
  }

  function FirstMatch(table: seq<Prefix>, path: string): Option<string>
    decreases |table|
  {
    if table == [] then None
    else if Covers(table[0].before, path) then Some(table[0].after + path[|table[0].before|..])
    else FirstMatch(table[1..], path)
  }

  /** A string is looked up as it is and, if it is an absolute path, as it resolves. */
  function Relocate(table: seq<Prefix>, resolve: string -> string, value: string): string {
    match FirstMatch(table, value)
    case Some(moved) => moved
    case None =>
      if value != "" && value[0] == '/' && '\n' !in value && '\0' !in value
      then
        match FirstMatch(table, resolve(value))
        case Some(moved) => moved
        case None => value
      else value
  }

  /** The prefix that decides is the longest one that covers the path. */
  lemma {:induction false} LongestDecides(table: seq<Prefix>, path: string, p: Prefix)
    requires LongestFirst(table)
    requires p in table && Covers(p.before, path)
    requires forall q :: q in table && Covers(q.before, path) ==> |q.before| < |p.before| || q == p
    ensures FirstMatch(table, path) == Some(p.after + path[|p.before|..])
    decreases |table|
  {
    if Covers(table[0].before, path) {
      if table[0] != p { assert false; }
    } else {
      LongestDecides(table[1..], path, p);
    }
  }

  lemma {:induction false} NothingMatches(table: seq<Prefix>, path: string)
    requires forall p :: p in table ==> !Covers(p.before, path)
    ensures FirstMatch(table, path) == None
    decreases |table|
  {
    if table != [] { NothingMatches(table[1..], path); }
  }

  /** Where a text is covered, the prefix that decides it is found. */
  lemma {:induction false} SomethingMatches(table: seq<Prefix>, path: string)
    requires exists p :: p in table && Covers(p.before, path)
    ensures FirstMatch(table, path).Some?
    decreases |table|
  {
    if !Covers(table[0].before, path) { SomethingMatches(table[1..], path); }
  }

  predicate Uncovered(table: seq<Prefix>, text: string) { forall p :: p in table ==> !Covers(p.before, text) }

  /** An absolute path, as far as the text can tell, that can be resolved. */
  predicate Resolvable(text: string) { "/" <= text && forall i :: 0 <= i < |text| ==> text[i] != '\n' && text[i] != '\0' }

  /** A text that no prefix covers goes where what it resolves to goes, or stays if that goes nowhere. */
  lemma {:induction false} ResolvedDecides(table: seq<Prefix>, resolve: string -> string, text: string)
    requires Uncovered(table, text)
    ensures
      Relocate(table, resolve, text) ==
      if Resolvable(text) && !Uncovered(table, resolve(text)) then Relocate(table, resolve, resolve(text)) else text
  {
    NothingMatches(table, text);
    if Uncovered(table, resolve(text)) {
      NothingMatches(table, resolve(text));
    } else {
      SomethingMatches(table, resolve(text));
    }
  }

  // ----- Text prefixes at component boundaries are path prefixes

  lemma {:induction false} TextAppend(a: Path, b: Path)
    ensures Text(a + b) == Text(a) + Text(b)
    decreases |a|
  {
    if a == [] {
      assert a + b == b;
    } else {
      assert (a + b)[0] == a[0] && (a + b)[1..] == a[1..] + b;
      TextAppend(a[1..], b);
      Associative(a[0], Text(a[1..]), Text(b));
      Associative("/", a[0] + Text(a[1..]), Text(b));
    }
  }

  predicate Boundary(s: string) { s == "" || s[0] == '/' }

  /** Two names are equal if they are followed by a boundary in the same text. */
  lemma {:induction false} SameName(x: string, u: string, y: string, v: string)
    requires Name(x) && Name(y) && Boundary(u) && Boundary(v)
    requires x + u == y + v
    ensures x == y && u == v
  {
    var t := x + u;
    assert t[..|x|] == x && t[|x|..] == u && t[..|y|] == y && t[|y|..] == v;
    assert forall k :: 0 <= k < |x| ==> t[k] != '/';
    assert forall k :: 0 <= k < |y| ==> t[k] != '/';
    assert u != "" ==> t[|x|] == '/';
    assert v != "" ==> t[|y|] == '/';
  }

  lemma {:induction false} TextContinues(a: Path, b: Path, rest: string)
    requires Names(a) && Names(b) && Boundary(rest)
    requires Text(a) == Text(b) + rest
    ensures b <= a && rest == Text(a[|b|..])
    decreases |b|
  {
    if b == [] {
      assert a[0..] == a;
    } else {
      assert Text(a) != "";
      var u, v := Text(a[1..]), Text(b[1..]) + rest;
      assert Text(a)[1..] == a[0] + u;
      assert (Text(b) + rest)[1..] == b[0] + v;
      SameName(a[0], u, b[0], v);
      TextContinues(a[1..], b[1..], rest);
      assert a == [a[0]] + a[1..] && b == [b[0]] + b[1..];
      assert a[|b|..] == a[1..][|b[1..]|..];
    }
  }

  lemma {:induction false} PrefixCovers(b: Path, rest: Path)
    requires b != []
    ensures Covers(Str(b), Str(b + rest)) && Str(b + rest)[|Str(b)|..] == Text(rest)
    ensures rest != [] ==> |Str(b + rest)| > |Str(b)|
  {
    TextAppend(b, rest);
    assert Str(b + rest) == Text(b) + Text(rest);
    if rest == [] {
      assert Text(b) + "" == Text(b);
    } else {
      Associative(Text(b), "/", rest[0] + Text(rest[1..]));
    }
  }

  /** What follows a covering prefix begins with a separator, if there is anything. */
  lemma {:induction false} RestAtBoundary(before: string, path: string)
    requires Covers(before, path)
    ensures |before| <= |path| && path == before + path[|before|..] && Boundary(path[|before|..])
  {
    if path != before { assert path[|before|] == (before + "/")[|before|]; }
  }

  lemma {:induction false} LongText(p: Path)
    requires Names(p) && p != []
    ensures |Text(p)| >= 2
  {
    assert |p[0]| > 0;
  }

  lemma {:induction false} CoveredContinues(b: Path, a: Path)
    requires Names(a) && Names(b) && b != [] && Covers(Str(b), Str(a))
    ensures b <= a
  {
    LongText(b);
    RestAtBoundary(Str(b), Str(a));
    TextContinues(a, b, Str(a)[|Str(b)|..]);
  }

  /** A prefix covers a path exactly when its components are the path's first components. */
  lemma {:induction false} CoversIsPrefix(b: Path, a: Path)
    requires Names(a) && Names(b) && b != []
    ensures Covers(Str(b), Str(a)) <==> b <= a
    ensures b <= a ==> Str(a)[|Str(b)|..] == Text(a[|b|..]) && (|a| > |b| ==> |Str(a)| > |Str(b)|)
  {
    if b <= a {
      assert a == b + a[|b|..];
      PrefixCovers(b, a[|b|..]);
    }
    if Covers(Str(b), Str(a)) { CoveredContinues(b, a); }
  }

  // ----- The same table on paths

  datatype Rule = Rule(before: Path, after: Path) {
    predicate Valid() { before != [] && Names(before) && after != [] }

    function Printed(): Prefix { Prefix(Str(before), Str(after)) }
  }

  function Printed(rules: seq<Rule>): (r: seq<Prefix>)
    ensures |r| == |rules| && forall i :: 0 <= i < |r| ==> r[i] == rules[i].Printed()
  {
    seq(|rules|, i requires 0 <= i < |rules| => rules[i].Printed())
  }

  /** `r` applies to `path`, and every other rule that does is shorter. */
  ghost predicate Decisive(rules: seq<Rule>, r: Rule, path: Path) {
    r in rules && r.before <= path
    && forall q :: q in rules && q.before <= path ==> |q.before| < |r.before| || q == r
  }

  lemma {:induction false} OtherIsShorter(rules: seq<Rule>, r: Rule, path: Path, i: nat)
    requires forall q :: q in rules ==> q.Valid()
    requires Names(path) && Decisive(rules, r, path)
    requires i < |rules| && Covers(Str(rules[i].before), Str(path))
    ensures |Str(rules[i].before)| < |Str(r.before)| || rules[i] == r
  {
    var q := rules[i];
    assert q in rules;
    CoversIsPrefix(q.before, path);
    if q != r {
      assert q.before <= r.before;
      CoversIsPrefix(q.before, r.before);
    }
  }

  /** The longest rule, by components, says where a path goes. */
  lemma {:induction false} DecisiveMoves(rules: seq<Rule>, resolve: string -> string, r: Rule, path: Path)
    requires forall q :: q in rules ==> q.Valid()
    requires Names(path) && Decisive(rules, r, path)
    ensures Relocate(Sort(Printed(rules)), resolve, Str(path)) == Str(r.after + path[|r.before|..])
  {
    var printed := Printed(rules);
    SortKeeps(printed);
    var i :| 0 <= i < |rules| && rules[i] == r;
    assert printed[i] == r.Printed();
    CoversIsPrefix(r.before, path);
    forall p | p in printed && Covers(p.before, Str(path))
      ensures |p.before| < |Str(r.before)| || p == r.Printed()
    {
      var j :| 0 <= j < |printed| && printed[j] == p;
      OtherIsShorter(rules, r, path, j);
    }
    LongestDecides(Sort(printed), Str(path), r.Printed());
    TextAppend(r.after, path[|r.before|..]);
  }

  /** A path that no rule covers, and that resolves to itself, is left alone. */
  lemma {:induction false} UncoveredStays(rules: seq<Rule>, resolve: string -> string, path: Path)
    requires forall q :: q in rules ==> q.Valid() && !(q.before <= path)
    requires Names(path) && resolve(Str(path)) == Str(path)
    ensures Relocate(Sort(Printed(rules)), resolve, Str(path)) == Str(path)
  {
    var printed := Printed(rules);
    SortKeeps(printed);
    forall p | p in Sort(printed) ensures !Covers(p.before, Str(path)) {
      assert p in printed;
      var i :| 0 <= i < |printed| && printed[i] == p;
      assert rules[i] in rules;
      CoversIsPrefix(rules[i].before, path);
    }
    NothingMatches(Sort(printed), Str(path));
  }

  /** A path through a link outside the table goes where the path it resolves to goes. */
  lemma {:induction false} ResolvedMoves(rules: seq<Rule>, resolve: string -> string, r: Rule, text: string, path: Path)
    requires forall q :: q in rules ==> q.Valid() && !Covers(Str(q.before), text)
    requires Resolvable(text) && resolve(text) == Str(path)
    requires Names(path) && Decisive(rules, r, path)
    ensures Relocate(Sort(Printed(rules)), resolve, text) == Str(r.after + path[|r.before|..])
  {
    var printed := Printed(rules);
    SortKeeps(printed);
    forall p | p in Sort(printed) ensures !Covers(p.before, text) {
      var i :| 0 <= i < |printed| && printed[i] == p;
      assert rules[i] in rules;
    }
    assert r.Printed() in Sort(printed) by {
      var i :| 0 <= i < |rules| && rules[i] == r;
      assert printed[i] == r.Printed();
    }
    CoversIsPrefix(r.before, path);
    ResolvedDecides(Sort(printed), resolve, text);
    DecisiveMoves(rules, resolve, r, path);
  }

  lemma {:induction false} SamePath(a: Path, b: Path)
    requires Names(a) && Names(b) && a != [] && b != [] && Str(a) == Str(b)
    ensures a == b
  {
    assert Text(b) + "" == Text(b);
    TextContinues(a, b, "");
    TextContinues(b, a, "");
  }
}
