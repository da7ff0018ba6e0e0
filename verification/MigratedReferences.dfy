/** The files a migration copies are the files of the old installation, and references follow them. */
module MigratedReferences {
  import opened Wrappers
  import opened RelocationTable
  import opened Migration
  import opened Collecting
  import J = JsonRelocation

  /** A tree with valid, distinct names in every directory. */
  ghost predicate Proper(node: Node)
    decreases node
  {
    match node
    case Directory(children) =>
      && (forall i :: 0 <= i < |children| ==> Name(children[i].name) && Proper(children[i].node))
      && (forall i, j :: 0 <= i < j < |children| ==> children[i].name != children[j].name)
    case Link(target) => Proper(target)
    case _ => true
  }

  /** The node below another, links not followed. */
  function Below(node: Node, p: Path): Node
    decreases |p|
  {
    if p == [] then node
    else if node.Directory? then Below(Lookup(node.children, p[0]), p[1..])
    else Absent
  }

  predicate Copied(node: Node) { node.File? || node.Link? }

  // ----- A walk visits exactly the files and links below

  lemma {:induction false} LookupAt(children: seq<Child>, i: nat)
    requires i < |children|
    requires forall j, k :: 0 <= j < k < |children| ==> children[j].name != children[k].name
    ensures Lookup(children, children[i].name) == children[i].node
    decreases |children|
  {
    if i > 0 { LookupAt(children[1..], i - 1); }
  }

  lemma {:induction false} LookupIn(children: seq<Child>, name: string) returns (i: nat)
    requires Lookup(children, name) != Absent
    ensures i < |children| && children[i].name == name && children[i].node == Lookup(children, name)
    decreases |children|
  {
    if children[0].name == name { i := 0; } else { i := LookupIn(children[1..], name); i := i + 1; }
  }

  lemma {:induction false} ChildOf(children: seq<Child>, source: Path, relative: Path, skip: set<string>, item: Item)
    returns (i: nat)
    requires item in WalkChildren(children, source, relative, skip)
    ensures i < |children| && children[i].name !in skip
    ensures item in Walk(children[i].node, source + [children[i].name], relative + [children[i].name], {})
    decreases |children|
  {
    if item in WalkChildren(children[1..], source, relative, skip) {
      i := ChildOf(children[1..], source, relative, skip, item);
      i := i + 1;
    } else {
      i := 0;
    }
  }

  lemma {:induction false} ChildIn(children: seq<Child>, source: Path, relative: Path, skip: set<string>, item: Item, i: nat)
    requires i < |children| && children[i].name !in skip
    requires item in Walk(children[i].node, source + [children[i].name], relative + [children[i].name], {})
    ensures item in WalkChildren(children, source, relative, skip)
    decreases |children|
  {
    if i > 0 { ChildIn(children[1..], source, relative, skip, item, i - 1); }
  }

  /** An entry of a walk is a file or link below the source, at the same place below the target. */
  lemma {:induction false} WalkedIsBelow(node: Node, source: Path, relative: Path, skip: set<string>, to: Path, from: Path)
    returns (p: Path)
    requires Proper(node) && Entry(to, from) in Walk(node, source, relative, skip)
    ensures from == source + p && to == relative + p
    ensures Names(p) && (p != [] ==> p[0] !in skip) && Copied(Below(node, p))
    decreases node
  {
    if node.Directory? {
      assert Entry(to, from) != Folder(relative);
      var i := ChildOf(node.children, source, relative, skip, Entry(to, from));
      var child := node.children[i];
      var rest := WalkedIsBelow(child.node, source + [child.name], relative + [child.name], {}, to, from);
      p := [child.name] + rest;
      Associative(source, [child.name], rest);
      Associative(relative, [child.name], rest);
      LookupAt(node.children, i);
      assert p[1..] == rest;
    } else {
      p := [];
    }
  }

  /** Every file or link below the source is an entry of its walk. */
  lemma {:induction false} BelowIsWalked(node: Node, source: Path, relative: Path, skip: set<string>, p: Path)
    requires Copied(Below(node, p)) && (p != [] ==> p[0] !in skip)
    ensures Entry(relative + p, source + p) in Walk(node, source, relative, skip)
    decreases |p|
  {
    if p == [] {
      assert relative + p == relative && source + p == source;
    } else {
      assert Below(Absent, p[1..]) == Absent;
      var i := LookupIn(node.children, p[0]);
      BelowIsWalked(node.children[i].node, source + [p[0]], relative + [p[0]], {}, p[1..]);
      assert p == [p[0]] + p[1..];
      Associative(source, [p[0]], p[1..]);
      Associative(relative, [p[0]], p[1..]);
      ChildIn(node.children, source, relative, skip, Entry(relative + p, source + p), i);
    }
  }

  // ----- What is collected is what the walks visit

  /** Adding keeps what was there and adds exactly the entries, each under its own destination. */
  lemma {:induction false} AddedEntries(c: Collected, items: seq<Item>)
    requires AddAll(c, items).Ok?
    ensures
      var after := AddAll(c, items).value.entries;
      && (forall to :: to in after ==> to in c.entries || Entry(to, after[to]) in items)
      && (forall to :: to in c.entries ==> to in after && after[to] == c.entries[to])
      && (forall to, from :: Entry(to, from) in items ==> to in after && after[to] == from && to !in c.entries)
    decreases |items|
  {
    if items != [] {
      var next := Add(c, items[0]).value;
      AddedEntries(next, items[1..]);
      var after := AddAll(c, items).value.entries;
      forall to, from | Entry(to, from) in items
        ensures to in after && after[to] == from && to !in c.entries
      {
        if Entry(to, from) != items[0] { assert Entry(to, from) in items[1..]; }
      }
      forall to | to in after ensures to in c.entries || Entry(to, after[to]) in items {
        if to !in c.entries && Entry(to, after[to]) !in items[1..] { assert items[0] == Entry(to, after[to]); }
      }
    }
  }

  lemma {:induction false} TaskOfItem(root: Node, tasks: seq<Task>, item: Item) returns (t: Task)
    requires item in PlanItems(root, tasks)
    ensures t in tasks && item in TaskItems(root, t)
    decreases |tasks|
  {
    if item in TaskItems(root, tasks[0]) { t := tasks[0]; } else { t := TaskOfItem(root, tasks[1..], item); }
  }

  lemma {:induction false} ItemOfTask(root: Node, tasks: seq<Task>, t: Task, item: Item)
    requires t in tasks && item in TaskItems(root, t)
    ensures item in PlanItems(root, tasks)
    decreases |tasks|
  {
    if t != tasks[0] { ItemOfTask(root, tasks[1..], t, item); }
  }

  lemma {:induction false} AtProper(root: Node, path: Path)
    requires Proper(root)
    ensures Proper(At(root, path))
    decreases |path|
  {
    if path != [] {
      ResolvedProper(root);
      if Lookup(root.Listing(), path[0]) != Absent { var i := LookupIn(root.Listing(), path[0]); }
      AtProper(Lookup(root.Listing(), path[0]), path[1..]);
    }
  }

  lemma {:induction false} ResolvedProper(node: Node)
    requires Proper(node)
    ensures Proper(node.Resolved())
    decreases node
  {
    if node.Link? { ResolvedProper(node.target); }
  }

  /** Every file or link that a task reaches is collected, and nothing else takes its place. */
  lemma {:induction false} EverythingIsCollected(s: Sources, root: Node, t: Task, p: Path)
    requires Gathered(s, root).Ok? && t in Plan(s, root)
    requires Copied(Below(At(root, t.source), p)) && (p != [] ==> p[0] !in t.skip)
    ensures
      var entries := Gathered(s, root).value.entries;
      t.relative + p in entries && entries[t.relative + p] == t.source + p
  {
    BelowIsWalked(At(root, t.source), t.source, t.relative, t.skip, p);
    ItemOfTask(root, Plan(s, root), t, Entry(t.relative + p, t.source + p));
    AddedEntries(Collected(map[], {}), PlanItems(root, Plan(s, root)));
  }

  /** Everything collected is a file or link that some task reaches. */
  lemma {:induction false} CollectedIsReached(s: Sources, root: Node, to: Path) returns (t: Task, p: Path)
    requires Proper(root) && Gathered(s, root).Ok? && to in Gathered(s, root).value.entries
    ensures t in Plan(s, root) && Reached(t, p) && Copied(Below(At(root, t.source), p))
    ensures to == t.relative + p && Gathered(s, root).value.entries[to] == t.source + p
  {
    var from := Gathered(s, root).value.entries[to];
    AddedEntries(Collected(map[], {}), PlanItems(root, Plan(s, root)));
    t := TaskOfItem(root, Plan(s, root), Entry(to, from));
    AtProper(root, t.source);
    p := WalkedIsBelow(At(root, t.source), t.source, t.relative, t.skip, to, from);
  }

  // ----- References

  /** `to` is at the place below `target` that `from` has below `source`. */
  predicate Parallel(source: Path, target: Path, from: Path, to: Path) {
    source <= from && to == target + from[|source|..]
  }

  lemma {:induction false} Moves(s: Sources, resolve: string -> string, r: Rule, path: Path)
    requires s.Valid() && s.Separate() && Names(path) && Decisive(Rules(s), r, path)
    ensures RelocateText(s, resolve, Str(path)) == Str(r.after + path[|r.before|..])
  {
    RulesValid(s);
    DecisiveMoves(Rules(s), resolve, r, path);
  }

  /** Paths below the same directory differ if they continue with names that begin differently. */
  lemma {:induction false} ContinueDifferently(base: Path, a: Path, b: Path)
    requires base != [] && a != [] && b != [] && a[0] != "" && b[0] != "" && a[0][0] != b[0][0]
    ensures Str(base + a) != Str(base + b)
  {
    TextAppend(base, a);
    TextAppend(base, b);
    assert Text(a)[1] == a[0][0] && Text(b)[1] == b[0][0];
    assert (Text(base) + Text(a))[|Text(base)| + 1] == Text(a)[1];
    assert (Text(base) + Text(b))[|Text(base)| + 1] == Text(b)[1];
  }

  /** References to the inbox executions go to the inbox, not to the state they are copied to. */
  lemma {:induction false} ExecutionsAreLost(s: Sources, resolve: string -> string, p: Path)
    requires s.Valid() && s.Separate() && Names(p)
    ensures RelocateText(s, resolve, Str(s.Executions() + p)) != Str(s.destination + (EXECUTIONS + p))
  {
    var id := (if s.identifier.Some? then [s.identifier.value] else []) + (["executions.json"] + p);
    assert s.Executions() + p == s.state + (["inbox"] + id);
    var tail := if s.config == s.state then ["data", "inbox"] + id else ["inbox"] + id;
    ExecutionsNames(s);
    InboxDecides(s, id);
    InboxMoves(s, id);
    Moves(s, resolve, InboxRule(s), s.Executions() + p);
    assert (EXECUTIONS + p)[0] == "state" && "state"[0] == 's' && "inbox"[0] == 'i' && "data"[0] == 'd';
    ContinueDifferently(s.destination, tail, EXECUTIONS + p);
  }

  lemma {:induction false} ExecutionsNames(s: Sources)
    requires s.Valid()
    ensures Names(s.Executions())
  {
  }

  lemma {:induction false} TaskNames(s: Sources, name: string, t: Task)
    requires s.Valid() && Name(name)
    requires t in ConfigTask(s, name) || t == MappedTask(s, name) || t in AcpTask(s, name)
    ensures Names(t.source)
  {
  }

  lemma {:induction false} LastNames(s: Sources, t: Task)
    requires s.Valid() && t in LastTasks(s)
    ensures Names(t.source)
  {
  }

  lemma {:induction false} ListedProper(root: Node, path: Path, name: string)
    requires Proper(root) && name in At(root, path).ListedNames()
    ensures Name(name)
  {
    AtProper(root, path);
    ResolvedProper(At(root, path));
  }

  lemma {:induction false} PlanNames(s: Sources, root: Node, t: Task)
    requires s.Valid() && Proper(root) && t in Plan(s, root)
    ensures Names(t.source)
  {
    var name := PlanCases(s, root, t);
    if t in LastTasks(s) {
      LastNames(s, t);
    } else {
      if name in MAPPED { MappedNames(name); }
      if name in At(root, s.config).ListedNames() { ListedProper(root, s.config, name); }
      if name in At(root, s.state + ["acp"]).ListedNames() { ListedProper(root, s.state + ["acp"], name); }
      TaskNames(s, name, t);
    }
  }

  /** What holds of the references to the source of one task. */
  lemma {:induction false} ReferenceFollows(s: Sources, resolve: string -> string, t: Task, p: Path)
    requires s.Valid() && s.Separate() && Names(t.source) && Names(p)
    requires Follows(s, t, p) || Untabled(s, t)
    requires !Parallel(s.ServerEnvironment(), ["server.env"], t.source + p, t.relative + p)
    ensures
      RelocateText(s, resolve, Str(t.source + p)) == Str(s.destination + (t.relative + p))
      <==> !Parallel(s.Executions(), EXECUTIONS, t.source + p, t.relative + p)
  {
    var from := t.source + p;
    assert Parallel(t.source, t.relative, from, t.relative + p) by {
      assert from[|t.source|..] == p;
    }
    if Parallel(s.Executions(), EXECUTIONS, from, t.relative + p) {
      var rest := from[|s.Executions()|..];
      assert from == s.Executions() + rest;
      ExecutionsAreLost(s, resolve, rest);
    } else {
      var r :| Decisive(Rules(s), r, from) && r.after + from[|r.before|..] == s.destination + (t.relative + p);
      Moves(s, resolve, r, from);
    }
  }

  /**
   * A document's reference to a collected file becomes the path the file is copied to, except for
   * the inbox executions, whose references go elsewhere. The server environment is not in the table.
   */
  lemma {:induction false} ReferencesFollowFiles(s: Sources, root: Node, resolve: string -> string, to: Path)
    requires s.Valid() && s.Separate() && Proper(root)
    requires Gathered(s, root).Ok? && to in Gathered(s, root).value.entries
    requires !Parallel(s.ServerEnvironment(), ["server.env"], Gathered(s, root).value.entries[to], to)
    ensures
      var from := Gathered(s, root).value.entries[to];
      RelocateText(s, resolve, Str(from)) == Str(s.destination + to)
      <==> !Parallel(s.Executions(), EXECUTIONS, from, to)
  {
    var t, p := CollectedIsReached(s, root, to);
    PlanNames(s, root, t);
    if !Untabled(s, t) { PlanFollows(s, root, t, p); }
    ReferenceFollows(s, resolve, t, p);
  }

  /** The file is no inbox execution and not the server environment. */
  predicate Tabled(s: Sources, from: Path, to: Path) {
    !Parallel(s.ServerEnvironment(), ["server.env"], from, to) && !Parallel(s.Executions(), EXECUTIONS, from, to)
  }

  lemma {:induction false} TabledTask(s: Sources, t: Task, p: Path)
    requires Tabled(s, t.source + p, t.relative + p)
    ensures !Untabled(s, t)
  {
    assert (t.source + p)[|t.source|..] == p;
  }

  lemma {:induction false} RuleOfTask(s: Sources, t: Task, p: Path) returns (r: Rule)
    requires Follows(s, t, p)
    ensures
      Decisive(Rules(s), r, t.source + p) && r.after + (t.source + p)[|r.before|..] == s.destination + (t.relative + p)
  {
    r :|
      && Decisive(Rules(s), r, t.source + p)
      && r.after + (t.source + p)[|r.before|..] == s.destination + (t.relative + p);
  }

  /** Every other collected file has a rule that says where it goes. */
  lemma {:induction false} RuleOf(s: Sources, root: Node, to: Path, from: Path) returns (r: Rule)
    requires s.Valid() && s.Separate() && Proper(root) && Gathered(s, root).Ok?
    requires to in Gathered(s, root).value.entries && from == Gathered(s, root).value.entries[to] && Tabled(s, from, to)
    ensures Names(from) && Decisive(Rules(s), r, from) && r.after + from[|r.before|..] == s.destination + to
  {
    var t, p := CollectedIsReached(s, root, to);
    PlanNames(s, root, t);
    TabledTask(s, t, p);
    PlanFollows(s, root, t, p);
    r := RuleOfTask(s, t, p);
  }

  lemma {:induction false} ResolvedGoes(s: Sources, resolve: string -> string, r: Rule, text: string, path: Path)
    requires s.Valid() && s.Separate() && Names(path) && Decisive(Rules(s), r, path)
    requires Resolvable(text) && resolve(text) == Str(path)
    requires forall q :: q in Rules(s) ==> !Covers(Str(q.before), text)
    ensures RelocateText(s, resolve, text) == Str(r.after + path[|r.before|..])
  {
    RulesValid(s);
    ResolvedMoves(Rules(s), resolve, r, text, path);
  }

  /** A reference through a link from outside the old installation becomes the path of the copy as well. */
  lemma {:induction false} ResolvedReferencesFollow(
    s: Sources, root: Node, resolve: string -> string, text: string, to: Path, from: Path)
    requires s.Valid() && s.Separate() && Proper(root) && Gathered(s, root).Ok?
    requires to in Gathered(s, root).value.entries && from == Gathered(s, root).value.entries[to] && Tabled(s, from, to)
    requires Resolvable(text) && resolve(text) == Str(from)
    requires forall q :: q in Rules(s) ==> !Covers(Str(q.before), text)
    ensures RelocateText(s, resolve, text) == Str(s.destination + to)
  {
    var r := RuleOf(s, root, to, from);
    ResolvedGoes(s, resolve, r, text, from);
  }

  // ----- The server environment

  /** The server environment lies neither above nor below the state and the configuration. */
  predicate EnvironmentApart(s: Sources) {
    Apart(s.config, s.ServerEnvironment()) && Apart(s.state, s.ServerEnvironment())
  }

  lemma {:induction false} NotesApartFromEnvironment(s: Sources)
    ensures Apart(s.Notes(), s.ServerEnvironment())
  {
    assert s.Notes()[|s.home|] == "aow" && s.ServerEnvironment()[|s.home|] == ".config";
    assert "aow"[0] != ".config"[0];
  }

  lemma {:induction false} NoRuleForEnvironment(s: Sources, p: Path, q: Rule)
    requires s.Valid() && EnvironmentApart(s) && q in Rules(s)
    ensures !(q.before <= s.ServerEnvironment() + p)
  {
    var env := s.ServerEnvironment();
    NotesApartFromEnvironment(s);
    if q in Under(s.config, s.destination, CONFIG_TARGETS) {
      NothingUnder(s.config, s.destination, CONFIG_TARGETS, env, p, q);
    } else if q in Under(s.state, s.destination, STATE_TARGETS) {
      NothingUnder(s.state, s.destination, STATE_TARGETS, env, p, q);
    } else if q in Under(s.state, s.destination, MappedTargets()) {
      NothingUnder(s.state, s.destination, MappedTargets(), env, p, q);
    } else {
      NotesApart(s.Notes(), env, p);
    }
  }

  lemma {:induction false} EnvironmentNames(s: Sources)
    requires s.Valid()
    ensures Names(s.ServerEnvironment())
  {
  }

  /** References to the server environment stay, so they follow it only if it is copied onto itself. */
  lemma {:induction false} EnvironmentStays(s: Sources, resolve: string -> string, p: Path)
    requires s.Valid() && s.Separate() && EnvironmentApart(s) && Names(p)
    requires resolve(Str(s.ServerEnvironment() + p)) == Str(s.ServerEnvironment() + p)
    ensures RelocateText(s, resolve, Str(s.ServerEnvironment() + p)) == Str(s.ServerEnvironment() + p)
    ensures
      Str(s.ServerEnvironment() + p) == Str(s.destination + (["server.env"] + p))
      <==> s.ServerEnvironment() == s.destination + ["server.env"]
  {
    var env := s.ServerEnvironment();
    EnvironmentNames(s);
    RulesValid(s);
    forall q | q in Rules(s) ensures !(q.before <= env + p) { NoRuleForEnvironment(s, p, q); }
    UncoveredStays(Rules(s), resolve, env + p);
    Associative(s.destination, ["server.env"], p);
    if Str(env + p) == Str((s.destination + ["server.env"]) + p) { SameBelow(env, s.destination + ["server.env"], p); }
  }

  /** Two paths continued alike are the same text only if they are the same. */
  lemma {:induction false} SameBelow(a: Path, b: Path, p: Path)
    requires Names(a) && Names(b) && Names(p) && a != [] && b != []
    requires Str(a + p) == Str(b + p)
    ensures a == b
  {
    SamePath(a + p, b + p);
    SameStart(a, b, p);
  }

  lemma {:induction false} EnvironmentReference(s: Sources, resolve: string -> string, from: Path, to: Path)
    requires s.Valid() && s.Separate() && EnvironmentApart(s) && Names(from) && resolve(Str(from)) == Str(from)
    requires Parallel(s.ServerEnvironment(), ["server.env"], from, to)
    ensures !Parallel(s.Executions(), EXECUTIONS, from, to)
    ensures
      RelocateText(s, resolve, Str(from)) == Str(s.destination + to)
      <==> s.ServerEnvironment() == s.destination + ["server.env"]
  {
    var rest := from[|s.ServerEnvironment()|..];
    assert from == s.ServerEnvironment() + rest;
    EnvironmentStays(s, resolve, rest);
    NotExecutions(s, rest);
  }

  lemma {:induction false} NotExecutions(s: Sources, p: Path)
    requires EnvironmentApart(s)
    ensures !(s.Executions() <= s.ServerEnvironment() + p)
  {
    if s.Executions() <= s.ServerEnvironment() + p {
      PrefixesCompare(s.state, s.ServerEnvironment(), s.ServerEnvironment() + p);
    }
  }

  lemma {:induction false} CollectedNames(s: Sources, root: Node, to: Path)
    requires s.Valid() && Proper(root) && Gathered(s, root).Ok? && to in Gathered(s, root).value.entries
    ensures Names(Gathered(s, root).value.entries[to])
  {
    var t, p := CollectedIsReached(s, root, to);
    PlanNames(s, root, t);
  }

  /**
   * Of all collected files, references fail to follow exactly two: the inbox executions, and the
   * server environment unless it is copied onto itself. The environment's path resolves to itself.
   */
  lemma {:induction false} AllReferences(s: Sources, root: Node, resolve: string -> string, to: Path)
    requires s.Valid() && s.Separate() && EnvironmentApart(s) && Proper(root)
    requires Gathered(s, root).Ok? && to in Gathered(s, root).value.entries
    requires
      var from := Gathered(s, root).value.entries[to];
      s.ServerEnvironment() <= from ==> resolve(Str(from)) == Str(from)
    ensures
      var from := Gathered(s, root).value.entries[to];
      RelocateText(s, resolve, Str(from)) == Str(s.destination + to)
      <==> && !Parallel(s.Executions(), EXECUTIONS, from, to)
           && (Parallel(s.ServerEnvironment(), ["server.env"], from, to)
               ==> s.ServerEnvironment() == s.destination + ["server.env"])
  {
    var from := Gathered(s, root).value.entries[to];
    if Parallel(s.ServerEnvironment(), ["server.env"], from, to) {
      CollectedNames(s, root, to);
      EnvironmentReference(s, resolve, from, to);
    } else {
      ReferencesFollowFiles(s, root, resolve, to);
    }
  }

  // ----- Documents

  /**
   * In a rewritten document, however it is read, a selected string that named a collected file
   * names its copy.
   */
  lemma {:induction false} DocumentsFollowFiles(
      s: Sources, root: Node, resolve: string -> string, to: Path,
      c: J.Codec, ts: seq<J.Token>, before: J.Node, after: J.Node, steps: seq<nat>)
    requires s.Valid() && s.Separate() && Proper(root)
    requires Gathered(s, root).Ok? && to in Gathered(s, root).value.entries
    requires !Parallel(s.ServerEnvironment(), ["server.env"], Gathered(s, root).value.entries[to], to)
    requires !Parallel(s.Executions(), EXECUTIONS, Gathered(s, root).value.entries[to], to)
    requires c.Lawful() && forall value :: c.relocate(value) == RelocateText(s, resolve, value)
    requires J.Readable(before) && J.Print(before) == ts && J.Readable(after)
    requires J.WalkValue(J.RulesOf(c), ts, [], []) == J.Walked(J.Print(after), [])
    requires J.ValueAt(J.Decode(c, before), steps) == Some(J.VScalar(J.Text(Str(Gathered(s, root).value.entries[to]))))
    requires c.Selected(J.PathTo(J.Decode(c, before), steps))
    ensures J.ValueAt(J.Decode(c, after), steps) == Some(J.VScalar(J.Text(Str(s.destination + to))))
  {
    ReferencesFollowFiles(s, root, resolve, to);
    J.StringRelocated(c, ts, before, after, steps, Str(Gathered(s, root).value.entries[to]));
  }
}
