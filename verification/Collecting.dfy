/** Walking the old installation and filling the table of files to copy. */
module Collecting {
  import opened Wrappers
  import opened RelocationTable
  import opened Migration

  datatype Failure = NoConfiguration | Duplicate(relative: Path) | Unsupported(source: Path)

  /** What has been collected: where each file comes from, and the directories to create. */
  datatype Collected = Collected(entries: map<Path, Path>, directories: set<Path>)

  // ----- What one source contributes, in the order in which it is visited

  datatype Item = Entry(relative: Path, source: Path) | Folder(relative: Path) | Other(source: Path)

  /** The files, directories and links below a node; links are not followed. */
  function Walk(node: Node, source: Path, relative: Path, skip: set<string>): seq<Item>
    decreases node, 0
  {
    match node
    case Absent => []
    case File => [Entry(relative, source)]
    case Link(_) => [Entry(relative, source)]
    case Special => [Other(source)]
    case Directory(children) => [Folder(relative)] + WalkChildren(children, source, relative, skip)
  }

  function WalkChildren(children: seq<Child>, source: Path, relative: Path, skip: set<string>): seq<Item>
    decreases children, 1
  {
    if children == [] then []
    else if children[0].name in skip then WalkChildren(children[1..], source, relative, skip)
    else
      Walk(children[0].node, source + [children[0].name], relative + [children[0].name], {})
      + WalkChildren(children[1..], source, relative, skip)
  }

  function Add(c: Collected, item: Item): Result<Collected, Failure> {
    match item
    case Entry(relative, source) =>
      if relative in c.entries then Err(Duplicate(relative))
      else Ok(c.(entries := c.entries[relative := source]))
    case Folder(relative) => Ok(c.(directories := c.directories + {relative}))
    case Other(source) => Err(Unsupported(source))
  }

  function AddAll(c: Collected, items: seq<Item>): Result<Collected, Failure>
    decreases |items|
  {
    if items == [] then Ok(c)
    else
      match Add(c, items[0])
      case Err(e) => Err(e)
      case Ok(c') => AddAll(c', items[1..])
  }

  lemma {:induction false} AddAllAppend(c: Collected, a: seq<Item>, b: seq<Item>)
    ensures
      AddAll(c, a + b) ==
      match AddAll(c, a)
      case Err(e) => Err(e)
      case Ok(c') => AddAll(c', b)
    decreases |a|
  {
    if a == [] {
      assert a + b == b;
    } else {
      assert (a + b)[0] == a[0] && (a + b)[1..] == a[1..] + b;
      if Add(c, a[0]).Ok? { AddAllAppend(Add(c, a[0]).value, a[1..], b); }
    }
  }

  /** Nothing unsupported, and no two files for one destination. */
  ghost predicate Collectable(c: Collected, items: seq<Item>) {
    && (forall i :: 0 <= i < |items| ==> !items[i].Other?)
    && (forall i :: 0 <= i < |items| && items[i].Entry? ==> items[i].relative !in c.entries)
    && (forall i, j :: 0 <= i < j < |items| && items[i].Entry? && items[j].Entry? ==>
          items[i].relative != items[j].relative)
  }

  lemma {:induction false} CollectableFirst(c: Collected, items: seq<Item>)
    requires items != []
    ensures Collectable(c, items) <==> Add(c, items[0]).Ok? && Collectable(Add(c, items[0]).value, items[1..])
  {
    var first, rest := items[0], items[1..];
    assert forall i :: 0 <= i < |rest| ==> rest[i] == items[i + 1];
    if Add(c, first).Ok? && Collectable(Add(c, first).value, rest) {
      assert forall i :: 0 < i < |items| ==> items[i] == rest[i - 1];
    }
  }

  /** Collecting succeeds exactly when everything is supported and has a destination of its own. */
  lemma {:induction false} CollectsExactly(c: Collected, items: seq<Item>)
    ensures AddAll(c, items).Ok? <==> Collectable(c, items)
    decreases |items|
  {
    if items != [] {
      CollectableFirst(c, items);
      if Add(c, items[0]).Ok? { CollectsExactly(Add(c, items[0]).value, items[1..]); }
    }
  }

  /** The directories to create are exactly those visited. */
  lemma {:induction false} DirectoriesAre(c: Collected, items: seq<Item>, d: Path)
    requires AddAll(c, items).Ok?
    ensures d in AddAll(c, items).value.directories <==> d in c.directories || Folder(d) in items
    decreases |items|
  {
    if items != [] {
      DirectoriesAre(Add(c, items[0]).value, items[1..], d);
      assert Folder(d) in items <==> Folder(d) == items[0] || Folder(d) in items[1..];
    }
  }

  function TaskItems(root: Node, t: Task): seq<Item> { Walk(At(root, t.source), t.source, t.relative, t.skip) }

  function PlanItems(root: Node, tasks: seq<Task>): seq<Item>
    decreases |tasks|
  {
    if tasks == [] then [] else TaskItems(root, tasks[0]) + PlanItems(root, tasks[1..])
  }

  lemma {:induction false} PlanItemsAppend(root: Node, a: seq<Task>, b: seq<Task>)
    ensures PlanItems(root, a + b) == PlanItems(root, a) + PlanItems(root, b)
    decreases |a|
  {
    if a == [] {
      assert a + b == b;
    } else {
      assert (a + b)[0] == a[0] && (a + b)[1..] == a[1..] + b;
      PlanItemsAppend(root, a[1..], b);
    }
  }

  /** Everything the migration collects. */
  function Gathered(s: Sources, root: Node): Result<Collected, Failure> {
    if !At(root, s.config).Resolved().Directory? then Err(NoConfiguration)
    else AddAll(Collected(map[], {}), PlanItems(root, Plan(s, root)))
  }

  // ----- The collector

  class Collector {
    var entries: map<Path, Path>
    var directories: set<Path>

    function Value(): Collected
      reads this
    {
      Collected(entries, directories)
    }

    constructor ()
      ensures Value() == Collected(map[], {})
    {
      entries, directories := map[], {};
    }

    /** How a call that ended in `r` left the collection. */
    function Outcome(r: Result<(), Failure>): Result<Collected, Failure>
      reads this
    {
      match r
      case Ok(_) => Ok(Value())
      case Err(e) => Err(e)
    }

    method Put(source: Path, relative: Path) returns (r: Result<(), Failure>)
      modifies this
      ensures Outcome(r) == Add(old(Value()), Entry(relative, source))
      ensures r.Err? ==> Value() == old(Value())
    {
      if relative in entries { return Err(Duplicate(relative)); }
      entries := entries[relative := source];
      r := Ok(());
    }

    method Collect(node: Node, source: Path, relative: Path, skip: set<string>) returns (r: Result<(), Failure>)
      modifies this
      ensures Outcome(r) == AddAll(old(Value()), Walk(node, source, relative, skip))
      decreases node, 0
    {
      match node
      case Link(_) => r := Put(source, relative);
      case Directory(children) =>
        directories := directories + {relative};
        r := CollectChildren(children, source, relative, skip);
        assert Walk(node, source, relative, skip)[1..] == WalkChildren(children, source, relative, skip);
      case File => r := Put(source, relative);
      case Special => r := Err(Unsupported(source));
      case Absent => r := Ok(());
    }

    method CollectChildren(children: seq<Child>, source: Path, relative: Path, skip: set<string>)
      returns (r: Result<(), Failure>)
      modifies this
      ensures Outcome(r) == AddAll(old(Value()), WalkChildren(children, source, relative, skip))
      decreases children, 1
    {
      var i := 0;
      ghost var rest := children;
      while i < |children|
        invariant 0 <= i <= |children| && rest == children[i..]
        invariant
          AddAll(Value(), WalkChildren(rest, source, relative, skip))
          == AddAll(old(Value()), WalkChildren(children, source, relative, skip))
      {
        var child := children[i];
        assert child == rest[0];
        if child.name !in skip {
          ghost var before := Value();
          r := Collect(child.node, source + [child.name], relative + [child.name], {});
          AddAllAppend(before, Walk(child.node, source + [child.name], relative + [child.name], {}),
                       WalkChildren(rest[1..], source, relative, skip));
          if r.Err? { return; }
        }
        i := i + 1;
        rest := rest[1..];
      }
      r := Ok(());
    }

    method Perform(root: Node, tasks: seq<Task>) returns (r: Result<(), Failure>)
      modifies this
      ensures Outcome(r) == AddAll(old(Value()), PlanItems(root, tasks))
    {
      var i := 0;
      ghost var rest := tasks;
      while i < |tasks|
        invariant 0 <= i <= |tasks| && rest == tasks[i..]
        invariant AddAll(Value(), PlanItems(root, rest)) == AddAll(old(Value()), PlanItems(root, tasks))
      {
        var t := tasks[i];
        assert t == rest[0];
        FirstTask(Value(), root, rest);
        r := Collect(At(root, t.source), t.source, t.relative, t.skip);
        if r.Err? { return; }
        i := i + 1;
        rest := rest[1..];
      }
      r := Ok(());
    }

    /** One of the loops over names: what each name contributes, in order. */
    method CollectEach(root: Node, each: string -> seq<Task>, names: seq<string>) returns (r: Result<(), Failure>)
      modifies this
      ensures Outcome(r) == AddAll(old(Value()), PlanItems(root, TasksOf(each, names)))
    {
      var i := 0;
      ghost var rest := names;
      while i < |names|
        invariant 0 <= i <= |names| && rest == names[i..]
        invariant
          AddAll(Value(), PlanItems(root, TasksOf(each, rest)))
          == AddAll(old(Value()), PlanItems(root, TasksOf(each, names)))
      {
        assert names[i] == rest[0];
        FirstName(Value(), root, each, rest);
        r := Perform(root, each(names[i]));
        if r.Err? { return; }
        i := i + 1;
        rest := rest[1..];
      }
      r := Ok(());
    }

    /** Three loops over names, and then single tasks. */
    method CollectAll(root: Node, first: string -> seq<Task>, firsts: seq<string>,
                      second: string -> seq<Task>, seconds: seq<string>,
                      third: string -> seq<Task>, thirds: seq<string>, last: seq<Task>)
      returns (r: Result<(), Failure>)
      modifies this
      ensures
        Outcome(r) ==
        AddAll(old(Value()),
               PlanItems(root, TasksOf(first, firsts) + (TasksOf(second, seconds) + (TasksOf(third, thirds) + last))))
    {
      FourParts(Value(), root, TasksOf(first, firsts), TasksOf(second, seconds), TasksOf(third, thirds), last);
      r := CollectEach(root, first, firsts);
      if r.Err? { return; }
      r := CollectEach(root, second, seconds);
      if r.Err? { return; }
      r := CollectEach(root, third, thirds);
      if r.Err? { return; }
      r := Perform(root, last);
    }

    /** All of the collection, in the order in which the migration does it. */
    method Gather(s: Sources, root: Node) returns (r: Result<(), Failure>)
      requires Value() == Collected(map[], {})
      modifies this
      ensures Outcome(r) == Gathered(s, root)
    {
      if !At(root, s.config).Resolved().Directory? { return Err(NoConfiguration); }
      var config, acp := At(root, s.config).ListedNames(), At(root, s.state + ["acp"]).ListedNames();
      r := CollectAll(root, ConfigEach(s), config, MappedEach(s), MAPPED, AcpEach(s), acp, LastTasks(s));
    }
  }

  function Then(r: Result<Collected, Failure>, items: seq<Item>): Result<Collected, Failure> {
    match r
    case Err(e) => Err(e)
    case Ok(c) => AddAll(c, items)
  }

  lemma {:induction false} TwoParts(start: Collected, root: Node, a: seq<Task>, b: seq<Task>)
    ensures AddAll(start, PlanItems(root, a + b)) == Then(AddAll(start, PlanItems(root, a)), PlanItems(root, b))
  {
    PlanItemsAppend(root, a, b);
    AddAllAppend(start, PlanItems(root, a), PlanItems(root, b));
  }

  lemma {:induction false} FirstTask(start: Collected, root: Node, tasks: seq<Task>)
    requires tasks != []
    ensures
      AddAll(start, PlanItems(root, tasks)) ==
      Then(AddAll(start, TaskItems(root, tasks[0])), PlanItems(root, tasks[1..]))
  {
    AddAllAppend(start, TaskItems(root, tasks[0]), PlanItems(root, tasks[1..]));
  }

  lemma {:induction false} FirstName(start: Collected, root: Node, each: string -> seq<Task>, names: seq<string>)
    requires names != []
    ensures
      AddAll(start, PlanItems(root, TasksOf(each, names))) ==
      Then(AddAll(start, PlanItems(root, each(names[0]))), PlanItems(root, TasksOf(each, names[1..])))
  {
    TwoParts(start, root, each(names[0]), TasksOf(each, names[1..]));
  }

  lemma {:induction false} FourParts(start: Collected, root: Node, a: seq<Task>, b: seq<Task>, c: seq<Task>, d: seq<Task>)
    ensures
      AddAll(start, PlanItems(root, a + (b + (c + d)))) ==
      Then(Then(Then(AddAll(start, PlanItems(root, a)), PlanItems(root, b)), PlanItems(root, c)), PlanItems(root, d))
  {
    TwoParts(start, root, a, b + (c + d));
    var first := AddAll(start, PlanItems(root, a));
    if first.Ok? {
      TwoParts(first.value, root, b, c + d);
      var second := AddAll(first.value, PlanItems(root, b));
      if second.Ok? { TwoParts(second.value, root, c, d); }
    }
  }
}
