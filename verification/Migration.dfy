/**
 * What is collected from an old installation and where it goes, the rules of the relocation table,
 * and the proof that for every collecting step a rule sends references where the step sends files.
 */
module Migration {
  import opened Wrappers
  import opened RelocationTable

  /** The old directories and the new home. No identifier means no shared configuration. */
  datatype Sources = Sources(home: Path, state: Path, config: Path, identifier: Option<string>, destination: Path) {
    predicate Valid() {
      && Names(home) && Names(state) && Names(config) && Names(destination) && destination != []
      && (identifier.Some? ==> Name(identifier.value))
    }

    function Notes(): Path { home + ["aow"] }

    function ServerEnvironment(): Path { home + [".config", "aow", "server.env"] }

    /** Where the executions of the inbox are read from. */
    function Executions(): Path {
      state + ((if identifier.Some? then ["inbox", identifier.value] else ["inbox"]) + ["executions.json"])
    }

    /** No source root lies inside another, except that the configuration may be the state directory. */
    predicate Separate() {
      && (config == state || Apart(config, state))
      && Apart(Notes(), config) && Apart(Notes(), state)
    }
  }

  predicate Apart(a: Path, b: Path) { !(a <= b) && !(b <= a) }

  // ----- The table

  /** Something below a source root and where it goes below the destination. */
  datatype Target = Target(suffix: Path, to: Path)

  const CONFIG_TARGETS: seq<Target> := [
    Target(["acp", "settings.json"], ["aow-acp.json"]),
    Target(["inbox"], ["data", "inbox"]),
    Target([], [])]

  const STATE_TARGETS: seq<Target> := [
    Target(["acp", "agents"], ["cache", "acp", "agents"]),
    Target(["acp", "installations"], ["cache", "acp", "installations"]),
    Target(["acp", "registry.json"], ["cache", "acp", "registry.json"]),
    Target(["acp"], ["data", "acp"]),
    Target(["automations", "tasks"], ["automations", "tasks"]),
    Target(["cli"], ["runtime", "cli"]),
    Target([], [])]

  const MAPPED: seq<string> := [
    "credentials.json", "notification-settings.json", "terminals.json", "instances.json", "session-shares.json",
    "operation-logs", "automations", "agents", "repos", "data", "skills", "im", "clipboard-images", "zed"]

  function MappedTo(name: string): Path {
    match name
    case "terminals.json" => ["state", "terminals.json"]
    case "instances.json" => ["state", "instances.json"]
    case "session-shares.json" => ["data", "session-shares.json"]
    case "operation-logs" => ["state", "operation-logs"]
    case "automations" => ["state", "automations"]
    case "agents" => ["data", "agents"]
    case "repos" => ["data", "repos"]
    case "im" => ["state", "im"]
    case "clipboard-images" => ["cache", "clipboard-images"]
    case "zed" => ["data", "zed"]
    case _ => [name]
  }

  function MappedTargets(): (r: seq<Target>)
    ensures |r| == |MAPPED| && forall i :: 0 <= i < |r| ==> r[i] == Target([MAPPED[i]], MappedTo(MAPPED[i]))
  {
    seq(|MAPPED|, i requires 0 <= i < |MAPPED| => Target([MAPPED[i]], MappedTo(MAPPED[i])))
  }

  function Under(root: Path, destination: Path, targets: seq<Target>): (r: seq<Rule>)
    ensures |r| == |targets|
    ensures forall i :: 0 <= i < |r| ==> r[i] == Rule(root + targets[i].suffix, destination + targets[i].to)
  {
    seq(|targets|, i requires 0 <= i < |targets| => Rule(root + targets[i].suffix, destination + targets[i].to))
  }

  function Rules(s: Sources): seq<Rule> {
    Under(s.config, s.destination, CONFIG_TARGETS)
    + Under(s.state, s.destination, STATE_TARGETS)
    + [Rule(s.Notes(), s.destination + ["data", "notes"])]
    + Under(s.state, s.destination, MappedTargets())
  }

  /** What the migration does with a string of a document. */
  function RelocateText(s: Sources, resolve: string -> string, value: string): string {
    Relocate(Sort(Printed(Rules(s))), resolve, value)
  }

  /** Names of the shared configuration, apart from those with a place of their own. */
  predicate Document(name: string) {
    || name == "aow-projects.json" || name == "aow-agents.json" || name == "aow-settings.json"
    || name == "git-platform-providers.json" || name == "git-platform-providers"
  }

  /** No mapped name has the length of a document's name. */
  lemma {:induction false} MappedLengths(i: nat)
    requires i < |MAPPED|
    ensures MAPPED[i] == "repos" || MAPPED[i] == "zed" || |MAPPED[i]| in {2, 4, 6, 11, 14, 16, 19, 26}
  {
  }

  lemma {:induction false} MappedNamed(i: nat)
    requires i < |MAPPED|
    ensures Name(MAPPED[i])
  {
  }

  lemma {:induction false} MappedNames(name: string)
    requires name in MAPPED
    ensures Name(name) && name != "acp" && name != "cli" && name != "inbox" && !Document(name)
  {
    var i :| 0 <= i < |MAPPED| && MAPPED[i] == name;
    MappedLengths(i);
    MappedNamed(i);
    assert "zed"[0] == 'z' && "repos"[0] == 'r';
  }

  lemma {:induction false} DocumentNames(name: string)
    requires Document(name)
    ensures name != "acp" && name != "cli" && name != "inbox" && name != "automations"
  {
  }

  predicate Named(targets: seq<Target>) { forall i :: 0 <= i < |targets| ==> Names(targets[i].suffix) }

  lemma {:induction false} MappedTargetsNamed()
    ensures Named(MappedTargets())
  {
    forall i | 0 <= i < |MAPPED| ensures Names(MappedTargets()[i].suffix) { MappedNamed(i); }
  }

  lemma {:induction false} StateTargetsNamed()
    ensures Named(STATE_TARGETS)
  {
  }

  lemma {:induction false} UnderValid(root: Path, destination: Path, targets: seq<Target>)
    requires Names(root) && root != [] && destination != [] && Named(targets)
    ensures forall q :: q in Under(root, destination, targets) ==> q.Valid()
  {
  }

  lemma {:induction false} RulesValid(s: Sources)
    requires s.Valid() && s.Separate()
    ensures forall q :: q in Rules(s) ==> q.Valid()
  {
    assert s.config != [] && s.state != [];
    MappedTargetsNamed();
    StateTargetsNamed();
    UnderValid(s.config, s.destination, CONFIG_TARGETS);
    UnderValid(s.state, s.destination, STATE_TARGETS);
    UnderValid(s.state, s.destination, MappedTargets());
  }

  // ----- The longest rule, one source root at a time

  /** Of the targets on the way to `x`, none but `best` is as long as `best`. */
  ghost predicate Longest(targets: seq<Target>, x: Path, best: Target) {
    forall i :: 0 <= i < |targets| && targets[i].suffix <= x ==>
      |targets[i].suffix| < |best.suffix| || targets[i] == best
  }

  /** Below one root, the longest rule is the one with the longest suffix. */
  lemma {:induction false} LongestUnder(root: Path, destination: Path, targets: seq<Target>, x: Path, best: Target, q: Rule)
    requires Longest(targets, x, best)
    requires q in Under(root, destination, targets) && q.before <= root + x
    ensures |q.before| < |root| + |best.suffix| || q == Rule(root + best.suffix, destination + best.to)
  {
    var i :| 0 <= i < |targets| && q == Rule(root + targets[i].suffix, destination + targets[i].to);
    assert (root + x)[|root|..] == x && q.before[|root|..] == targets[i].suffix;
  }

  lemma {:induction false} PrefixesCompare(a: Path, b: Path, path: Path)
    requires a <= path && b <= path
    ensures !Apart(a, b)
  {
    if |a| <= |b| { assert a == b[..|a|]; } else { assert b == a[..|b|]; }
  }

  /** A rule of one root says nothing about what lies under a root apart from it. */
  lemma {:induction false} NothingUnder(root: Path, destination: Path, targets: seq<Target>, other: Path, x: Path, q: Rule)
    requires Apart(root, other)
    requires q in Under(root, destination, targets)
    ensures !(q.before <= other + x)
  {
    var i :| 0 <= i < |targets| && q == Rule(root + targets[i].suffix, destination + targets[i].to);
    if q.before <= other + x { PrefixesCompare(root, other, other + x); }
  }

  lemma {:induction false} StateDecides(s: Sources, x: Path, best: Target)
    requires s.Valid() && s.Separate() && best.suffix <= x
    requires
      || best in STATE_TARGETS
      || best in MappedTargets()
      || (s.config == s.state && best in CONFIG_TARGETS)
    requires Longest(STATE_TARGETS, x, best) && Longest(MappedTargets(), x, best)
    requires s.config == s.state ==> Longest(CONFIG_TARGETS, x, best)
    ensures Decisive(Rules(s), Rule(s.state + best.suffix, s.destination + best.to), s.state + x)
  {
    var r, path := Rule(s.state + best.suffix, s.destination + best.to), s.state + x;
    forall q | q in Rules(s) && q.before <= path ensures |q.before| < |r.before| || q == r {
      if q in Under(s.config, s.destination, CONFIG_TARGETS) {
        if s.config == s.state {
          LongestUnder(s.state, s.destination, CONFIG_TARGETS, x, best, q);
        } else {
          NothingUnder(s.config, s.destination, CONFIG_TARGETS, s.state, x, q);
        }
      } else if q in Under(s.state, s.destination, STATE_TARGETS) {
        LongestUnder(s.state, s.destination, STATE_TARGETS, x, best, q);
      } else if q in Under(s.state, s.destination, MappedTargets()) {
        LongestUnder(s.state, s.destination, MappedTargets(), x, best, q);
      } else {
        NotesApart(s.Notes(), s.state, x);
      }
    }
  }

  lemma {:induction false} NotesApart(root: Path, other: Path, x: Path)
    requires Apart(root, other)
    ensures !(root <= other + x)
  {
    if root <= other + x { PrefixesCompare(root, other, other + x); }
  }

  lemma {:induction false} ConfigDecides(s: Sources, x: Path, best: Target)
    requires s.Valid() && s.Separate() && s.config != s.state && best.suffix <= x
    requires best in CONFIG_TARGETS && Longest(CONFIG_TARGETS, x, best)
    ensures Decisive(Rules(s), Rule(s.config + best.suffix, s.destination + best.to), s.config + x)
  {
    var r, path := Rule(s.config + best.suffix, s.destination + best.to), s.config + x;
    forall q | q in Rules(s) && q.before <= path ensures |q.before| < |r.before| || q == r {
      if q in Under(s.config, s.destination, CONFIG_TARGETS) {
        LongestUnder(s.config, s.destination, CONFIG_TARGETS, x, best, q);
      } else if q in Under(s.state, s.destination, STATE_TARGETS) {
        NothingUnder(s.state, s.destination, STATE_TARGETS, s.config, x, q);
      } else if q in Under(s.state, s.destination, MappedTargets()) {
        NothingUnder(s.state, s.destination, MappedTargets(), s.config, x, q);
      } else {
        NotesApart(s.Notes(), s.config, x);
      }
    }
  }

  lemma {:induction false} NotesDecide(s: Sources, x: Path)
    requires s.Valid() && s.Separate()
    ensures Decisive(Rules(s), Rule(s.Notes(), s.destination + ["data", "notes"]), s.Notes() + x)
  {
  }

  // ----- What is collected

  /** A file system tree; a link holds what it resolves to, `Absent` if it is broken. */
  datatype Node = Absent | File | Special | Directory(children: seq<Child>) | Link(target: Node) {
    function Resolved(): Node
      decreases this
    {
      if Link? then target.Resolved() else this
    }

    /** The entries seen by listing this node, links followed. */
    function Listing(): seq<Child> { if Resolved().Directory? then Resolved().children else [] }

    function ListedNames(): seq<string> { seq(|Listing()|, i requires 0 <= i < |Listing()| => Listing()[i].name) }
  }

  datatype Child = Child(name: string, node: Node)

  function Lookup(children: seq<Child>, name: string): Node
    decreases |children|
  {
    if children == [] then Absent else if children[0].name == name then children[0].node else Lookup(children[1..], name)
  }

  /** The node at a path, links on the way followed. */
  function At(root: Node, path: Path): Node
    decreases |path|
  {
    if path == [] then root else At(Lookup(root.Listing(), path[0]), path[1..])
  }

  /** One call of `collect`: where from, where to, and the names to leave out at the top. */
  datatype Task = Task(source: Path, relative: Path, skip: set<string>)

  predicate Ignored(name: string) {
    || name == ".git" || ".config-" <= name
    || name == "config.toml" || name == "__current__" || name == "pin.md5"
  }

  /** What an entry of the configuration directory contributes. */
  function ConfigTask(s: Sources, name: string): seq<Task> {
    if Ignored(name) then []
    else if s.config == s.state && !Document(name) && name != "acp" && name != "automations" then []
    else if name == "acp" then [Task(s.config + ["acp", "settings.json"], ["aow-acp.json"], {})]
    else if name == "inbox" then [Task(s.config + ["inbox"], ["data", "inbox"], {})]
    else if name == "automations" then [Task(s.config + ["automations", "tasks"], ["automations", "tasks"], {})]
    else [Task(s.config + [name], [name], {})]
  }

  function MappedTask(s: Sources, name: string): Task {
    Task(s.state + [name], MappedTo(name), if name == "automations" then {"tasks"} else {})
  }

  predicate Cached(name: string) { name == "agents" || name == "installations" || name == "registry.json" }

  function AcpTask(s: Sources, name: string): seq<Task> {
    if name == "settings.json" then []
    else [Task(s.state + ["acp", name], [if Cached(name) then "cache" else "data", "acp", name], {})]
  }

  function ConfigEach(s: Sources): string -> seq<Task> { name => ConfigTask(s, name) }

  function MappedEach(s: Sources): string -> seq<Task> { name => [MappedTask(s, name)] }

  function AcpEach(s: Sources): string -> seq<Task> { name => AcpTask(s, name) }

  /** What a loop over names collects. */
  function TasksOf(each: string -> seq<Task>, names: seq<string>): seq<Task>
    decreases |names|
  {
    if names == [] then [] else each(names[0]) + TasksOf(each, names[1..])
  }

  const EXECUTIONS: Path := ["state", "inbox", "executions.json"]

  function LastTasks(s: Sources): seq<Task> {
    [Task(s.Executions(), EXECUTIONS, {}), Task(s.Notes(), ["data", "notes"], {}),
     Task(s.ServerEnvironment(), ["server.env"], {})]
  }

  function Plan(s: Sources, root: Node): seq<Task> {
    TasksOf(ConfigEach(s), At(root, s.config).ListedNames())
    + (TasksOf(MappedEach(s), MAPPED)
    + (TasksOf(AcpEach(s), At(root, s.state + ["acp"]).ListedNames())
    + LastTasks(s)))
  }

  // ----- Every task's sources relocate to its destination

  /** References to what lies at `p` below the source of `t` go where it is copied. */
  ghost predicate Follows(s: Sources, t: Task, p: Path) {
    exists r ::
      && Decisive(Rules(s), r, t.source + p)
      && r.after + (t.source + p)[|r.before|..] == s.destination + (t.relative + p)
  }

  predicate Reached(t: Task, p: Path) { Names(p) && (p != [] ==> p[0] !in t.skip) }

  lemma {:induction false} FollowsBy(s: Sources, t: Task, p: Path, root: Path, x: Path, best: Target, rest: Path)
    requires t.source == root + x
    requires Decisive(Rules(s), Rule(root + best.suffix, s.destination + best.to), root + (x + p))
    requires x + p == best.suffix + rest && t.relative + p == best.to + rest
    ensures Follows(s, t, p)
  {
    var r := Rule(root + best.suffix, s.destination + best.to);
    Associative(root, x, p);
    Associative(root, best.suffix, rest);
    Associative(s.destination, best.to, rest);
    assert (r.before + rest)[|r.before|..] == rest;
  }

  /** What the first two components of a path say about the targets on its way. */
  predicate Starts(suffix: Path, x: Path) {
    |suffix| <= |x| && (|suffix| > 0 ==> suffix[0] == x[0]) && (|suffix| > 1 ==> suffix[1] == x[1])
  }

  lemma {:induction false} OnTheWay(targets: seq<Target>, x: Path)
    ensures forall i :: 0 <= i < |targets| && targets[i].suffix <= x ==> Starts(targets[i].suffix, x)
  {
  }

  lemma {:induction false} OnlyMapped(name: string, p: Path)
    ensures
      forall i :: 0 <= i < |MAPPED| && MappedTargets()[i].suffix <= [name] + p ==>
        MappedTargets()[i] == Target([name], MappedTo(name)) && name in MAPPED
  {
    OnTheWay(MappedTargets(), [name] + p);
  }

  lemma {:induction false} MappedFollows(s: Sources, name: string, p: Path)
    requires s.Valid() && s.Separate()
    requires name in MAPPED && Reached(MappedTask(s, name), p)
    ensures Follows(s, MappedTask(s, name), p)
  {
    var x, best := [name] + p, Target([name], MappedTo(name));
    MappedNames(name);
    assert best in MappedTargets() by {
      var i :| 0 <= i < |MAPPED| && MAPPED[i] == name;
      assert MappedTargets()[i] == best;
    }
    OnTheWay(STATE_TARGETS, x);
    OnTheWay(CONFIG_TARGETS, x);
    OnlyMapped(name, p);
    assert x[0] == name && (p != [] ==> x[1] == p[0]);
    StateDecides(s, x, best);
    FollowsBy(s, MappedTask(s, name), p, s.state, [name], best, p);
  }

  lemma {:induction false} NotMapped(name: string, p: Path, best: Target)
    requires name !in MAPPED
    ensures Longest(MappedTargets(), [name] + p, best)
  {
    OnlyMapped(name, p);
  }

  /** Below `acp` of the state directory. */
  lemma {:induction false} AcpDecides(s: Sources, rest: Path, best: Target)
    requires s.Valid() && s.Separate() && rest != [] && rest[0] != "settings.json"
    requires best in STATE_TARGETS && best.suffix != [] && best.suffix <= ["acp"] + rest
    requires best.suffix == ["acp"] ==> !Cached(rest[0])
    ensures Decisive(Rules(s), Rule(s.state + best.suffix, s.destination + best.to), s.state + (["acp"] + rest))
  {
    var x := ["acp"] + rest;
    OnTheWay(STATE_TARGETS, x);
    OnTheWay(CONFIG_TARGETS, x);
    if "acp" in MAPPED { MappedNames("acp"); }
    NotMapped("acp", rest, best);
    assert x[1] == rest[0];
    StateDecides(s, x, best);
  }

  lemma {:induction false} CachedFollows(s: Sources, name: string, p: Path)
    requires s.Valid() && s.Separate() && Names(p) && Cached(name)
    ensures Follows(s, Task(s.state + ["acp", name], ["cache", "acp", name], {}), p)
  {
    var best := Target(["acp", name], ["cache", "acp", name]);
    assert best == STATE_TARGETS[0] || best == STATE_TARGETS[1] || best == STATE_TARGETS[2];
    assert best.suffix + p == ["acp"] + ([name] + p);
    AcpDecides(s, [name] + p, best);
    FollowsBy(s, Task(s.state + best.suffix, best.to, {}), p, s.state, best.suffix, best, p);
  }

  lemma {:induction false} SessionsFollow(s: Sources, name: string, p: Path)
    requires s.Valid() && s.Separate() && Names(p) && !Cached(name) && name != "settings.json"
    ensures Follows(s, Task(s.state + ["acp", name], ["data", "acp", name], {}), p)
  {
    var best, rest := STATE_TARGETS[3], [name] + p;
    assert ["acp", name] + p == best.suffix + rest;
    assert ["data", "acp", name] + p == best.to + rest;
    AcpDecides(s, rest, best);
    FollowsBy(s, Task(s.state + ["acp", name], ["data", "acp", name], {}), p, s.state, ["acp", name], best, rest);
  }

  lemma {:induction false} AcpFollows(s: Sources, name: string, p: Path, t: Task)
    requires s.Valid() && s.Separate()
    requires t in AcpTask(s, name) && Reached(t, p)
    ensures Follows(s, t, p)
  {
    if Cached(name) { CachedFollows(s, name, p); } else { SessionsFollow(s, name, p); }
  }

  lemma {:induction false} SettingsLongest(x: Path, best: Target)
    requires |x| >= 2 && x[0] == "acp" && x[1] == "settings.json" && best == CONFIG_TARGETS[0]
    ensures Longest(CONFIG_TARGETS, x, best) && Longest(STATE_TARGETS, x, best)
  {
    OnTheWay(CONFIG_TARGETS, x);
    OnTheWay(STATE_TARGETS, x);
  }

  lemma {:induction false} SettingsFollow(s: Sources, p: Path)
    requires s.Valid() && s.Separate() && Names(p)
    ensures Follows(s, Task(s.config + ["acp", "settings.json"], ["aow-acp.json"], {}), p)
  {
    var best := CONFIG_TARGETS[0];
    var x := best.suffix + p;
    SettingsLongest(x, best);
    if s.config == s.state {
      assert x == ["acp"] + (["settings.json"] + p);
      if "acp" in MAPPED { MappedNames("acp"); }
      NotMapped("acp", ["settings.json"] + p, best);
      StateDecides(s, x, best);
    } else {
      ConfigDecides(s, x, best);
    }
    FollowsBy(s, Task(s.config + best.suffix, best.to, {}), p, s.config, best.suffix, best, p);
  }

  lemma {:induction false} InboxFollows(s: Sources, p: Path)
    requires s.Valid() && s.Separate() && Names(p) && s.config != s.state
    ensures Follows(s, Task(s.config + ["inbox"], ["data", "inbox"], {}), p)
  {
    var best := CONFIG_TARGETS[1];
    OnTheWay(CONFIG_TARGETS, best.suffix + p);
    ConfigDecides(s, best.suffix + p, best);
    FollowsBy(s, Task(s.config + best.suffix, best.to, {}), p, s.config, best.suffix, best, p);
  }

  lemma {:induction false} TasksFollow(s: Sources, p: Path)
    requires s.Valid() && s.Separate() && Names(p)
    ensures Follows(s, Task(s.config + ["automations", "tasks"], ["automations", "tasks"], {}), p)
  {
    var tasks := STATE_TARGETS[4];
    var x := tasks.suffix + p;
    OnTheWay(CONFIG_TARGETS, x);
    if s.config == s.state {
      OnTheWay(STATE_TARGETS, x);
      assert x == ["automations"] + (["tasks"] + p) && x[1] == "tasks";
      OnlyMapped("automations", ["tasks"] + p);
      StateDecides(s, x, tasks);
      FollowsBy(s, Task(s.config + tasks.suffix, tasks.to, {}), p, s.config, tasks.suffix, tasks, p);
    } else {
      var best := CONFIG_TARGETS[2];
      ConfigDecides(s, x, best);
      FollowsBy(s, Task(s.config + tasks.suffix, tasks.to, {}), p, s.config, tasks.suffix, best, x);
    }
  }

  lemma {:induction false} NamedLongest(name: string, p: Path)
    requires name != "acp" && name != "inbox"
    ensures Longest(CONFIG_TARGETS, [name] + p, CONFIG_TARGETS[2])
  {
    OnTheWay(CONFIG_TARGETS, [name] + p);
  }

  lemma {:induction false} DocumentLongest(name: string, p: Path)
    requires Document(name)
    ensures Longest(STATE_TARGETS, [name] + p, CONFIG_TARGETS[2])
    ensures Longest(MappedTargets(), [name] + p, CONFIG_TARGETS[2])
  {
    DocumentNames(name);
    OnTheWay(STATE_TARGETS, [name] + p);
    if name in MAPPED { MappedNames(name); }
    NotMapped(name, p, CONFIG_TARGETS[2]);
  }

  lemma {:induction false} DocumentFollows(s: Sources, name: string, p: Path)
    requires s.Valid() && s.Separate() && Names(p)
    requires name != "acp" && name != "inbox"
    requires s.config == s.state ==> Document(name)
    ensures Follows(s, Task(s.config + [name], [name], {}), p)
  {
    var x, best := [name] + p, CONFIG_TARGETS[2];
    NamedLongest(name, p);
    if s.config == s.state {
      DocumentLongest(name, p);
      StateDecides(s, x, best);
    } else {
      ConfigDecides(s, x, best);
    }
    FollowsBy(s, Task(s.config + [name], [name], {}), p, s.config, [name], best, x);
  }

  lemma {:induction false} ConfigFollows(s: Sources, name: string, p: Path, t: Task)
    requires s.Valid() && s.Separate()
    requires t in ConfigTask(s, name) && Reached(t, p)
    ensures Follows(s, t, p)
  {
    if name == "acp" {
      SettingsFollow(s, p);
    } else if name == "inbox" {
      InboxFollows(s, p);
    } else if name == "automations" {
      TasksFollow(s, p);
    } else {
      DocumentFollows(s, name, p);
    }
  }

  lemma {:induction false} NotesFollow(s: Sources, p: Path)
    requires s.Valid() && s.Separate() && Names(p)
    ensures Follows(s, Task(s.Notes(), ["data", "notes"], {}), p)
  {
    NotesDecide(s, p);
    var best := Target([], ["data", "notes"]);
    assert s.Notes() + [] == s.Notes();
    FollowsBy(s, Task(s.Notes(), best.to, {}), p, s.Notes(), [], best, p);
  }

  /** The two places that are copied without the table knowing about them. */
  predicate Untabled(s: Sources, t: Task) {
    t == Task(s.Executions(), EXECUTIONS, {}) || t == Task(s.ServerEnvironment(), ["server.env"], {})
  }

  lemma {:induction false} TaskOf(each: string -> seq<Task>, names: seq<string>, t: Task) returns (name: string)
    requires t in TasksOf(each, names)
    ensures name in names && t in each(name)
    decreases |names|
  {
    if t in each(names[0]) { name := names[0]; } else { name := TaskOf(each, names[1..], t); }
  }

  lemma {:induction false} LastFollow(s: Sources, t: Task, p: Path)
    requires s.Valid() && s.Separate() && Names(p)
    requires t in LastTasks(s) && !Untabled(s, t)
    ensures Follows(s, t, p)
  {
    NotesFollow(s, p);
  }

  /** Where a task of the plan comes from. */
  lemma {:induction false} PlanCases(s: Sources, root: Node, t: Task) returns (name: string)
    requires t in Plan(s, root)
    ensures
      || (name in At(root, s.config).ListedNames() && t in ConfigTask(s, name))
      || (name in MAPPED && t == MappedTask(s, name))
      || (name in At(root, s.state + ["acp"]).ListedNames() && t in AcpTask(s, name))
      || t in LastTasks(s)
  {
    var config, acp := At(root, s.config).ListedNames(), At(root, s.state + ["acp"]).ListedNames();
    if t in TasksOf(ConfigEach(s), config) {
      name := TaskOf(ConfigEach(s), config, t);
    } else if t in TasksOf(MappedEach(s), MAPPED) {
      name := TaskOf(MappedEach(s), MAPPED, t);
    } else if t in TasksOf(AcpEach(s), acp) {
      name := TaskOf(AcpEach(s), acp, t);
    } else {
      name := "";
    }
  }

  /** References to everything a collecting step reaches go where it is copied. */
  lemma {:induction false} PlanFollows(s: Sources, root: Node, t: Task, p: Path)
    requires s.Valid() && s.Separate()
    requires t in Plan(s, root) && !Untabled(s, t) && Reached(t, p)
    ensures Follows(s, t, p)
  {
    var name := PlanCases(s, root, t);
    if t in ConfigTask(s, name) {
      ConfigFollows(s, name, p, t);
    } else if name in MAPPED && t == MappedTask(s, name) {
      MappedFollows(s, name, p);
    } else if t in AcpTask(s, name) {
      AcpFollows(s, name, p, t);
    } else {
      LastFollow(s, t, p);
    }
  }

  /** The target that decides below the inbox of the state directory. */
  function InboxTarget(s: Sources): Target {
    if s.config == s.state then Target(["inbox"], ["data", "inbox"]) else Target([], [])
  }

  function InboxRule(s: Sources): Rule {
    Rule(s.state + InboxTarget(s).suffix, s.destination + InboxTarget(s).to)
  }

  lemma {:induction false} InboxDecides(s: Sources, id: Path)
    requires s.Valid() && s.Separate()
    ensures Decisive(Rules(s), InboxRule(s), s.state + (["inbox"] + id))
  {
    var x, best := ["inbox"] + id, InboxTarget(s);
    OnTheWay(STATE_TARGETS, x);
    OnTheWay(CONFIG_TARGETS, x);
    if "inbox" in MAPPED { MappedNames("inbox"); }
    NotMapped("inbox", id, best);
    assert CONFIG_TARGETS[1] == Target(["inbox"], ["data", "inbox"]) && STATE_TARGETS[6] == Target([], []);
    StateDecides(s, x, best);
  }

  /** Below the destination, what is below the inbox goes below `inbox` or `data`, not below `state`. */
  lemma {:induction false} InboxMoves(s: Sources, id: Path)
    ensures
      var path := s.state + (["inbox"] + id);
      InboxRule(s).after + path[|InboxRule(s).before|..]
      == s.destination + (if s.config == s.state then ["data", "inbox"] + id else ["inbox"] + id)
  {
    var x, best := ["inbox"] + id, InboxTarget(s);
    assert (s.state + x)[|s.state + best.suffix|..] == x[|best.suffix|..];
    Associative(s.destination, best.to, x[|best.suffix|..]);
  }
}
