/** Which files of an old installation a migration collects, name by name, and which it leaves behind. */
module MigrationPlan {
  import opened Wrappers
  import opened RelocationTable
  import opened Migration
  import opened Collecting
  import opened MigratedReferences

  // ----- The names

  /** What is taken from a configuration that shares the state directory. */
  const SHARED: set<string> := {
    "aow-projects.json", "aow-agents.json", "aow-settings.json", "git-platform-providers.json",
    "git-platform-providers", "acp", "automations"}

  /** Entries of the configuration directory that stay where they are. */
  predicate Stays(s: Sources, name: string) {
    || name in {".git", "config.toml", "__current__", "pin.md5"}
    || ".config-" <= name
    || (s.config == s.state && name !in SHARED)
  }

  /** The part of a configuration entry that is taken. */
  function Taken(name: string): Path {
    match name
    case "acp" => ["acp", "settings.json"]
    case "automations" => ["automations", "tasks"]
    case _ => [name]
  }

  function TakenTo(name: string): Path {
    match name
    case "acp" => ["aow-acp.json"]
    case "inbox" => ["data", "inbox"]
    case "automations" => ["automations", "tasks"]
    case _ => [name]
  }

  /** What is taken from the state directory, apart from the protocol clients and the inbox. */
  const STATE_NAMES: set<string> := {
    "credentials.json", "notification-settings.json", "terminals.json", "instances.json", "session-shares.json",
    "operation-logs", "automations", "agents", "repos", "data", "skills", "im", "clipboard-images", "zed"}

  lemma {:induction false} ConfigTaskIs(s: Sources, name: string)
    ensures ConfigTask(s, name) == if Stays(s, name) then [] else [Task(s.config + Taken(name), TakenTo(name), {})]
  {
  }

  lemma {:induction false} MappedAre(name: string)
    ensures name in MAPPED <==> name in STATE_NAMES
  {
  }

  // ----- The plan

  ghost predicate FromConfiguration(s: Sources, root: Node, t: Task) {
    exists name ::
      && name in At(root, s.config).ListedNames() && !Stays(s, name)
      && t == Task(s.config + Taken(name), TakenTo(name), {})
  }

  ghost predicate FromState(s: Sources, t: Task) {
    exists name ::
      && name in STATE_NAMES
      && t == Task(s.state + [name], MappedTo(name), if name == "automations" then {"tasks"} else {})
  }

  ghost predicate FromAcp(s: Sources, root: Node, t: Task) {
    exists name ::
      && name in At(root, s.state + ["acp"]).ListedNames() && name != "settings.json"
      && t == Task(s.state + ["acp", name],
                   [if name in {"agents", "installations", "registry.json"} then "cache" else "data", "acp", name], {})
  }

  ghost predicate Alone(s: Sources, t: Task) {
    || t == Task(s.Executions(), ["state", "inbox", "executions.json"], {})
    || t == Task(s.Notes(), ["data", "notes"], {})
    || t == Task(s.ServerEnvironment(), ["server.env"], {})
  }

  ghost predicate Planned(s: Sources, root: Node, t: Task) {
    FromConfiguration(s, root, t) || FromState(s, t) || FromAcp(s, root, t) || Alone(s, t)
  }

  lemma {:induction false} TaskIn(each: string -> seq<Task>, names: seq<string>, name: string, t: Task)
    requires name in names && t in each(name)
    ensures t in TasksOf(each, names)
    decreases |names|
  {
    if t !in each(names[0]) { TaskIn(each, names[1..], name, t); }
  }

  lemma {:induction false} ConfigurationPlanned(s: Sources, root: Node, t: Task)
    ensures FromConfiguration(s, root, t) <==> t in TasksOf(ConfigEach(s), At(root, s.config).ListedNames())
  {
    var names := At(root, s.config).ListedNames();
    if name :| name in names && !Stays(s, name) && t == Task(s.config + Taken(name), TakenTo(name), {}) {
      ConfigTaskIs(s, name);
      TaskIn(ConfigEach(s), names, name, t);
    }
    if t in TasksOf(ConfigEach(s), names) {
      var name := TaskOf(ConfigEach(s), names, t);
      ConfigTaskIs(s, name);
    }
  }

  lemma {:induction false} StatePlanned(s: Sources, names: seq<string>, t: Task)
    requires forall name :: name in names <==> name in STATE_NAMES
    ensures FromState(s, t) <==> t in TasksOf(MappedEach(s), names)
  {
    if name :| name in STATE_NAMES && t == MappedTask(s, name) { TaskIn(MappedEach(s), names, name, t); }
    if t in TasksOf(MappedEach(s), names) { var name := TaskOf(MappedEach(s), names, t); }
  }

  lemma {:induction false} AcpPlanned(s: Sources, root: Node, t: Task)
    ensures FromAcp(s, root, t) <==> t in TasksOf(AcpEach(s), At(root, s.state + ["acp"]).ListedNames())
  {
    var names := At(root, s.state + ["acp"]).ListedNames();
    if name :|
      && name in names && name != "settings.json"
      && t == Task(s.state + ["acp", name],
                   [if name in {"agents", "installations", "registry.json"} then "cache" else "data", "acp", name], {})
    {
      TaskIn(AcpEach(s), names, name, t);
    }
    if t in TasksOf(AcpEach(s), names) {
      var name := TaskOf(AcpEach(s), names, t);
    }
  }

  lemma {:induction false} AlonePlanned(s: Sources, t: Task)
    ensures Alone(s, t) <==> t in LastTasks(s)
  {
  }

  lemma {:induction false} InParts<T>(a: seq<T>, b: seq<T>, c: seq<T>, d: seq<T>, x: T)
    ensures x in a + (b + (c + d)) <==> x in a || x in b || x in c || x in d
  {
  }

  lemma {:induction false} PlanIs(s: Sources, root: Node, t: Task)
    ensures t in Plan(s, root) <==> Planned(s, root, t)
  {
    ConfigurationPlanned(s, root, t);
    forall name ensures name in MAPPED <==> name in STATE_NAMES { MappedAre(name); }
    StatePlanned(s, MAPPED, t);
    AcpPlanned(s, root, t);
    AlonePlanned(s, t);
    var config, acp := At(root, s.config).ListedNames(), At(root, s.state + ["acp"]).ListedNames();
    InParts(TasksOf(ConfigEach(s), config), TasksOf(MappedEach(s), MAPPED), TasksOf(AcpEach(s), acp), LastTasks(s), t);
  }

  // ----- The files

  /** A task takes the file or link at `from` to `to`. */
  ghost predicate Takes(root: Node, t: Task, from: Path, to: Path) {
    exists p: Path ::
      && Copied(Below(At(root, t.source), p)) && (p != [] ==> p[0] !in t.skip)
      && from == t.source + p && to == t.relative + p
  }

  /** What is collected from an old installation, and where it goes: neither more nor less. */
  lemma {:induction false} CollectedIs(s: Sources, root: Node, from: Path, to: Path)
    requires Proper(root) && Gathered(s, root).Ok?
    ensures
      var entries := Gathered(s, root).value.entries;
      to in entries && entries[to] == from <==> exists t :: Planned(s, root, t) && Takes(root, t, from, to)
  {
    var entries := Gathered(s, root).value.entries;
    if to in entries && entries[to] == from { var t := CollectedIsTaken(s, root, from, to); }
    if t :| Planned(s, root, t) && Takes(root, t, from, to) { TakenIsCollected(s, root, t, from, to); }
  }

  lemma {:induction false} TakenIsCollected(s: Sources, root: Node, t: Task, from: Path, to: Path)
    requires Gathered(s, root).Ok? && Planned(s, root, t) && Takes(root, t, from, to)
    ensures to in Gathered(s, root).value.entries && Gathered(s, root).value.entries[to] == from
  {
    PlanIs(s, root, t);
    var p: Path :|
      && Copied(Below(At(root, t.source), p)) && (p != [] ==> p[0] !in t.skip)
      && from == t.source + p && to == t.relative + p;
    EverythingIsCollected(s, root, t, p);
  }

  lemma {:induction false} CollectedIsTaken(s: Sources, root: Node, from: Path, to: Path) returns (t: Task)
    requires Proper(root) && Gathered(s, root).Ok?
    requires to in Gathered(s, root).value.entries && Gathered(s, root).value.entries[to] == from
    ensures Planned(s, root, t) && Takes(root, t, from, to)
  {
    var p;
    t, p := CollectedIsReached(s, root, to);
    PlanIs(s, root, t);
  }
}
