/** Reading the options of a Codex command line, and adding the flag that keeps Codex in its own process. */
module CodexArguments {
  import opened Wrappers

  const NO_DAEMON := "--no-daemon"
  const TERMINATOR := "--"

  datatype Flags = Flags(noDaemon: Option<nat>, remote: bool, interactive: bool)

  // ----- One argument

  datatype Class =
    | Terminator
    | NoDaemon
    | Remote(inline: bool)
    | TakesValue
    | Accepted
    | Unknown
    | Word

  const VALUE_OPTIONS: set<string> := {
    "-c", "--config", "-m", "--model", "-p", "--profile", "-C", "--cd", "-s", "--sandbox",
    "-a", "--ask-for-approval", "-i", "--image", "--enable", "--disable", "--add-dir", "--local-provider",
    "--remote-auth-token-env"}

  const SWITCHES: set<string> := {
    "--oss", "--strict-config", "--approve-for-me", "--search", "--no-alt-screen", "--worktree", "--last", "--all",
    "--dangerously-bypass-approvals-and-sandbox", "--dangerously-bypass-hook-trust"}

  const INLINE_OPTIONS: set<string> := {
    "--config", "--model", "--profile", "--cd", "--sandbox", "--ask-for-approval", "--image", "--enable",
    "--disable", "--add-dir", "--local-provider", "--remote-auth-token-env"}

  const COMMANDS: set<string> := {
    "exec", "e", "review", "app-server", "exec-server", "agents", "queue", "login", "logout", "mcp", "plugin",
    "remote-control", "app", "completion", "update", "doctor", "sandbox", "debug", "apply", "a", "archive",
    "delete", "migrate-rollouts", "unarchive", "cloud", "features", "help"}

  /** The part of `arg` before its first `=`, or all of it. */
  function BeforeEquals(arg: string): string
    decreases |arg|
  {
    if arg == [] || arg[0] == '=' then [] else [arg[0]] + BeforeEquals(arg[1..])
  }

  function Classify(arg: string): Class {
    if arg == TERMINATOR then Terminator
    else if arg == NO_DAEMON then NoDaemon
    else if arg == "--remote" then Remote(false)
    else if "--remote=" <= arg then Remote(true)
    else if arg in VALUE_OPTIONS then TakesValue
    else if arg in SWITCHES then Accepted
    else if "--" <= arg && '=' in arg then (if BeforeEquals(arg) in INLINE_OPTIONS then Accepted else Unknown)
    else if "-" <= arg then Unknown
    else Word
  }

  // ----- A command line, read one argument at a time

  /** What the next argument is: an option or word, the value of an option, or literal text. */
  datatype Mode = Options | Value(remote: bool) | Literal

  datatype Reading = Reading(mode: Mode, flags: Flags, positional: bool, count: nat)

  const START := Reading(Options, Flags(None, false, true), false, 0)

  function Step(s: Reading, arg: string): Reading {
    var t := s.(count := s.count + 1);
    if s.mode.Literal? then t
    else if s.mode.Value? then t.(mode := Options)
    else
      match Classify(arg)
      case Terminator => t.(mode := Literal)
      case NoDaemon => t.(flags := t.flags.(noDaemon := Some(s.count)))
      case Remote(inline) =>
        t.(flags := t.flags.(remote := true), mode := if inline then Options else Value(true))
      case TakesValue => t.(mode := Value(false))
      case Accepted => t
      case Unknown => t.(flags := t.flags.(interactive := false))
      case Word =>
        if s.positional then t
        else t.(positional := true, flags := t.flags.(interactive := t.flags.interactive && arg !in COMMANDS))
  }

  function Fold(s: Reading, args: seq<string>): Reading
    decreases |args|
  {
    if args == [] then s else Fold(Step(s, args[0]), args[1..])
  }

  /** A value that never came makes the command line not interactive. */
  function Finish(s: Reading): Flags {
    if s.mode == Value(false) then s.flags.(interactive := false) else s.flags
  }

  function FlagsOf(args: seq<string>): Flags { Finish(Fold(START, args)) }

  /** How the argument at `k` is read. */
  function ModeAt(args: seq<string>, k: nat): Mode
    requires k <= |args|
  {
    Fold(START, args[..k]).mode
  }

  method ReadFlags(arguments: seq<string>) returns (flags: Flags)
    ensures flags == FlagsOf(arguments)
  {
    flags := Flags(None, false, true);
    var index, positional := 0, false;
    ghost var rest := arguments;
    while index < |arguments|
      invariant 0 <= index <= |arguments| && rest == arguments[index..]
      invariant Finish(Fold(Reading(Options, flags, positional, index), rest)) == FlagsOf(arguments)
    {
      var arg := arguments[index];
      ghost var from := Reading(Options, flags, positional, index);
      assert arg == rest[0] && Fold(from, rest) == Fold(Step(from, arg), rest[1..]);
      index := index + 1;
      rest := rest[1..];
      match Classify(arg)
      case Terminator =>
        LiteralKeeps(Step(from, arg), rest);
        return;
      case NoDaemon => flags := flags.(noDaemon := Some(index - 1));
      case Remote(inline) =>
        flags := flags.(remote := true);
        if !inline && index < |arguments| {
          ValueSkips(Step(from, arg), rest);
          index := index + 1;
          rest := rest[1..];
        }
      case TakesValue =>
        if index == |arguments| {
          flags := flags.(interactive := false);
        } else {
          ValueSkips(Step(from, arg), rest);
          index := index + 1;
          rest := rest[1..];
        }
      case Accepted =>
      case Unknown => flags := flags.(interactive := false);
      case Word =>
        if !positional {
          positional := true;
          if arg in COMMANDS { flags := flags.(interactive := false); }
        }
    }
  }

  lemma {:induction false} ValueSkips(s: Reading, args: seq<string>)
    requires s.mode.Value? && args != []
    ensures Fold(s, args) == Fold(s.(mode := Options, count := s.count + 1), args[1..])
  {
  }

  lemma {:induction false} LiteralKeeps(s: Reading, args: seq<string>)
    requires s.mode.Literal?
    ensures Fold(s, args) == s.(count := s.count + |args|)
    decreases |args|
  {
    if args != [] { LiteralKeeps(Step(s, args[0]), args[1..]); }
  }

  lemma {:induction false} FoldAppend(s: Reading, a: seq<string>, b: seq<string>)
    ensures Fold(s, a + b) == Fold(Fold(s, a), b)
    decreases |a|
  {
    if a == [] {
      assert a + b == b;
    } else {
      assert (a + b)[0] == a[0] && (a + b)[1..] == a[1..] + b;
      FoldAppend(Step(s, a[0]), a[1..], b);
    }
  }

  /** Reading on only counts, finds further flags, and never takes one back. */
  lemma {:induction false} FoldGrows(s: Reading, args: seq<string>)
    ensures var t := Fold(s, args);
      && t.count == s.count + |args|
      && (s.flags.remote ==> t.flags.remote)
      && (t.flags.interactive ==> s.flags.interactive)
      && (s.flags.noDaemon.Some? ==> t.flags.noDaemon.Some?)
      && ((s.mode == Value(true) ==> s.flags.remote) ==> t.mode == Value(true) ==> t.flags.remote)
    decreases |args|
  {
    if args != [] { FoldGrows(Step(s, args[0]), args[1..]); }
  }

  /** Where the flag is reported it stands as an option, and nowhere later before the terminator. */
  ghost predicate ReportsLast(args: seq<string>, noDaemon: Option<nat>) {
    match noDaemon
    case None => forall k :: 0 <= k < |args| && ModeAt(args, k) == Options ==> args[k] != NO_DAEMON
    case Some(i) =>
      && i < |args| && args[i] == NO_DAEMON && ModeAt(args, i) == Options
      && forall k :: i < k < |args| && ModeAt(args, k) == Options ==> args[k] != NO_DAEMON
  }

  lemma {:induction false} ModesAppend(before: seq<string>, arg: string)
    ensures forall k :: 0 <= k <= |before| ==> ModeAt(before + [arg], k) == ModeAt(before, k)
    ensures Fold(START, before + [arg]) == Step(Fold(START, before), arg)
  {
    FoldAppend(START, before, [arg]);
    assert Fold(Fold(START, before), [arg]) == Step(Fold(START, before), arg);
    forall k | 0 <= k <= |before| ensures ModeAt(before + [arg], k) == ModeAt(before, k) {
      assert (before + [arg])[..k] == before[..k];
    }
  }

  lemma {:induction false} FlagsReportLast(args: seq<string>)
    ensures ReportsLast(args, FlagsOf(args).noDaemon)
    decreases |args|
  {
    if args != [] {
      var n := |args| - 1;
      var before, arg := args[..n], args[n];
      FlagsReportLast(before);
      FoldGrows(START, before);
      assert args == before + [arg];
      ModesAppend(before, arg);
      assert before[..n] == before;
      StepReports(Fold(START, before), arg);
    }
  }

  lemma {:induction false} StepReports(s: Reading, arg: string)
    ensures
      Step(s, arg).flags.noDaemon ==
      if s.mode == Options && arg == NO_DAEMON then Some(s.count) else s.flags.noDaemon
  {
  }

  // ----- What is reported, by the arguments that stand as options

  /** The argument at `k` stands as an option or a word, not as a value or literal text. */
  predicate Stands(args: seq<string>, k: nat)
    requires k <= |args|
  {
    ModeAt(args, k) == Options
  }

  predicate NamesRemote(arg: string) { arg == "--remote" || "--remote=" <= arg }

  /** What may stand on an interactive command line: words, known options, known options with a value. */
  ghost predicate Known(arg: string) {
    || !("-" <= arg)
    || arg == TERMINATOR || arg == NO_DAEMON || NamesRemote(arg) || arg in VALUE_OPTIONS || arg in SWITCHES
    || exists option :: option in INLINE_OPTIONS && option + "=" <= arg
  }

  /** The first word at `k`: what stands there is no option, and only options stand before it. */
  predicate FirstWord(args: seq<string>, k: nat)
    requires k < |args|
  {
    Stands(args, k) && !("-" <= args[k]) && forall j :: 0 <= j < k && Stands(args, j) ==> "-" <= args[j]
  }

  lemma {:induction false} BeforeEqualsIs(arg: string)
    ensures var option := BeforeEquals(arg); '=' !in option && option <= arg && ('=' in arg ==> option + "=" <= arg)
    ensures forall option :: '=' !in option && option + "=" <= arg ==> '=' in arg && BeforeEquals(arg) == option
    decreases |arg|
  {
    if arg != [] && arg[0] != '=' {
      BeforeEqualsIs(arg[1..]);
      forall option | '=' !in option && option + "=" <= arg ensures '=' in arg && BeforeEquals(arg) == option {
        assert option != [] && option[0] == arg[0];
        assert option[1..] + "=" <= arg[1..];
      }
    } else {
      forall option | '=' !in option && option + "=" <= arg ensures '=' in arg && BeforeEquals(arg) == option {
        assert (option + "=")[0] == arg[0];
      }
    }
  }

  lemma {:induction false} NamedBeforeEquals(arg: string, options: set<string>)
    requires forall option :: option in options ==> '=' !in option
    ensures '=' in arg && BeforeEquals(arg) in options <==> exists option :: option in options && option + "=" <= arg
  {
    BeforeEqualsIs(arg);
  }

  lemma {:induction false} ValueOptionsAreOptions(arg: string)
    requires arg in VALUE_OPTIONS
    ensures "-" <= arg && '=' !in arg && arg !in [TERMINATOR, NO_DAEMON, "--remote"]
  {
  }

  lemma {:induction false} SwitchesAreOptions(arg: string)
    requires arg in SWITCHES
    ensures "-" <= arg
  {
  }

  lemma {:induction false} InlineOptionsAreNames(arg: string)
    requires arg in INLINE_OPTIONS
    ensures "--" <= arg && '=' !in arg
  {
  }

  lemma {:induction false} InlineMeans(arg: string)
    ensures
      '=' in arg && BeforeEquals(arg) in INLINE_OPTIONS <==>
      exists option :: option in INLINE_OPTIONS && option + "=" <= arg
    ensures BeforeEquals(arg) in INLINE_OPTIONS ==> "--" <= arg
  {
    forall option | option in INLINE_OPTIONS ensures '=' !in option { InlineOptionsAreNames(option); }
    NamedBeforeEquals(arg, INLINE_OPTIONS);
    BeforeEqualsIs(arg);
    if BeforeEquals(arg) in INLINE_OPTIONS {
      InlineOptionsAreNames(BeforeEquals(arg));
      assert arg[..2] == BeforeEquals(arg)[..2];
    }
  }

  lemma {:induction false} WordsMean(arg: string)
    ensures Classify(arg) == Word <==> !("-" <= arg)
  {
    if arg in VALUE_OPTIONS { ValueOptionsAreOptions(arg); }
    if arg in SWITCHES { SwitchesAreOptions(arg); }
  }

  lemma {:induction false} ClassesMean(arg: string)
    ensures Classify(arg).Remote? <==> NamesRemote(arg)
    ensures Classify(arg) != Unknown <==> Known(arg)
  {
    WordsMean(arg);
    InlineMeans(arg);
  }

  ghost predicate ReadsRemote(args: seq<string>) {
    exists k :: 0 <= k < |args| && Stands(args, k) && NamesRemote(args[k])
  }

  ghost predicate ReadsWord(args: seq<string>) {
    exists k :: 0 <= k < |args| && Stands(args, k) && !("-" <= args[k])
  }

  ghost predicate AllKnown(args: seq<string>) {
    forall k :: 0 <= k < |args| && Stands(args, k) ==> Known(args[k])
  }

  ghost predicate NoCommand(args: seq<string>) {
    forall k :: 0 <= k < |args| && FirstWord(args, k) ==> args[k] !in COMMANDS
  }

  lemma {:induction false} ReadOneMore(before: seq<string>, arg: string)
    ensures var args := before + [arg]; var stands := Stands(before, |before|);
      && (ReadsRemote(args) <==> ReadsRemote(before) || (stands && NamesRemote(arg)))
      && (ReadsWord(args) <==> ReadsWord(before) || (stands && !("-" <= arg)))
      && (AllKnown(args) <==> AllKnown(before) && (stands ==> Known(arg)))
  {
    ModesAppend(before, arg);
    var args := before + [arg];
    assert forall k :: 0 <= k < |before| ==> args[k] == before[k] && (Stands(args, k) <==> Stands(before, k));
    assert args[|before|] == arg && (Stands(args, |before|) <==> Stands(before, |before|));
  }

  lemma {:induction false} CommandOneMore(before: seq<string>, arg: string)
    ensures
      NoCommand(before + [arg]) <==>
      NoCommand(before) && (Stands(before, |before|) && !("-" <= arg) && !ReadsWord(before) ==> arg !in COMMANDS)
  {
    ModesAppend(before, arg);
    var args := before + [arg];
    assert forall k :: 0 <= k < |before| ==> args[k] == before[k] && (Stands(args, k) <==> Stands(before, k));
    assert forall k :: 0 <= k < |before| ==> (FirstWord(args, k) <==> FirstWord(before, k));
    assert FirstWord(args, |before|) <==> Stands(before, |before|) && !("-" <= arg) && !ReadsWord(before);
  }

  lemma {:induction false} StepMeans(s: Reading, arg: string)
    ensures var t, stands := Step(s, arg), s.mode == Options;
      && (t.flags.remote <==> s.flags.remote || (stands && NamesRemote(arg)))
      && (t.positional <==> s.positional || (stands && !("-" <= arg)))
      && (t.flags.interactive <==>
            && s.flags.interactive && (stands ==> Known(arg))
            && (stands && !("-" <= arg) && !s.positional ==> arg !in COMMANDS))
  {
    WordsMean(arg);
    ClassesMean(arg);
  }

  lemma {:induction false} ReadingMeans(args: seq<string>)
    ensures var s := Fold(START, args);
      && (s.flags.remote <==> ReadsRemote(args))
      && (s.positional <==> ReadsWord(args))
      && (s.flags.interactive <==> AllKnown(args) && NoCommand(args))
    decreases |args|
  {
    if args != [] {
      var n := |args| - 1;
      var before, arg := args[..n], args[n];
      ReadingMeans(before);
      assert args == before + [arg] && before[..n] == before;
      ModesAppend(before, arg);
      ReadOneMore(before, arg);
      CommandOneMore(before, arg);
      StepMeans(Fold(START, before), arg);
    }
  }

  /**
   * A remote server is reported exactly when an argument that stands names one. The command line is
   * interactive exactly when all that stands is known, its first word is no command, and it does not
   * end where the value of an option other than `--remote` is due.
   */
  lemma {:induction false} FlagsMean(args: seq<string>)
    ensures FlagsOf(args).remote <==> ReadsRemote(args)
    ensures FlagsOf(args).interactive <==> AllKnown(args) && NoCommand(args) && ModeAt(args, |args|) != Value(false)
  {
    ReadingMeans(args);
    assert args[..|args|] == args;
  }

  /** An argument is a value, or literal, by what stands before it. */
  lemma {:induction false} ModeMeans(args: seq<string>, k: nat)
    requires k < |args|
    ensures ModeAt(args, 0) == Options
    ensures ModeAt(args, k + 1) == Value(true) <==> Stands(args, k) && args[k] == "--remote"
    ensures ModeAt(args, k + 1) == Value(false) <==> Stands(args, k) && args[k] in VALUE_OPTIONS
    ensures ModeAt(args, k + 1) == Literal <==> ModeAt(args, k) == Literal || (Stands(args, k) && args[k] == TERMINATOR)
  {
    assert args[..k + 1] == args[..k] + [args[k]];
    ModesAppend(args[..k], args[k]);
    ClassOf(args[k]);
  }

  lemma {:induction false} RemoteHasEquals(arg: string)
    ensures "--remote=" <= arg ==> '=' in arg
  {
    if "--remote=" <= arg { assert arg[8] == '='; }
  }

  lemma {:induction false} ClassOf(arg: string)
    ensures Classify(arg) == TakesValue <==> arg in VALUE_OPTIONS
    ensures Classify(arg) == Remote(false) <==> arg == "--remote"
  {
    RemoteHasEquals(arg);
    if arg in VALUE_OPTIONS { ValueOptionsAreOptions(arg); }
  }

  // ----- Adding the flag

  /** The first argument that is literally `--`, or the number of arguments. */
  function FirstLiteral(args: seq<string>): (k: nat)
    ensures k <= |args| && (k < |args| ==> args[k] == TERMINATOR)
    ensures forall i :: 0 <= i < k ==> args[i] != TERMINATOR
    decreases |args|
  {
    if args == [] || args[0] == TERMINATOR then 0 else 1 + FirstLiteral(args[1..])
  }

  function InsertAt(args: seq<string>, k: nat, arg: string): seq<string>
    requires k <= |args|
  {
    args[..k] + ([arg] + args[k..])
  }

  function RemoveAt(args: seq<string>, k: nat): seq<string>
    requires k < |args|
  {
    args[..k] + args[k + 1..]
  }

  predicate Eligible(args: seq<string>, supported: bool) {
    FlagsOf(args).interactive && !FlagsOf(args).remote && supported
  }

  function Prepare(args: seq<string>, supported: bool): seq<string> {
    if Eligible(args, supported) && FlagsOf(args).noDaemon.None?
    then InsertAt(args, FirstLiteral(args), NO_DAEMON)
    else args
  }

  /** The arguments without the flag that is read in them. */
  function Uninjected(args: seq<string>): seq<string> {
    var flag := FlagsOf(args).noDaemon;
    if flag.Some? && flag.value < |args| then RemoveAt(args, flag.value) else args
  }

  /** The first `--`, if any, is not the value of an option. */
  predicate Plain(args: seq<string>) {
    FirstLiteral(args) < |args| ==> ModeAt(args, FirstLiteral(args)) == Options
  }

  lemma {:induction false} NotLiteral(s: Reading, args: seq<string>)
    requires !s.mode.Literal? && forall i :: 0 <= i < |args| ==> args[i] != TERMINATOR
    ensures !Fold(s, args).mode.Literal?
    decreases |args|
  {
    if args != [] { NotLiteral(Step(s, args[0]), args[1..]); }
  }

  /** A command line in the parts before and from its first `--`. */
  lemma {:induction false} Parts(args: seq<string>, a: seq<string>, b: seq<string>, s: Reading)
    requires a == args[..FirstLiteral(args)] && b == args[FirstLiteral(args)..] && s == Fold(START, a)
    ensures args == a + b && !s.mode.Literal? && s.count == |a| && Fold(START, args) == Fold(s, b)
    ensures s.mode == Value(true) ==> s.flags.remote
  {
    assert args == a + b;
    FoldAppend(START, a, b);
    FoldGrows(START, a);
    NotLiteral(START, a);
  }

  /** At a terminator, or at the end, the flags are those read so far. */
  lemma {:induction false} RestIsLiteral(s: Reading, b: seq<string>)
    requires s.mode == Options && (b != [] ==> b[0] == TERMINATOR)
    ensures Finish(Fold(s, b)) == s.flags
  {
    if b != [] { LiteralKeeps(Step(s, b[0]), b[1..]); }
  }

  /** With the flag inserted where it is read as an option, it is the only difference. */
  lemma {:induction false} InsertedIsRead(args: seq<string>)
    requires Plain(args) && Eligible(args, true)
    ensures
      FlagsOf(InsertAt(args, FirstLiteral(args), NO_DAEMON)) == FlagsOf(args).(noDaemon := Some(FirstLiteral(args)))
  {
    var k := FirstLiteral(args);
    var a, b := args[..k], args[k..];
    var s := Fold(START, a);
    Parts(args, a, b, s);
    assert s.mode == Options;
    RestIsLiteral(s, b);
    var t := Step(s, NO_DAEMON);
    FoldAppend(START, a, [NO_DAEMON] + b);
    assert ([NO_DAEMON] + b)[1..] == b;
    RestIsLiteral(t, b);
  }

  /** Inserted before a `--` that was an option's value, the flag becomes the value. */
  lemma {:induction false} InsertedIsSwallowed(args: seq<string>)
    requires !Plain(args) && Eligible(args, true) && FlagsOf(args).noDaemon.None?
    ensures FlagsOf(InsertAt(args, FirstLiteral(args), NO_DAEMON)) == FlagsOf(args)
  {
    var k := FirstLiteral(args);
    var a, b := args[..k], args[k..];
    var s := Fold(START, a);
    Parts(args, a, b, s);
    FoldGrows(s, b);
    assert s.flags == Flags(None, false, true);
    var t := s.(mode := Options, count := s.count + 1);
    FoldAppend(START, a, [NO_DAEMON] + b);
    assert ([NO_DAEMON] + b)[1..] == b && Step(s, NO_DAEMON) == t;
    RestIsLiteral(t, b);
  }

  // ----- What a second look finds

  /** A command line that the preparation leaves alone, or in which it inserts an option. */
  predicate Restorable(args: seq<string>, supported: bool) {
    Eligible(args, supported) && FlagsOf(args).noDaemon.None? ==> Plain(args)
  }

  /** Preparing twice is preparing once, exactly for restorable command lines. */
  lemma {:induction false} PrepareIdempotent(args: seq<string>, supported: bool)
    ensures Prepare(Prepare(args, supported), supported) == Prepare(args, supported) <==> Restorable(args, supported)
  {
    if Eligible(args, supported) && FlagsOf(args).noDaemon.None? {
      var once := Prepare(args, supported);
      if Plain(args) {
        InsertedIsRead(args);
      } else {
        InsertedIsSwallowed(args);
        assert |Prepare(once, supported)| == |once| + 1;
      }
    }
  }

  /** Removing the flag that is read restores what preparation changed, exactly for restorable command lines. */
  lemma {:induction false} PrepareUndone(args: seq<string>, supported: bool)
    ensures Uninjected(Prepare(args, supported)) == Uninjected(args) <==> Restorable(args, supported)
  {
    if Eligible(args, supported) && FlagsOf(args).noDaemon.None? {
      var k, once := FirstLiteral(args), Prepare(args, supported);
      if Plain(args) {
        InsertedIsRead(args);
        assert RemoveAt(once, k) == args;
      } else {
        InsertedIsSwallowed(args);
        assert |once| == |args| + 1;
      }
    }
  }

  /** The preparation of a plain command line is plain, and reads as one that has the flag. */
  lemma {:induction false} PrepareStaysPlain(args: seq<string>, supported: bool)
    requires Plain(args)
    ensures Plain(Prepare(args, supported))
    ensures Eligible(args, supported) ==> FlagsOf(Prepare(args, supported)).noDaemon.Some?
  {
    if Eligible(args, supported) && FlagsOf(args).noDaemon.None? {
      var k, once := FirstLiteral(args), Prepare(args, supported);
      InsertedIsRead(args);
      FirstLiteralIs(once, if k < |args| then k + 1 else |once|);
      if k < |args| {
        assert once[..k + 1] == args[..k] + [NO_DAEMON];
        FoldAppend(START, args[..k], [NO_DAEMON]);
      }
    }
  }

  lemma {:induction false} FirstLiteralIs(args: seq<string>, k: nat)
    requires k <= |args| && (k < |args| ==> args[k] == TERMINATOR)
    requires forall i :: 0 <= i < k ==> args[i] != TERMINATOR
    ensures FirstLiteral(args) == k
  {
  }

  /** Without the condition: `-c --` swallows the flag, and every preparation adds another. */
  lemma {:induction false} SwallowedFlag()
    ensures Prepare(["-c", "--"], true) == ["-c", "--no-daemon", "--"]
    ensures FlagsOf(["-c", "--no-daemon", "--"]).noDaemon == None
    ensures Prepare(["-c", "--no-daemon", "--"], true) == ["-c", "--no-daemon", "--no-daemon", "--"]
  {
  }
}
