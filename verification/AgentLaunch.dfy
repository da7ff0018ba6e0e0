/** Launching an agent from its profile, and recognising the profile in a terminal's arguments. */
module AgentLaunch {
  import opened Wrappers
  import opened CodexArguments

  const TERMINAL_ENV := "AOW_CODEX_TERMINAL"

  datatype AgentType = Claude | Codex | TraeCli | Hermes | Pi {
    function ResumeArgument(): string {
      if Claude? || Hermes? then "--resume" else if Pi? then "--session" else "resume"
    }
  }

  // ----- Session identifiers

  predicate Control(c: char) { c as int < 32 || 127 <= c as int < 160 }

  predicate ValidSession(session: string) {
    && (exists i :: 0 <= i < |session| && !White(session[i]))
    && !("-" <= session)
    && (forall i :: 0 <= i < |session| ==> !Control(session[i]))
  }

  // ----- Recognising a profile

  function Comparable(kind: AgentType, arguments: seq<string>): seq<string> {
    if kind.Codex? then Uninjected(arguments) else arguments
  }

  predicate Matches(kind: AgentType, profile: seq<string>, arguments: seq<string>) {
    var p, t := Comparable(kind, profile), Comparable(kind, arguments);
    || t == p
    || (p <= t && |t| == |p| + 2 && t[|p|] == kind.ResumeArgument() && t[|p| + 1] != "")
  }

  // ----- The launch

  function Resumption(kind: AgentType, session: string): seq<string> { [kind.ResumeArgument(), session] }

  class AgentLaunch {
    const kind: AgentType
    var args: seq<string>
    var env: map<string, string>

    constructor (kind: AgentType, args: seq<string>, env: map<string, string>)
      ensures this.kind == kind && this.args == args && this.env == env
    {
      this.kind, this.args, this.env := kind, args, env;
    }

    /** `supported` is what the command line's help said about the flag. */
    method PrepareTerminal(pane: string, supported: bool)
      modifies this
      ensures args == if kind.Codex? then Prepare(old(args), supported) else old(args)
      ensures env ==
        if !kind.Codex? then old(env)
        else if Eligible(old(args), supported) then old(env)[TERMINAL_ENV := pane]
        else old(env) - {TERMINAL_ENV}
    {
      if kind.Codex? {
        env := env - {TERMINAL_ENV};
        var flags := ReadFlags(args);
        if !flags.interactive || flags.remote || !supported { return; }
        if flags.noDaemon.None? {
          var position := FirstLiteral(args);
          args := args[..position] + ([NO_DAEMON] + args[position..]);
        }
        env := env[TERMINAL_ENV := pane];
      }
    }

    method ResumeSession(session: string) returns (accepted: bool)
      modifies this
      ensures accepted == ValidSession(session) && env == old(env)
      ensures args == if accepted then old(args) + Resumption(kind, session) else old(args)
    {
      if !ValidSession(session) { return false; }
      args := args + [kind.ResumeArgument(), session];
      accepted := true;
    }
  }

  // ----- What a profile matches

  /** What may follow a profile's arguments: nothing, or the resumption of a session. */
  ghost predicate ResumeWords(kind: AgentType, words: seq<string>) {
    words == [] || exists session :: session != "" && words == Resumption(kind, session)
  }

  lemma {:induction false} ResumeWordsAre(kind: AgentType, words: seq<string>)
    ensures
      ResumeWords(kind, words) <==>
      words == [] || (|words| == 2 && words[0] == kind.ResumeArgument() && words[1] != "")
  {
    if |words| == 2 && words[0] == kind.ResumeArgument() && words[1] != "" {
      assert words == Resumption(kind, words[1]);
    }
  }

  /** A profile matches the arguments that are its own, but for the flag, with at most a resumption behind. */
  lemma {:induction false} MatchesExactly(kind: AgentType, profile: seq<string>, args: seq<string>)
    ensures
      Matches(kind, profile, args) <==>
      exists words :: ResumeWords(kind, words) && Comparable(kind, args) == Comparable(kind, profile) + words
  {
    var p, t := Comparable(kind, profile), Comparable(kind, args);
    if p <= t {
      ResumeWordsAre(kind, t[|p|..]);
      assert t == p + t[|p|..];
    }
    forall words | ResumeWords(kind, words) && t == p + words ensures Matches(kind, profile, args) {
      ResumeWordsAre(kind, words);
      assert t[|p|..] == words;
    }
  }

  /** Other words behind the profile are another launch. */
  lemma {:induction false} OnlyResumptionsMatch(kind: AgentType, profile: seq<string>, words: seq<string>)
    requires kind.Codex? ==> FlagsOf(Uninjected(profile) + words).noDaemon.None?
    ensures Matches(kind, profile, Comparable(kind, profile) + words) <==> ResumeWords(kind, words)
  {
    var p := Comparable(kind, profile);
    assert Comparable(kind, p + words) == p + words;
    MatchesExactly(kind, profile, p + words);
    forall other | p + words == p + other ensures other == words {
      assert other == (p + other)[|p|..] == words;
    }
  }

  /** Arguments that do not begin with the profile's are another launch. */
  lemma {:induction false} ForeignNeverMatches(kind: AgentType, profile: seq<string>, args: seq<string>)
    requires !(Comparable(kind, profile) <= Comparable(kind, args))
    ensures !Matches(kind, profile, args)
  {
    MatchesExactly(kind, profile, args);
  }

  /** The flag that is read is all that comparing leaves out. */
  lemma {:induction false} UninjectedLeavesOut(args: seq<string>)
    ensures
      match FlagsOf(args).noDaemon
      case None => Uninjected(args) == args
      case Some(i) => i <= |Uninjected(args)| && args == InsertAt(Uninjected(args), i, NO_DAEMON)
  {
    FlagsReportLast(args);
    var flag := FlagsOf(args).noDaemon;
    if flag.Some? {
      assert args == args[..flag.value] + ([NO_DAEMON] + args[flag.value + 1..]);
    }
  }

  // ----- A profile matches its own launches

  datatype Event = Prepared(supported: bool) | Resumed(session: string)

  function Apply(kind: AgentType, args: seq<string>, step: Event): seq<string> {
    match step
    case Prepared(supported) => if kind.Codex? then Prepare(args, supported) else args
    case Resumed(session) => if ValidSession(session) then args + Resumption(kind, session) else args
  }

  function Run(kind: AgentType, args: seq<string>, steps: seq<Event>): seq<string>
    decreases |steps|
  {
    if steps == [] then args else Run(kind, Apply(kind, args, steps[0]), steps[1..])
  }

  function Resumptions(steps: seq<Event>): nat
    decreases |steps|
  {
    if steps == [] then 0
    else (if steps[0].Resumed? && ValidSession(steps[0].session) then 1 else 0) + Resumptions(steps[1..])
  }

  lemma {:induction false} FoldTwo(s: Reading, a: string, b: string)
    ensures Fold(s, [a, b]) == Step(Step(s, a), b)
  {
    assert [a, b][1..] == [b] && Fold(Step(s, a), [b]) == Fold(Step(Step(s, a), b), []);
  }

  lemma {:induction false} SessionIsWord(session: string)
    requires ValidSession(session)
    ensures session != NO_DAEMON && session != TERMINATOR && "resume" != NO_DAEMON && "resume" != TERMINATOR
    ensures session != ""
  {
    assert session[0] != '-';
  }

  /** Resuming a Codex session adds no flag... */
  lemma {:induction false} ResumptionAddsNoFlag(args: seq<string>, session: string)
    requires ValidSession(session)
    ensures FlagsOf(args + Resumption(Codex, session)).noDaemon == FlagsOf(args).noDaemon
    ensures Uninjected(args + Resumption(Codex, session)) == Uninjected(args) + Resumption(Codex, session)
  {
    var words, s := Resumption(Codex, session), Fold(START, args);
    SessionIsWord(session);
    FoldAppend(START, args, words);
    FoldTwo(s, words[0], session);
    StepReports(s, words[0]);
    StepReports(Step(s, words[0]), session);
    FlagsReportLast(args);
    var flag := FlagsOf(args).noDaemon;
    if flag.Some? {
      assert RemoveAt(args + words, flag.value) == RemoveAt(args, flag.value) + words;
    }
  }

  /** ... and no terminator. */
  lemma {:induction false} ResumptionStaysPlain(args: seq<string>, session: string)
    requires ValidSession(session) && Plain(args)
    ensures Plain(args + Resumption(Codex, session))
  {
    var words, k := Resumption(Codex, session), FirstLiteral(args);
    SessionIsWord(session);
    FirstLiteralIs(args + words, if k < |args| then k else |args| + 2);
    if k < |args| { assert (args + words)[..k] == args[..k]; }
  }

  /** Something in the arguments keeps every preparation from changing them, whatever follows. */
  predicate Settled(args: seq<string>) {
    var flags := Fold(START, args).flags;
    flags.remote || !flags.interactive || flags.noDaemon.Some?
  }

  /** The first `--` is no option's value, or it does not matter. */
  predicate Lasting(args: seq<string>) { Plain(args) || Settled(args) }

  lemma {:induction false} SettledStays(args: seq<string>, words: seq<string>, supported: bool)
    requires Settled(args)
    ensures Settled(args + words) && Prepare(args, supported) == args
  {
    FoldAppend(START, args, words);
    FoldGrows(Fold(START, args), words);
  }

  /** What every launch from such a profile keeps. */
  ghost predicate FromProfile(kind: AgentType, profile: seq<string>, args: seq<string>, resumed: Option<string>) {
    && (kind.Codex? ==> Lasting(args))
    && (resumed.Some? ==> ValidSession(resumed.value))
    && Comparable(kind, args)
       == Comparable(kind, profile) + (if resumed.Some? then Resumption(kind, resumed.value) else [])
  }

  lemma {:induction false} PreparedKeeps(kind: AgentType, profile: seq<string>, args: seq<string>, supported: bool,
                                         resumed: Option<string>)
    requires FromProfile(kind, profile, args, resumed)
    ensures FromProfile(kind, profile, Apply(kind, args, Prepared(supported)), resumed)
  {
    if kind.Codex? {
      PrepareUndone(args, supported);
      if Plain(args) { PrepareStaysPlain(args, supported); } else { SettledStays(args, [], supported); }
    }
  }

  lemma {:induction false} ResumedKeeps(kind: AgentType, profile: seq<string>, args: seq<string>, session: string)
    requires FromProfile(kind, profile, args, None) && ValidSession(session)
    ensures FromProfile(kind, profile, Apply(kind, args, Resumed(session)), Some(session))
  {
    if kind.Codex? {
      ResumptionAddsNoFlag(args, session);
      if Plain(args) { ResumptionStaysPlain(args, session); }
      else { SettledStays(args, Resumption(kind, session), false); }
    }
    assert Comparable(kind, profile) + [] == Comparable(kind, profile);
  }

  lemma {:induction false} StepKeeps(kind: AgentType, profile: seq<string>, args: seq<string>, step: Event,
                                     resumed: Option<string>) returns (after: Option<string>)
    requires FromProfile(kind, profile, args, resumed)
    requires resumed.None? || step.Prepared? || !ValidSession(step.session)
    ensures FromProfile(kind, profile, Apply(kind, args, step), after)
    ensures after == if step.Resumed? && ValidSession(step.session) then Some(step.session) else resumed
  {
    after := resumed;
    match step
    case Prepared(supported) => PreparedKeeps(kind, profile, args, supported, resumed);
    case Resumed(session) =>
      if ValidSession(session) {
        after := Some(session);
        ResumedKeeps(kind, profile, args, session);
      }
  }

  lemma {:induction false} RunKeeps(kind: AgentType, profile: seq<string>, args: seq<string>, steps: seq<Event>,
                                    resumed: Option<string>) returns (after: Option<string>)
    requires FromProfile(kind, profile, args, resumed)
    requires Resumptions(steps) <= if resumed.None? then 1 else 0
    ensures FromProfile(kind, profile, Run(kind, args, steps), after)
    decreases |steps|
  {
    if steps == [] {
      after := resumed;
    } else {
      var next := StepKeeps(kind, profile, args, steps[0], resumed);
      after := RunKeeps(kind, profile, Apply(kind, args, steps[0]), steps[1..], next);
    }
  }

  /**
   * However often a launch is prepared, and whether and when its session is resumed, its profile
   * still matches. A Codex profile must be lasting, which is no more than needed.
   */
  lemma {:induction false} ProfileMatchesItsLaunches(kind: AgentType, profile: seq<string>, steps: seq<Event>)
    requires kind.Codex? ==> Lasting(profile)
    requires Resumptions(steps) <= 1
    ensures Matches(kind, profile, Run(kind, profile, steps))
  {
    assert Comparable(kind, profile) + [] == Comparable(kind, profile);
    var resumed := RunKeeps(kind, profile, profile, steps, None);
    var p, t := Comparable(kind, profile), Comparable(kind, Run(kind, profile, steps));
    if resumed.Some? { assert t[|p|] == kind.ResumeArgument() && t[|p| + 1] == resumed.value; }
  }

  /** One preparation, of the profile itself or of its resumption, matches exactly when it can be undone. */
  lemma {:induction false} PreparedMatches(profile: seq<string>, session: Option<string>, supported: bool)
    requires session.Some? ==> ValidSession(session.value)
    ensures
      var args := profile + (if session.Some? then Resumption(Codex, session.value) else []);
      Matches(Codex, profile, Prepare(args, supported)) <==> Restorable(args, supported)
  {
    var words := if session.Some? then Resumption(Codex, session.value) else [];
    var args := profile + words;
    assert profile + [] == profile && Uninjected(profile) + [] == Uninjected(profile);
    if session.Some? {
      ResumptionAddsNoFlag(profile, session.value);
      SessionIsWord(session.value);
    }
    PrepareUndone(args, supported);
    var p, t := Uninjected(profile), Uninjected(Prepare(args, supported));
    if Restorable(args, supported) {
      assert t == p + words;
      if session.Some? { assert t[|p|] == "resume" && t[|p| + 1] == session.value; }
    } else {
      InsertedIsSwallowed(args);
      var k := FirstLiteral(args);
      assert forall i :: 0 <= i < |words| ==> words[i] != TERMINATOR;
      assert args[k] == TERMINATOR && k < |profile|;
      assert p == profile && t[k] == NO_DAEMON && profile[k] == TERMINATOR;
    }
  }

  /** A session that is no command leaves the flags as they were, and needs no further value. */
  lemma {:induction false} ResumptionKeepsFlags(args: seq<string>, session: string)
    requires ValidSession(session) && Classify(session) == Word && session !in COMMANDS
    ensures FlagsOf(args + Resumption(Codex, session)) == Fold(START, args).flags
  {
    var words, s := Resumption(Codex, session), Fold(START, args);
    assert Classify("resume") == Word && "resume" !in COMMANDS;
    FoldAppend(START, args, words);
    FoldTwo(s, words[0], session);
  }

  lemma {:induction false} ResumptionStaysUnplain(args: seq<string>, session: string)
    requires !Plain(args)
    ensures !Plain(args + Resumption(Codex, session))
  {
    var words, k := Resumption(Codex, session), FirstLiteral(args);
    FirstLiteralIs(args + words, k);
    assert (args + words)[..k] == args[..k];
  }

  lemma {:induction false} OrdinarySession()
    ensures ValidSession("x") && Classify("x") == Word && "x" !in COMMANDS
  {
    assert !White("x"[0]);
  }

  lemma {:induction false} ResumedThenPrepared(profile: seq<string>, session: string)
    requires ValidSession(session)
    ensures
      Run(Codex, profile, [Resumed(session), Prepared(true)]) == Prepare(profile + Resumption(Codex, session), true)
    ensures Resumptions([Resumed(session), Prepared(true)]) == 1
  {
    var steps := [Resumed(session), Prepared(true)];
    var args := profile + Resumption(Codex, session);
    assert steps[1..] == [Prepared(true)] && [Prepared(true)][1..] == [];
    assert Run(Codex, args, [Prepared(true)]) == Run(Codex, Prepare(args, true), []);
    assert Resumptions([Prepared(true)]) == Resumptions([]);
  }

  /** A profile that is not lasting is not recognised once its session is resumed and prepared. */
  lemma {:induction false} SwallowedOnceResumed(profile: seq<string>, session: string)
    requires !Lasting(profile)
    requires ValidSession(session) && Classify(session) == Word && session !in COMMANDS
    ensures !Matches(Codex, profile, Run(Codex, profile, [Resumed(session), Prepared(true)]))
  {
    ResumptionKeepsFlags(profile, session);
    ResumptionStaysUnplain(profile, session);
    PreparedMatches(profile, Some(session), true);
    ResumedThenPrepared(profile, session);
  }

  /** Every history of a Codex profile's launches is recognised if and only if the profile is lasting. */
  lemma {:induction false} ProfileMatchesExactly(profile: seq<string>)
    ensures
      (forall steps :: Resumptions(steps) <= 1 ==> Matches(Codex, profile, Run(Codex, profile, steps)))
      <==> Lasting(profile)
  {
    if Lasting(profile) {
      forall steps | Resumptions(steps) <= 1 ensures Matches(Codex, profile, Run(Codex, profile, steps)) {
        ProfileMatchesItsLaunches(Codex, profile, steps);
      }
    } else {
      OrdinarySession();
      SwallowedOnceResumed(profile, "x");
      ResumedThenPrepared(profile, "x");
    }
  }
}
