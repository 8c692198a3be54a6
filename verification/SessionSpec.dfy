/** Which session a command line asks for, and the argument list assembled around it. */
module SessionSpec {
  import opened Common
  import opened ArgSpec

  datatype Source = ExplicitId | ResumeId | ContinueLast | Generated
  datatype Mode = Initial | Resume
  datatype Resolution = Resolution(id: string, source: Source, warnings: seq<string>)
  datatype Choice = Choice(id: string, source: Source)

  // ---- Last session flag wins ----

  /** A session flag with a value. */
  function SessionChoice(arg: ClassifiedArg): Option<Choice> {
    if arg.Intercepted? && arg.value.Some? && arg.flag == "--session-id" then Some(Choice(arg.value.value, ExplicitId))
    else if arg.Intercepted? && arg.value.Some? && arg.flag == "--resume" then Some(Choice(arg.value.value, ResumeId))
    else None
  }

  function LastChoice(args: seq<ClassifiedArg>): Option<Choice> {
    if args == [] then None
    else
      var last := SessionChoice(args[|args| - 1]);
      if last.Some? then last else LastChoice(args[..|args| - 1])
  }

  predicate IsContinue(arg: ClassifiedArg) { arg.Intercepted? && arg.flag == "--continue" }

  predicate SawContinue(args: seq<ClassifiedArg>) { exists i :: 0 <= i < |args| && IsContinue(args[i]) }

  /** One warning for every session flag that overrides an earlier one. */
  function OverrideWarnings(args: seq<ClassifiedArg>): seq<string> {
    if args == [] then []
    else
      var init, last := args[..|args| - 1], args[|args| - 1];
      OverrideWarnings(init) +
      if SessionChoice(last).Some? && LastChoice(init).Some?
      then [last.flag + ": overrides previously specified session flag"] else []
  }

  const CONTINUE_IGNORED := "--continue ignored because --session-id/--resume was also specified"
  const CONTINUE_NOT_FOUND := "--continue: no previous session found for current directory, starting new session"

  /** `last` is the session found on disk for this directory, `generated` a new identifier. */
  function Resolved(args: seq<ClassifiedArg>, last: Option<string>, generated: string): Resolution {
    match LastChoice(args)
    case Some(choice) =>
      Resolution(choice.id, choice.source,
                 OverrideWarnings(args) + if SawContinue(args) then [CONTINUE_IGNORED] else [])
    case None =>
      if !SawContinue(args) then Resolution(generated, Generated, OverrideWarnings(args))
      else match last
        case Some(id) => Resolution(id, ContinueLast, OverrideWarnings(args))
        case None => Resolution(generated, Generated, OverrideWarnings(args) + [CONTINUE_NOT_FOUND])
  }

  function ModeOf(source: Source): Mode {
    if source == ContinueLast || source == ResumeId then Resume else Initial
  }

  // ---- The same choice, read off the raw tokens ----

  predicate IsSessionToken(token: string) { token == "--session-id" || token == "--resume" || token == "-r" }

  /** A session flag at position `j` followed by a token that does not look like a flag. */
  predicate SessionAt(raw: seq<string>, j: nat) {
    j + 1 < |raw| && IsSessionToken(raw[j]) && !LooksLikeFlag(raw[j + 1])
  }

  function ChoiceAt(raw: seq<string>, j: nat): Choice
    requires SessionAt(raw, j)
  {
    Choice(raw[j + 1], if raw[j] == "--session-id" then ExplicitId else ResumeId)
  }

  lemma {:induction false} LastChoiceCons(args: seq<ClassifiedArg>, rest: seq<ClassifiedArg>)
    ensures LastChoice(args + rest) == if LastChoice(rest).Some? then LastChoice(rest) else LastChoice(args)
  {
    if rest == [] {
      assert args + rest == args;
    } else {
      LastChoiceCons(args, rest[..|rest| - 1]);
      assert (args + rest)[..|args + rest| - 1] == args + rest[..|rest| - 1];
    }
  }

  lemma LastChoiceOne(arg: ClassifiedArg)
    ensures LastChoice([arg]) == SessionChoice(arg)
  {
    assert [arg][..0] == [];
  }

  // ---- Assembling ----

  function PassedTokens(arg: ClassifiedArg): seq<string> {
    if arg.Owned? || arg.Intercepted? then [] else Tokens(arg)
  }

  function PassedThrough(args: seq<ClassifiedArg>): seq<string> {
    if args == [] then [] else PassedThrough(args[..|args| - 1]) + PassedTokens(args[|args| - 1])
  }

  const SESSION_FLAG := "--session-id"
  const RESUME_FLAG := "--resume"

  /** Removing each session-id flag with the token after it. */
  function Stripped(args: seq<string>): seq<string> {
    if args == [] then []
    else if args[0] == SESSION_FLAG then Stripped(args[Min(2, |args|)..])
    else [args[0]] + Stripped(args[1..])
  }

  lemma {:induction false} StrippedHasNone(args: seq<string>)
    ensures SESSION_FLAG !in Stripped(args)
    decreases |args|
  {
    if args != [] {
      if args[0] == SESSION_FLAG {
        StrippedHasNone(args[Min(2, |args|)..]);
      } else {
        StrippedHasNone(args[1..]);
      }
    }
  }

  lemma {:induction false} StrippingNothing(args: seq<string>)
    requires SESSION_FLAG !in args
    ensures Stripped(args) == args
  {
    if args != [] {
      StrippingNothing(args[1..]);
    }
  }

  /** Stripping drops a flag and the token after it, and nothing in front of it. */
  lemma {:induction false} StrippedPair(front: seq<string>, id: string, back: seq<string>)
    requires SESSION_FLAG !in front
    ensures Stripped(front + [SESSION_FLAG, id] + back) == front + Stripped(back)
    ensures Stripped(front + [SESSION_FLAG]) == front
  {
    if front == [] {
      assert ([] + [SESSION_FLAG, id] + back)[2..] == back;
      assert ([] + [SESSION_FLAG])[1..] == [];
    } else {
      StrippedPair(front[1..], id, back);
      assert (front + [SESSION_FLAG, id] + back)[1..] == front[1..] + [SESSION_FLAG, id] + back;
      assert (front + [SESSION_FLAG])[1..] == front[1..] + [SESSION_FLAG];
    }
  }

  function SessionTokens(copilot: bool, id: string, mode: Mode): seq<string> {
    if copilot then (if mode == Resume then ["--resume=" + id] else [])
    else [if mode == Initial then SESSION_FLAG else RESUME_FLAG, id]
  }

  /** Everything behind the session flag: settings flags, and for Claude teammate mode and hooks. */
  function Trailer(copilot: bool, settings: seq<string>, shim: bool, hooks: Option<string>): seq<string> {
    settings +
    (if shim && !copilot then ["--teammate-mode", "tmux"] else []) +
    (if hooks.Some? && !copilot then ["--settings", hooks.value] else [])
  }

  function Assembled(
      args: seq<ClassifiedArg>, copilot: bool, id: string, mode: Mode,
      settings: seq<string>, shim: bool, hooks: Option<string>): seq<string>
  {
    var passed := PassedThrough(args);
    (if copilot then Stripped(passed) else passed) +
    SessionTokens(copilot, id, mode) +
    Trailer(copilot, settings, shim, hooks)
  }

  // ---- What the standard registry guarantees ----

  lemma SessionEntries()
    ensures |FlagRegistry()| == 12 && FlagRegistry()[1] == SESSION_ID && FlagRegistry()[2] == RESUME
  {
  }

  lemma SessionDefinitions()
    ensures Find(FlagRegistry(), "--session-id") == Some(SESSION_ID)
    ensures Find(FlagRegistry(), "--resume") == Some(RESUME)
    ensures Find(FlagRegistry(), "-r") == Some(RESUME)
  {
    hide FlagRegistry, Find;
    SessionEntries();
    StandardRegistryIsUnambiguous();
    SpellingResolves(FlagRegistry(), 1, "--session-id");
    SpellingResolves(FlagRegistry(), 2, "--resume");
    SpellingResolves(FlagRegistry(), 2, "-r");
  }

  /** Session spellings lead to the session definitions. */
  lemma SessionSpellings(token: string)
    requires IsSessionToken(token)
    ensures LooksLikeFlag(token)
    ensures Find(FlagRegistry(), token) == Some(if token == "--session-id" then SESSION_ID else RESUME)
  {
    hide FlagRegistry, Find;
    SessionDefinitions();
  }

  /** No other spelling leads to a definition with a session flag's long form. */
  lemma OtherSpellings(token: string)
    requires !IsSessionToken(token) && Find(FlagRegistry(), token).Some?
    ensures var long := Find(FlagRegistry(), token).value.long; long != "--session-id" && long != "--resume"
  {
    hide FlagRegistry, Find;
    var def := Find(FlagRegistry(), token).value;
    StandardRegistryIsUnambiguous();
    UnambiguousResolves(FlagRegistry());
    SessionDefinitions();
    assert Find(FlagRegistry(), def.long) == Some(def);
  }

  /** A definition that is passed through is not a session flag. */
  lemma PassedDefinitions(token: string)
    requires Find(FlagRegistry(), token).Some? && Find(FlagRegistry(), token).value.behavior == Passthrough
    ensures var long := Find(FlagRegistry(), token).value.long; long != "--session-id" && long != "--resume"
  {
    hide FlagRegistry, Find;
    if IsSessionToken(token) {
      SessionSpellings(token);
    } else {
      OtherSpellings(token);
    }
  }

  // ---- The choice on raw tokens ----

  ghost predicate NoneFrom(raw: seq<string>, k: nat) { forall j: nat :: k <= j ==> !SessionAt(raw, j) }

  lemma HeadChoice(raw: seq<string>)
    requires raw != []
    ensures LastChoice(HeadArgs(FlagRegistry(), raw)) == if SessionAt(raw, 0) then Some(ChoiceAt(raw, 0)) else None
  {
    hide FlagRegistry, Find;
    var head := HeadArgs(FlagRegistry(), raw);
    if |head| == 1 {
      LastChoiceOne(head[0]);
    } else {
      assert head[..1] == [head[0]];
      LastChoiceOne(head[0]);
    }
    if IsSessionToken(raw[0]) {
      SessionSpellings(raw[0]);
    } else if Find(FlagRegistry(), raw[0]).Some? {
      OtherSpellings(raw[0]);
    }
  }

  lemma ShiftSession(raw: seq<string>, n: nat, j: nat)
    requires n <= |raw|
    ensures SessionAt(raw[n..], j) <==> SessionAt(raw, j + n)
    ensures SessionAt(raw[n..], j) ==> ChoiceAt(raw[n..], j) == ChoiceAt(raw, j + n)
  {
  }

  lemma ValueIsNoSession(raw: seq<string>)
    requires raw != [] && HeadSize(FlagRegistry(), raw) == 2
    ensures !SessionAt(raw, 1)
  {
    hide FlagRegistry, Find;
    if IsSessionToken(raw[1]) {
      SessionSpellings(raw[1]);
    }
  }

  /** The session chosen from a command line is the value after its last session flag that has one;
      the loop's way of skipping values cannot hide or invent one. */
  lemma {:induction false} ChoiceIsLastOnCommandLine(raw: seq<string>)
    ensures LastChoice(Classified(FlagRegistry(), raw)).None? <==> NoneFrom(raw, 0)
    ensures forall j: nat :: SessionAt(raw, j) && NoneFrom(raw, j + 1) ==>
      LastChoice(Classified(FlagRegistry(), raw)) == Some(ChoiceAt(raw, j))
    decreases |raw|
  {
    hide FlagRegistry, Find, Classified, HeadArgs, ChoiceAt;
    if raw == [] {
      NoChoice();
    } else {
      var registry := FlagRegistry();
      var n := HeadSize(registry, raw);
      ClassifiedHead(registry, raw);
      LastChoiceCons(HeadArgs(registry, raw), Classified(registry, raw[n..]));
      HeadChoice(raw);
      ChoiceIsLastOnCommandLine(raw[n..]);
      if n == 2 {
        ValueIsNoSession(raw);
      }
      SuffixSessions(raw, n);
    }
  }

  lemma NoChoice()
    ensures LastChoice(Classified(FlagRegistry(), [])) == None
  {
  }

  lemma SuffixSessions(raw: seq<string>, n: nat)
    requires n <= |raw|
    ensures NoneFrom(raw[n..], 0) <==> NoneFrom(raw, n)
    ensures forall j: nat :: n <= j && SessionAt(raw, j) ==>
      SessionAt(raw[n..], j - n) && ChoiceAt(raw[n..], j - n) == ChoiceAt(raw, j)
    ensures forall j: nat :: n <= j && SessionAt(raw, j) && NoneFrom(raw, j + 1) ==> NoneFrom(raw[n..], j - n + 1)
  {
    forall j: nat
      ensures SessionAt(raw[n..], j) <==> SessionAt(raw, j + n)
      ensures SessionAt(raw[n..], j) ==> ChoiceAt(raw[n..], j) == ChoiceAt(raw, j + n)
    {
      ShiftSession(raw, n, j);
    }
    forall j: nat | n <= j ensures SessionAt(raw, j) <==> SessionAt(raw[n..], j - n) {
      ShiftSession(raw, n, j - n);
    }
  }
}
