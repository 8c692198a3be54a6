/** The command line read off its raw tokens. The classifier's look-ahead is local: what becomes of a token
    depends on it and its neighbour alone. Every spelling is written out here, independently of the
    registry. */
module RawTokens {
  import opened Common
  import opened ArgSpec
  import opened SessionSpec

  // ---- The fate of a token ----

  /** Flags the wrapper keeps for itself together with their value. */
  predicate KeptWithValue(token: string) {
    || token == "--backend" || token == "-b" || token == "--session-id"
    || token == "--resume" || token == "-r"
  }

  predicate IsContinueToken(token: string) { token == "--continue" || token == "-c" }

  function LongForm(token: string): string {
    if token == "-b" then "--backend"
    else if token == "-r" then "--resume"
    else if token == "-c" then "--continue"
    else if token == "-m" then "--model"
    else if token == "-v" then "--verbose"
    else if token == "-p" then "--print"
    else if token == "-h" then "--help"
    else if token == "-V" then "--version"
    else token
  }

  predicate RequiresItsValue(token: string) {
    || KeptWithValue(token) || token == "--model" || token == "-m"
    || token == "--output-format" || token == "--teammate-mode"
  }

  predicate IsKnown(token: string) {
    || RequiresItsValue(token) || IsContinueToken(token)
    || token == "--verbose" || token == "-v" || token == "--print" || token == "-p"
    || token == "--dangerously-skip-permissions"
    || token == "--help" || token == "-h" || token == "--version" || token == "-V"
  }

  /** The token is the value of a flag the wrapper keeps. */
  predicate IsKeptValue(raw: seq<string>, i: nat) {
    0 < i < |raw| && KeptWithValue(raw[i - 1]) && !LooksLikeFlag(raw[i])
  }

  predicate Consumed(raw: seq<string>, i: nat)
    requires i < |raw|
  {
    KeptWithValue(raw[i]) || IsContinueToken(raw[i]) || IsKeptValue(raw, i)
  }

  /** All other tokens, in order, short flags in their long form. */
  function Forwarded(raw: seq<string>): seq<string> {
    if raw == [] then []
    else
      Forwarded(raw[..|raw| - 1]) +
      if Consumed(raw, |raw| - 1) then [] else [LongForm(raw[|raw| - 1])]
  }

  /** What the first token gives rise to. */
  function Note(raw: seq<string>): seq<string>
    requires raw != []
  {
    if !LooksLikeFlag(raw[0]) then []
    else if !IsKnown(raw[0]) then [raw[0] + ": unknown flag, forwarding to claude"]
    else if RequiresItsValue(raw[0]) && (|raw| == 1 || LooksLikeFlag(raw[1]))
    then [LongForm(raw[0]) + ": missing required value"]
    else []
  }

  function Notes(raw: seq<string>): seq<string> { if raw == [] then [] else Note(raw) + Notes(raw[1..]) }

  ghost predicate HasContinue(raw: seq<string>) { exists i :: 0 <= i < |raw| && IsContinueToken(raw[i]) }

  /** One warning for each valued session flag behind another one. */
  function Overrides(raw: seq<string>, seen: bool): seq<string> {
    if raw == [] then []
    else
      (if seen && SessionAt(raw, 0)
       then [LongForm(raw[0]) + ": overrides previously specified session flag"] else []) +
      Overrides(raw[1..], seen || SessionAt(raw, 0))
  }

  // ---- The registry agrees with the spellings ----

  /** What a definition has to be for a token. */
  ghost predicate Fits(def: FlagDef, token: string) {
    && LooksLikeFlag(token) && IsKnown(token) && LongForm(token) == def.long
    && (def.behavior == Passthrough <==> !KeptWithValue(token) && !IsContinueToken(token))
    && (IsContinueToken(token) <==> def.behavior == Intercept && def.arity == NoValue)
    && (def.arity == RequiresValue <==> RequiresItsValue(token))
    && def.arity != OptionalValue
  }

  lemma KeptDefinitionsFit(token: string)
    ensures Matches(BACKEND, token) ==> Fits(BACKEND, token)
    ensures Matches(SESSION_ID, token) ==> Fits(SESSION_ID, token)
    ensures Matches(RESUME, token) ==> Fits(RESUME, token)
    ensures Matches(CONTINUE, token) ==> Fits(CONTINUE, token)
  {
  }

  lemma PassedDefinitionsFit(token: string)
    ensures Matches(MODEL, token) ==> Fits(MODEL, token)
    ensures Matches(VERBOSE, token) ==> Fits(VERBOSE, token)
    ensures Matches(PRINT, token) ==> Fits(PRINT, token)
    ensures Matches(OUTPUT_FORMAT, token) ==> Fits(OUTPUT_FORMAT, token)
  {
  }

  lemma LastDefinitionsFit(token: string)
    ensures Matches(SKIP_PERMISSIONS, token) ==> Fits(SKIP_PERMISSIONS, token)
    ensures Matches(TEAMMATE_MODE, token) ==> Fits(TEAMMATE_MODE, token)
    ensures Matches(HELP, token) ==> Fits(HELP, token)
    ensures Matches(VERSION, token) ==> Fits(VERSION, token)
  {
  }

  lemma KnownTokensMatch(token: string)
    requires IsKnown(token)
    ensures exists def :: def in FlagRegistry() && Matches(def, token)
  {
    var r := FlagRegistry();
    assert BACKEND in r && SESSION_ID in r && RESUME in r && CONTINUE in r && MODEL in r && VERBOSE in r;
    assert PRINT in r && OUTPUT_FORMAT in r && SKIP_PERMISSIONS in r && TEAMMATE_MODE in r && HELP in r && VERSION in r;
    hide FlagRegistry;
    SpellingsOfKnown(token);
  }

  lemma SpellingsOfKnown(token: string)
    requires IsKnown(token)
    ensures
      || Matches(BACKEND, token) || Matches(SESSION_ID, token) || Matches(RESUME, token) || Matches(CONTINUE, token)
      || Matches(MODEL, token) || Matches(VERBOSE, token) || Matches(PRINT, token) || Matches(OUTPUT_FORMAT, token)
      || Matches(SKIP_PERMISSIONS, token) || Matches(TEAMMATE_MODE, token) || Matches(HELP, token)
      || Matches(VERSION, token)
  {
  }

  lemma OneOfTwelve(def: FlagDef)
    requires def in FlagRegistry()
    ensures
      || def == BACKEND || def == SESSION_ID || def == RESUME || def == CONTINUE || def == MODEL || def == VERBOSE
      || def == PRINT || def == OUTPUT_FORMAT || def == SKIP_PERMISSIONS || def == TEAMMATE_MODE
      || def == HELP || def == VERSION
  {
  }

  /** The definition found for a token is the one its spelling asks for; other tokens find none. */
  lemma FoundDefinition(token: string)
    ensures Find(FlagRegistry(), token).Some? <==> IsKnown(token)
    ensures Find(FlagRegistry(), token).Some? ==> Fits(Find(FlagRegistry(), token).value, token)
  {
    hide FlagRegistry, Matches, Fits, IsKnown;
    if Find(FlagRegistry(), token).Some? {
      OneOfTwelve(Find(FlagRegistry(), token).value);
      KeptDefinitionsFit(token);
      PassedDefinitionsFit(token);
      LastDefinitionsFit(token);
      FitsIsKnown(Find(FlagRegistry(), token).value, token);
    } else if IsKnown(token) {
      KnownTokensMatch(token);
    }
  }

  lemma FitsIsKnown(def: FlagDef, token: string)
    ensures Fits(def, token) ==> IsKnown(token)
  {
  }

  /** A token that does not look like a flag is no spelling of one. */
  lemma PlainToken(token: string)
    requires !LooksLikeFlag(token)
    ensures !KeptWithValue(token) && !IsContinueToken(token) && !IsKnown(token) && LongForm(token) == token
    ensures !IsSessionToken(token)
  {
  }

  lemma UnknownToken(token: string)
    requires !IsKnown(token)
    ensures !KeptWithValue(token) && !IsContinueToken(token) && LongForm(token) == token && !IsSessionToken(token)
  {
  }

  // ---- Forwarding ----

  lemma {:induction false} ForwardedSplit(raw: seq<string>, n: nat)
    requires n <= |raw| && !IsKeptValue(raw, n)
    ensures Forwarded(raw) == Forwarded(raw[..n]) + Forwarded(raw[n..])
  {
    hide KeptWithValue, IsContinueToken, LongForm, LooksLikeFlag;
    if n == |raw| {
      assert raw[..n] == raw && raw[n..] == [];
    } else {
      var init := raw[..|raw| - 1];
      ForwardedSplit(init, n);
      assert init[..n] == raw[..n] && raw[n..][..|raw| - n - 1] == init[n..];
      assert IsKeptValue(raw, |raw| - 1) == IsKeptValue(raw[n..], |raw| - n - 1);
      var last := if Consumed(raw, |raw| - 1) then [] else [LongForm(raw[|raw| - 1])];
      assert Forwarded(raw[..n]) + (Forwarded(init[n..]) + last) == (Forwarded(raw[..n]) + Forwarded(init[n..])) + last;
    }
  }

  lemma ForwardedOne(token: string)
    ensures Forwarded([token]) ==
      if KeptWithValue(token) || IsContinueToken(token) then [] else [LongForm(token)]
  {
    assert [token][..0] == [];
  }

  lemma ForwardedTwo(token: string, value: string)
    requires !LooksLikeFlag(value)
    ensures Forwarded([token, value]) ==
      Forwarded([token]) + if KeptWithValue(token) then [] else [value]
  {
    hide KeptWithValue, IsContinueToken, LongForm, LooksLikeFlag;
    PlainToken(value);
    assert [token, value][..1] == [token];
  }

  lemma PassedOneOf(arg: ClassifiedArg)
    ensures PassedThrough([arg]) == PassedTokens(arg)
  {
    assert [arg][..0] == [];
  }

  /** One round of the classifier passes on what is forwarded of the tokens it takes. */
  lemma HeadForwards(raw: seq<string>)
    requires raw != []
    ensures PassedThrough(HeadArgs(FlagRegistry(), raw)) == Forwarded(raw[..HeadSize(FlagRegistry(), raw)])
    ensures !IsKeptValue(raw, HeadSize(FlagRegistry(), raw))
  {
    hide FlagRegistry, Find, KeptWithValue, IsContinueToken, LongForm, IsKnown, RequiresItsValue;
    hide Forwarded, LooksLikeFlag, PassedThrough;
    var head, n := HeadArgs(FlagRegistry(), raw), HeadSize(FlagRegistry(), raw);
    FoundDefinition(raw[0]);
    ForwardedOne(raw[0]);
    assert raw[..n] == if n == 1 then [raw[0]] else [raw[0], raw[1]];
    if n == 2 {
      ForwardedTwo(raw[0], raw[1]);
      PlainToken(raw[1]);
    }
    if !LooksLikeFlag(raw[0]) {
      PlainToken(raw[0]);
    } else if Find(FlagRegistry(), raw[0]).None? {
      UnknownToken(raw[0]);
    } else {
      ValuedByArity(raw[0], Find(FlagRegistry(), raw[0]).value);
    }
    PassedOneOf(head[0]);
    if |head| == 2 {
      PassedTwoOf(head[0], head[1]);
      assert head == [head[0], head[1]];
    } else {
      assert head == [head[0]];
    }
  }

  lemma PassedTwoOf(first: ClassifiedArg, second: ClassifiedArg)
    ensures PassedThrough([first, second]) == PassedTokens(first) + PassedTokens(second)
  {
    assert [first, second][..1] == [first];
    PassedOneOf(first);
  }

  /** Kept flags with a value require it; continue takes none. */
  lemma ValuedByArity(token: string, def: FlagDef)
    requires Fits(def, token)
    ensures KeptWithValue(token) ==> def.arity == RequiresValue
    ensures IsContinueToken(token) ==> def.arity == NoValue && !KeptWithValue(token)
  {
  }

  lemma {:induction false} PassedConcat(first: seq<ClassifiedArg>, second: seq<ClassifiedArg>)
    ensures PassedThrough(first + second) == PassedThrough(first) + PassedThrough(second)
  {
    hide PassedTokens;
    if second == [] {
      assert first + second == first;
    } else {
      var init := second[..|second| - 1];
      PassedConcat(first, init);
      assert (first + second)[..|first + second| - 1] == first + init;
      assert PassedThrough(first) + (PassedThrough(init) + PassedTokens(second[|second| - 1])) ==
             PassedThrough(first) + PassedThrough(init) + PassedTokens(second[|second| - 1]);
    }
  }

  /** Main result: what is passed through is exactly the tokens that are neither a flag of the wrapper nor
      its value, in order, with short flags in their long form. */
  lemma {:induction false} PassedIsForwarded(raw: seq<string>)
    ensures PassedThrough(Classified(FlagRegistry(), raw)) == Forwarded(raw)
    decreases |raw|
  {
    hide FlagRegistry, HeadArgs, HeadSize, Classified, Forwarded, PassedThrough;
    if raw == [] {
      NothingForwarded();
    } else {
      var n := HeadSize(FlagRegistry(), raw);
      ClassifiedHead(FlagRegistry(), raw);
      HeadForwards(raw);
      PassedIsForwarded(raw[n..]);
      PassedConcat(HeadArgs(FlagRegistry(), raw), Classified(FlagRegistry(), raw[n..]));
      ForwardedSplit(raw, n);
    }
  }

  lemma NothingForwarded()
    ensures PassedThrough(Classified(FlagRegistry(), [])) == Forwarded([])
  {
  }

  // ---- Warnings ----

  lemma HeadNotes(raw: seq<string>)
    requires raw != []
    ensures var n := HeadSize(FlagRegistry(), raw);
      HeadWarnings(FlagRegistry(), raw) + Notes(raw[n..]) == Notes(raw)
  {
    hide FlagRegistry, Find, KeptWithValue, LongForm, IsKnown, RequiresItsValue, LooksLikeFlag, Notes;
    var n := HeadSize(FlagRegistry(), raw);
    FoundDefinition(raw[0]);
    NotesUnfold(raw);
    if n == 2 {
      NotesUnfold(raw[1..]);
      assert raw[1..][1..] == raw[2..] && raw[1..][0] == raw[1];
      assert [] + Notes(raw[2..]) == Notes(raw[2..]);
    }
  }

  lemma NotesUnfold(raw: seq<string>)
    requires raw != []
    ensures Notes(raw) == Note(raw) + Notes(raw[1..])
  {
  }

  /** The classifier's warnings, token by token. */
  lemma {:induction false} WarningsAreNotes(raw: seq<string>)
    ensures ClassifyWarnings(FlagRegistry(), raw) == Notes(raw)
    decreases |raw|
  {
    hide FlagRegistry, HeadWarnings, HeadSize, ClassifyWarnings, Notes;
    if raw == [] {
      NothingNoted();
    } else {
      WarningsHead(FlagRegistry(), raw);
      WarningsAreNotes(raw[HeadSize(FlagRegistry(), raw)..]);
      HeadNotes(raw);
    }
  }

  lemma NothingNoted()
    ensures ClassifyWarnings(FlagRegistry(), []) == Notes([])
  {
  }

  // ---- Continue ----

  lemma SawContinueConcat(first: seq<ClassifiedArg>, second: seq<ClassifiedArg>)
    ensures SawContinue(first + second) <==> SawContinue(first) || SawContinue(second)
  {
    hide IsContinue;
    var all := first + second;
    if i :| 0 <= i < |first| && IsContinue(first[i]) {
      assert IsContinue(all[i]);
    }
    if i :| 0 <= i < |second| && IsContinue(second[i]) {
      assert IsContinue(all[|first| + i]);
    }
  }

  lemma HeadContinue(raw: seq<string>)
    requires raw != []
    ensures SawContinue(HeadArgs(FlagRegistry(), raw)) <==> IsContinueToken(raw[0])
    ensures HeadSize(FlagRegistry(), raw) == 2 ==> !IsContinueToken(raw[1])
  {
    hide FlagRegistry, Find, LongForm, IsKnown, LooksLikeFlag, RequiresItsValue, KeptWithValue;
    var head := HeadArgs(FlagRegistry(), raw);
    FoundDefinition(raw[0]);
    if HeadSize(FlagRegistry(), raw) == 2 {
      PlainToken(raw[1]);
    }
    if !LooksLikeFlag(raw[0]) {
      PlainToken(raw[0]);
    } else if Find(FlagRegistry(), raw[0]).None? {
      UnknownToken(raw[0]);
    } else {
      ContinueForm(raw[0], Find(FlagRegistry(), raw[0]).value);
    }
    assert IsContinue(head[0]) <==> IsContinueToken(raw[0]);
  }

  lemma ContinueForm(token: string, def: FlagDef)
    requires Fits(def, token)
    ensures IsContinueToken(token) <==> def.behavior == Intercept && def.long == "--continue"
  {
  }

  lemma {:induction false} ContinueIsSeen(raw: seq<string>)
    ensures SawContinue(Classified(FlagRegistry(), raw)) <==> HasContinue(raw)
    decreases |raw|
  {
    hide FlagRegistry, HeadArgs, HeadSize, Classified, SawContinue, IsContinueToken;
    if raw == [] {
      NothingContinued();
    } else {
      var n := HeadSize(FlagRegistry(), raw);
      ClassifiedHead(FlagRegistry(), raw);
      SawContinueConcat(HeadArgs(FlagRegistry(), raw), Classified(FlagRegistry(), raw[n..]));
      HeadContinue(raw);
      ContinueIsSeen(raw[n..]);
      HasContinueSplit(raw, n);
    }
  }

  lemma NothingContinued()
    ensures !SawContinue(Classified(FlagRegistry(), []))
  {
  }

  lemma HasContinueSplit(raw: seq<string>, n: nat)
    requires 1 <= n <= 2 && n <= |raw| && (n == 2 ==> !IsContinueToken(raw[1]))
    ensures HasContinue(raw) <==> IsContinueToken(raw[0]) || HasContinue(raw[n..])
  {
    hide IsContinueToken;
    if i :| 0 <= i < |raw[n..]| && IsContinueToken(raw[n..][i]) {
      assert IsContinueToken(raw[n + i]);
    }
    if i :| 0 <= i < |raw| && IsContinueToken(raw[i]) && i >= n {
      assert raw[n..][i - n] == raw[i];
    }
  }

  // ---- Overrides ----

  /** The override warnings of classified arguments, from the front. */
  function OverridesOf(args: seq<ClassifiedArg>, seen: bool): seq<string> {
    if args == [] then []
    else
      (if seen && SessionChoice(args[0]).Some?
       then [args[0].flag + ": overrides previously specified session flag"] else []) +
      OverridesOf(args[1..], seen || SessionChoice(args[0]).Some?)
  }

  lemma {:induction false} OverridesSnoc(args: seq<ClassifiedArg>, last: ClassifiedArg, seen: bool)
    ensures OverridesOf(args + [last], seen) ==
      OverridesOf(args, seen) +
      if (seen || LastChoice(args).Some?) && SessionChoice(last).Some?
      then [last.flag + ": overrides previously specified session flag"] else []
  {
    hide SessionChoice;
    if args == [] {
      assert args + [last] == [last] && [last][1..] == [];
    } else {
      OverridesSnoc(args[1..], last, seen || SessionChoice(args[0]).Some?);
      assert (args + [last])[1..] == args[1..] + [last] && (args + [last])[0] == args[0];
      LastChoiceCons([args[0]], args[1..]);
      LastChoiceOne(args[0]);
      assert [args[0]] + args[1..] == args;
    }
  }

  lemma {:induction false} OverridesFromTheFront(args: seq<ClassifiedArg>)
    ensures OverrideWarnings(args) == OverridesOf(args, false)
  {
    hide SessionChoice, LastChoice;
    if args != [] {
      var init := args[..|args| - 1];
      OverridesFromTheFront(init);
      OverridesSnoc(init, args[|args| - 1], false);
      assert init + [args[|args| - 1]] == args;
    }
  }

  /** One round: its head holds a choice exactly when the first token is a valued session flag. */
  lemma HeadOverrides(raw: seq<string>, rest: seq<ClassifiedArg>, seen: bool)
    requires raw != []
    ensures OverridesOf(HeadArgs(FlagRegistry(), raw) + rest, seen) ==
      (if seen && SessionAt(raw, 0)
       then [LongForm(raw[0]) + ": overrides previously specified session flag"] else []) +
      OverridesOf(rest, seen || SessionAt(raw, 0))
    ensures HeadSize(FlagRegistry(), raw) == 2 ==> !SessionAt(raw, 1)
  {
    hide FlagRegistry, Find, LongForm, IsKnown, SessionAt, LastChoice, SessionChoice;
    var head := HeadArgs(FlagRegistry(), raw);
    HeadChoice(raw);
    if HeadSize(FlagRegistry(), raw) == 2 {
      ValueIsNoSession(raw);
    }
    HeadFlag(raw);
    if |head| == 1 {
      LastChoiceOne(head[0]);
      assert head == [head[0]];
    } else {
      UnknownChoosesNothing(head[0]);
      UnknownChoosesNothing(head[1]);
      LastChoiceCons([head[0]], [head[1]]);
      LastChoiceOne(head[0]);
      LastChoiceOne(head[1]);
      assert head == [head[0]] + [head[1]];
      assert (head + rest)[1..] == [head[1]] + rest && ([head[1]] + rest)[1..] == rest;
    }
    assert head + rest == [head[0]] + (head[1..] + rest);
    assert (head + rest)[1..] == head[1..] + rest;
  }

  lemma UnknownChoosesNothing(arg: ClassifiedArg)
    ensures !arg.Intercepted? ==> SessionChoice(arg).None?
  {
  }

  lemma HeadFlag(raw: seq<string>)
    requires raw != []
    ensures var head := HeadArgs(FlagRegistry(), raw);
      && (|head| == 2 ==> head[0].UnknownPassthrough? && head[1].UnknownPassthrough?)
      && (head[0].Intercepted? ==> head[0].flag == LongForm(raw[0]))
      && (SessionChoice(head[0]).Some? ==> head[0].Intercepted?)
  {
    hide FlagRegistry, Find, LongForm, IsKnown;
    FoundDefinition(raw[0]);
  }

  lemma OverridesUnfold(raw: seq<string>, seen: bool)
    requires raw != []
    ensures Overrides(raw, seen) ==
      (if seen && SessionAt(raw, 0)
       then [LongForm(raw[0]) + ": overrides previously specified session flag"] else []) +
      Overrides(raw[1..], seen || SessionAt(raw, 0))
  {
  }

  lemma {:induction false} OverridesAreLocal(raw: seq<string>, seen: bool)
    ensures OverridesOf(Classified(FlagRegistry(), raw), seen) == Overrides(raw, seen)
    decreases |raw|
  {
    hide FlagRegistry, HeadArgs, HeadSize, Classified, LongForm, SessionAt, OverridesOf, Overrides;
    if raw == [] {
      NothingOverridden(seen);
    } else {
      var n := HeadSize(FlagRegistry(), raw);
      var after := seen || SessionAt(raw, 0);
      ClassifiedHead(FlagRegistry(), raw);
      HeadOverrides(raw, Classified(FlagRegistry(), raw[n..]), seen);
      OverridesAreLocal(raw[n..], after);
      OverridesUnfold(raw, seen);
      if n == 2 {
        OverridesUnfold(raw[1..], after);
        ShiftSession(raw, 1, 0);
        assert raw[1..][1..] == raw[2..];
        assert [] + Overrides(raw[2..], after) == Overrides(raw[2..], after);
      }
    }
  }

  lemma NothingOverridden(seen: bool)
    ensures OverridesOf(Classified(FlagRegistry(), []), seen) == Overrides([], seen)
  {
  }

  // ---- The whole command line ----

  /** The arguments of the child: what is forwarded, the session flag of its kind, settings flags, and for
      Claude teammate mode and hooks. */
  function AskedArgs(
      raw: seq<string>, copilot: bool, settings: seq<string>, shim: bool, hooks: Option<string>,
      id: string, resumes: bool): seq<string>
  {
    Forwarded(raw) +
    (if copilot then (if resumes then ["--resume=" + id] else [])
     else [if resumes then "--resume" else "--session-id", id]) +
    (settings +
     (if shim && !copilot then ["--teammate-mode", "tmux"] else []) +
     (if hooks.Some? && !copilot then ["--settings", hooks.value] else []))
  }

  function ContinueNote(sessionGiven: bool, continued: bool, last: Option<string>): seq<string> {
    if continued && sessionGiven then ["--continue ignored because --session-id/--resume was also specified"]
    else if continued && last.None? then
      ["--continue: no previous session found for current directory, starting new session"]
    else []
  }

  /** The session is the one the last valued session flag names; without one it is the one on disk when
      continuing, and else a new one. Only a new one and one given by --session-id are not resumed. */
  lemma ResolvedAsAsked(raw: seq<string>, last: Option<string>, generated: string)
    ensures var resolution := Resolved(Classified(FlagRegistry(), raw), last, generated);
      var resumes := ModeOf(resolution.source) == Resume;
      && (forall j: nat :: SessionAt(raw, j) && NoneFrom(raw, j + 1) ==>
            resolution.id == raw[j + 1] && resumes == (raw[j] != "--session-id"))
      && (NoneFrom(raw, 0) ==>
            && resumes == (HasContinue(raw) && last.Some?)
            && resolution.id == if resumes then last.value else generated)
      && resolution.warnings ==
         Overrides(raw, false) + ContinueNote(!NoneFrom(raw, 0), HasContinue(raw), last)
  {
    hide FlagRegistry, Classified, LastChoice, OverrideWarnings, SawContinue, HasContinue, Overrides, OverridesOf;
    var args := Classified(FlagRegistry(), raw);
    ChoiceIsLastOnCommandLine(raw);
    ContinueIsSeen(raw);
    OverridesFromTheFront(args);
    OverridesAreLocal(raw, false);
    assert OverrideWarnings(args) + [] == OverrideWarnings(args);
    if LastChoice(args).Some? {
      var j := LastSession(raw, 0);
    }
  }

  lemma {:induction false} LastSession(raw: seq<string>, k: nat) returns (j: nat)
    requires !NoneFrom(raw, k)
    ensures k <= j && SessionAt(raw, j) && NoneFrom(raw, j + 1)
    decreases |raw| - k
  {
    var first: nat :| k <= first && SessionAt(raw, first);
    if NoneFrom(raw, first + 1) {
      j := first;
    } else {
      j := LastSession(raw, first + 1);
    }
  }
}
