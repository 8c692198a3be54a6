/** The classification and resolution loops, the assembler object and the spawn pipeline,
    proved against ArgSpec and SessionSpec. */
module ArgObjects {
  import opened Common
  import opened ArgSpec
  import opened SessionSpec
  import opened RawTokens

  /** `classify`: walks the tokens with one token of look-ahead. */
  method Classify(raw: seq<string>, registry: seq<FlagDef>) returns (args: seq<ClassifiedArg>, warnings: seq<string>)
    ensures args == Classified(registry, raw)
    ensures warnings == ClassifyWarnings(registry, raw)
  {
    hide Classified, ClassifyWarnings, Find, LooksLikeFlag;
    args, warnings := [], [];
    var i := 0;
    assert raw[0..] == raw;
    while i < |raw|
      invariant 0 <= i <= |raw|
      invariant args + Classified(registry, raw[i..]) == Classified(registry, raw)
      invariant warnings + ClassifyWarnings(registry, raw[i..]) == ClassifyWarnings(registry, raw)
    {
      ghost var rest := raw[i..];
      ClassifiedHead(registry, rest);
      WarningsHead(registry, rest);
      var taken, noted, next := ClassifyNext(raw, registry, i);
      assert rest[next - i..] == raw[next..];
      args := args + taken;
      warnings := warnings + noted;
      i := next;
    }
    NothingToClassify(registry);
    assert raw[|raw|..] == [];
  }

  /** One round of the loop: the token at `i`, and the next one when it is its value. */
  method ClassifyNext(raw: seq<string>, registry: seq<FlagDef>, i: nat)
    returns (taken: seq<ClassifiedArg>, noted: seq<string>, next: nat)
    requires i < |raw|
    ensures taken == HeadArgs(registry, raw[i..])
    ensures noted == HeadWarnings(registry, raw[i..])
    ensures next == i + HeadSize(registry, raw[i..])
  {
    hide Find, LooksLikeFlag;
    ghost var rest := raw[i..];
    assert rest[0] == raw[i] && (|rest| > 1 ==> rest[1] == raw[i + 1]);
    taken, noted, next := [], [], i + 1;
    var arg := raw[i];
    if !LooksLikeFlag(arg) {
      taken := [Positional(arg)];
      return;
    }
    match Find(registry, arg) {
      case Some(def) =>
        var value: Option<string> := None;
        if def.arity != NoValue {
          if next < |raw| && !LooksLikeFlag(raw[next]) {
            value := Some(raw[next]);
            next := next + 1;
          } else if def.arity == RequiresValue {
            noted := [def.long + ": missing required value"];
          }
        }
        taken := [MakeArg(def, value)];
      case None =>
        noted := [arg + ": unknown flag, forwarding to claude"];
        taken := [UnknownPassthrough(arg)];
        if next < |raw| && !LooksLikeFlag(raw[next]) {
          taken := taken + [UnknownPassthrough(raw[next])];
          next := next + 1;
        }
    }
  }

  lemma NothingToClassify(registry: seq<FlagDef>)
    ensures Classified(registry, []) == [] && ClassifyWarnings(registry, []) == []
  {
  }

  /** `resolve_session`: a fold over the classified arguments; the last valued session flag wins. */
  method ResolveSession(args: seq<ClassifiedArg>, last: Option<string>, generated: string)
    returns (resolution: Resolution)
    ensures resolution == Resolved(args, last, generated)
  {
    var warnings: seq<string> := [];
    var userSessionId: Option<Choice> := None;
    var sawContinue := false;
    for i := 0 to |args|
      invariant warnings == OverrideWarnings(args[..i])
      invariant userSessionId == LastChoice(args[..i])
      invariant sawContinue == SawContinue(args[..i])
    {
      var arg := args[i];
      assert args[..i + 1][..i] == args[..i];
      if arg.Intercepted? {
        if arg.flag == "--session-id" {
          if arg.value.Some? {
            if userSessionId.Some? {
              warnings := warnings + [arg.flag + ": overrides previously specified session flag"];
            }
            userSessionId := Some(Choice(arg.value.value, ExplicitId));
          }
        } else if arg.flag == "--resume" {
          if arg.value.Some? {
            if userSessionId.Some? {
              warnings := warnings + [arg.flag + ": overrides previously specified session flag"];
            }
            userSessionId := Some(Choice(arg.value.value, ResumeId));
          }
        } else if arg.flag == "--continue" {
          sawContinue := true;
        }
      }
      ContinueSnoc(args, i);
    }
    assert args[..|args|] == args;
    if userSessionId.Some? {
      if sawContinue {
        warnings := warnings + [CONTINUE_IGNORED];
      }
      return Resolution(userSessionId.value.id, userSessionId.value.source, warnings);
    } else if sawContinue {
      match last {
        case Some(id) => return Resolution(id, ContinueLast, warnings);
        case None => return Resolution(generated, Generated, warnings + [CONTINUE_NOT_FOUND]);
      }
    } else {
      return Resolution(generated, Generated, warnings);
    }
  }

  lemma ContinueSnoc(args: seq<ClassifiedArg>, i: nat)
    requires i < |args|
    ensures SawContinue(args[..i + 1]) == (SawContinue(args[..i]) || IsContinue(args[i]))
  {
    if SawContinue(args[..i]) {
      var k :| 0 <= k < i && IsContinue(args[..i][k]);
      assert IsContinue(args[..i + 1][k]);
    }
    if IsContinue(args[i]) {
      assert IsContinue(args[..i + 1][i]);
    }
  }

  class ArgAssembler {
    var args: seq<string>
    var copilot: bool

    constructor FromPassthrough(classified: seq<ClassifiedArg>)
      ensures args == PassedThrough(classified) && !copilot
    {
      args, copilot := [], false;
      new;
      for i := 0 to |classified|
        invariant args == PassedThrough(classified[..i]) && !copilot
      {
        assert classified[..i + 1][..i] == classified[..i];
        args := args + PassedTokens(classified[i]);
      }
      assert classified[..|classified|] == classified;
    }

    method CopilotMode(enabled: bool)
      modifies this
      ensures copilot == enabled
      ensures args == if enabled then Stripped(old(args)) else old(args)
    {
      copilot := enabled;
      if enabled {
        StripClaudeOnlyFlags();
      }
    }

    /** Drains each session-id flag and the token after it, in place. */
    method StripClaudeOnlyFlags()
      modifies this`args
      ensures args == Stripped(old(args))
    {
      var i := 0;
      assert args[0..] == args;
      while i < |args|
        invariant 0 <= i <= |args|
        invariant args[..i] + Stripped(args[i..]) == Stripped(old(args))
        decreases |args| - i
      {
        ghost var rest := args[i..];
        if args[i] == SESSION_FLAG {
          var end := Min(i + 2, |args|);
          assert args[end..] == rest[Min(2, |rest|)..];
          ghost var front := args[..i];
          ghost var back := args[end..];
          args := args[..i] + args[end..];
          assert args[..i] == front && args[i..] == back;
        } else {
          assert rest[1..] == args[i + 1..];
          assert args[..i + 1] == args[..i] + [args[i]];
          i := i + 1;
        }
      }
      assert args[|args|..] == [] && args[..|args|] == args;
    }

    method WithSession(id: string, mode: Mode)
      modifies this`args
      ensures args == old(args) + SessionTokens(copilot, id, mode)
    {
      if copilot {
        if mode == Resume {
          args := args + ["--resume=" + id];
        }
        return;
      }
      match mode {
        case Initial => args := args + ["--session-id"] + [id];
        case Resume => args := args + ["--resume"] + [id];
      }
    }

    method WithSettings(settings: seq<string>)
      modifies this`args
      ensures args == old(args) + settings
    {
      args := args + settings;
    }

    method WithTeammateMode(shim: bool)
      modifies this`args
      ensures args == old(args) + if shim && !copilot then ["--teammate-mode", "tmux"] else []
    {
      if copilot || !shim {
        return;
      }
      args := args + ["--teammate-mode"] + ["tmux"];
    }

    method WithSubagentHooks(hooks: string)
      modifies this`args
      ensures args == old(args) + if !copilot then ["--settings", hooks] else []
    {
      if copilot {
        return;
      }
      args := args + ["--settings"] + [hooks];
    }
  }

  /** `build_spawn_params`, without command and environment. `hooks` is present when the proxy port is
      known; it is the hook configuration rendered as JSON. */
  method BuildSpawnParams(
      raw: seq<string>, copilot: bool, settings: seq<string>, shim: bool, hooks: Option<string>,
      last: Option<string>, generated: string)
    returns (args: seq<string>, sessionId: string, warnings: seq<string>)
    ensures var classified := Classified(FlagRegistry(), raw);
      var resolution := Resolved(classified, last, generated);
      && sessionId == resolution.id
      && args == Assembled(classified, copilot, resolution.id, ModeOf(resolution.source), settings, shim, hooks)
      && warnings == ClassifyWarnings(FlagRegistry(), raw) + resolution.warnings
    ensures NoneFrom(raw, 0) ==>
      var resumes := HasContinue(raw) && last.Some?;
      && sessionId == (if resumes then last.value else generated)
      && args == AskedArgs(raw, copilot, settings, shim, hooks, sessionId, resumes)
    ensures forall j: nat :: SessionAt(raw, j) && NoneFrom(raw, j + 1) ==>
      && sessionId == raw[j + 1]
      && args == AskedArgs(raw, copilot, settings, shim, hooks, sessionId, raw[j] != "--session-id")
    ensures warnings ==
      Notes(raw) + (Overrides(raw, false) + ContinueNote(!NoneFrom(raw, 0), HasContinue(raw), last))
  {
    hide FlagRegistry, Classified, ClassifyWarnings, Resolved, PassedThrough, Stripped, SessionTokens;
    hide AskedArgs, Assembled, ContinueNote, Overrides, Notes, HasContinue, NoneFrom, SessionAt, ModeOf;
    var classified, classifyWarnings := Classify(raw, FlagRegistry());
    var session := ResolveSession(classified, last, generated);
    var mode := ModeOf(session.source);
    var assembler := new ArgAssembler.FromPassthrough(classified);
    assembler.CopilotMode(copilot);
    assembler.WithSession(session.id, mode);
    assembler.WithSettings(settings);
    assembler.WithTeammateMode(shim);
    if hooks.Some? {
      assembler.WithSubagentHooks(hooks.value);
    }
    args := assembler.args;
    sessionId := session.id;
    warnings := classifyWarnings + session.warnings;
    AssembledPieces(classified, copilot, session.id, mode, settings, shim, hooks);
    ArgsAreAsked(raw, copilot, session.id, mode, settings, shim, hooks);
    ResolvedAsAsked(raw, last, generated);
    WarningsAreNotes(raw);
  }

  // ---- Properties of the assembled command line ----

  predicate IsSessionFlag(token: string) { token == SESSION_FLAG || token == RESUME_FLAG }

  ghost predicate NoSessionFlags(tokens: seq<string>) { forall i :: 0 <= i < |tokens| ==> !IsSessionFlag(tokens[i]) }

  lemma PlainTokens(token: string)
    ensures !LooksLikeFlag(token) ==> !IsSessionFlag(token)
    ensures LooksLikeFlag(token) && Find(FlagRegistry(), token).None? ==> !IsSessionFlag(token)
  {
    hide FlagRegistry, Find;
    SessionDefinitions();
  }

  lemma HeadPassesNoSession(raw: seq<string>)
    requires raw != []
    ensures NoSessionFlags(PassedThrough(HeadArgs(FlagRegistry(), raw)))
  {
    hide FlagRegistry, Find;
    var head := HeadArgs(FlagRegistry(), raw);
    PlainTokens(raw[0]);
    if |raw| > 1 {
      PlainTokens(raw[1]);
    }
    if |head| == 1 {
      assert head == [head[0]];
      PassedOneOf(head[0]);
      if LooksLikeFlag(raw[0]) && head[0].KnownPassthrough? {
        PassedDefinitions(raw[0]);
      }
    } else {
      assert head == [head[0]] + [head[1]];
      PassedOneOf(head[0]);
      PassedOneOf(head[1]);
      PassedConcat([head[0]], [head[1]]);
    }
  }

  /** No token that is passed through is a session flag. */
  lemma {:induction false} PassThroughCarriesNoSession(raw: seq<string>)
    ensures NoSessionFlags(PassedThrough(Classified(FlagRegistry(), raw)))
    decreases |raw|
  {
    hide FlagRegistry, Find, HeadArgs, Classified, HeadSize, PassedThrough, IsSessionFlag;
    if raw == [] {
      NothingPassed();
    } else {
      var n := HeadSize(FlagRegistry(), raw);
      ClassifiedHead(FlagRegistry(), raw);
      HeadPassesNoSession(raw);
      PassThroughCarriesNoSession(raw[n..]);
      PassedConcat(HeadArgs(FlagRegistry(), raw), Classified(FlagRegistry(), raw[n..]));
    }
  }

  lemma NothingPassed()
    ensures PassedThrough(Classified(FlagRegistry(), [])) == []
  {
  }

  /** So stripping for Copilot has nothing to remove from a pass-through list. */
  lemma StrippingIsRedundant(raw: seq<string>)
    ensures var passed := PassedThrough(Classified(FlagRegistry(), raw)); Stripped(passed) == passed
  {
    hide FlagRegistry, PassedThrough, Classified;
    PassThroughCarriesNoSession(raw);
    StrippingNothing(PassedThrough(Classified(FlagRegistry(), raw)));
  }

  /** The assembled list is the one the raw tokens ask for. */
  lemma ArgsAreAsked(
      raw: seq<string>, copilot: bool, id: string, mode: Mode, settings: seq<string>, shim: bool,
      hooks: Option<string>)
    ensures Assembled(Classified(FlagRegistry(), raw), copilot, id, mode, settings, shim, hooks) ==
            AskedArgs(raw, copilot, settings, shim, hooks, id, mode == Resume)
  {
    hide FlagRegistry, Classified, PassedThrough, Forwarded, Stripped;
    PassedIsForwarded(raw);
    StrippingIsRedundant(raw);
  }

  lemma AssembledPieces(
      args: seq<ClassifiedArg>, copilot: bool, id: string, mode: Mode, settings: seq<string>, shim: bool,
      hooks: Option<string>)
    ensures Assembled(args, copilot, id, mode, settings, shim, hooks) ==
      (if copilot then Stripped(PassedThrough(args)) else PassedThrough(args)) +
      SessionTokens(copilot, id, mode) +
      settings +
      (if shim && !copilot then ["--teammate-mode", "tmux"] else []) +
      (if hooks.Some? && !copilot then ["--settings", hooks.value] else [])
  {
    hide PassedThrough, Stripped, SessionTokens;
  }

  lemma TrailerCarriesNoSession(copilot: bool, settings: seq<string>, shim: bool, hooks: Option<string>)
    requires NoSessionFlags(settings) && (hooks.Some? ==> !LooksLikeFlag(hooks.value))
    ensures NoSessionFlags(Trailer(copilot, settings, shim, hooks))
  {
    FixedTokens();
    if hooks.Some? {
      PlainTokens(hooks.value);
    }
  }

  lemma FixedTokens()
    ensures !IsSessionFlag("--teammate-mode") && !IsSessionFlag("tmux") && !IsSessionFlag("--settings")
  {
    assert "--teammate-mode"[2] == 't' && SESSION_FLAG[2] == 's' && RESUME_FLAG[2] == 'r';
    assert "--settings"[4] == 't' && SESSION_FLAG[4] == 's';
  }

  /** `flag` followed by `id` stands in the list, and no other token is a session flag. */
  ghost predicate OnlySessionFlag(args: seq<string>, flag: string, id: string) {
    exists k: nat :: FlagAt(args, flag, id, k)
  }

  ghost predicate FlagAt(args: seq<string>, flag: string, id: string, k: nat) {
    && k + 1 < |args| && args[k] == flag && args[k + 1] == id
    && forall i :: 0 <= i < |args| && i != k ==> !IsSessionFlag(args[i])
  }

  /** The Claude command line holds exactly one session flag, and the session identifier follows it. */
  lemma ClaudeCommandLine(
      raw: seq<string>, last: Option<string>, generated: string,
      settings: seq<string>, shim: bool, hooks: Option<string>)
    requires NoSessionFlags(settings) && (hooks.Some? ==> !LooksLikeFlag(hooks.value))
    requires !LooksLikeFlag(generated) && (last.Some? ==> !LooksLikeFlag(last.value))
    ensures var classified := Classified(FlagRegistry(), raw);
      var resolution := Resolved(classified, last, generated);
      var mode := ModeOf(resolution.source);
      OnlySessionFlag(Assembled(classified, false, resolution.id, mode, settings, shim, hooks),
                      if mode == Initial then SESSION_FLAG else RESUME_FLAG, resolution.id)
  {
    hide FlagRegistry, Classified, PassedThrough, IsSessionFlag, Trailer, Resolved;
    var classified := Classified(FlagRegistry(), raw);
    var resolution := Resolved(classified, last, generated);
    PassThroughCarriesNoSession(raw);
    TrailerCarriesNoSession(false, settings, shim, hooks);
    ResolvedIdIsPlain(raw, last, generated);
    PlainTokens(resolution.id);
    var passed := PassedThrough(classified);
    var flag := if ModeOf(resolution.source) == Initial then SESSION_FLAG else RESUME_FLAG;
    var trailer := Trailer(false, settings, shim, hooks);
    OneFlagBetween(passed, flag, resolution.id, trailer);
    assert Assembled(classified, false, resolution.id, ModeOf(resolution.source), settings, shim, hooks) ==
           passed + [flag, resolution.id] + trailer;
  }

  lemma OneFlagBetween(front: seq<string>, flag: string, id: string, back: seq<string>)
    requires NoSessionFlags(front) && NoSessionFlags(back) && !IsSessionFlag(id)
    ensures OnlySessionFlag(front + [flag, id] + back, flag, id)
  {
    hide IsSessionFlag;
    var args := front + [flag, id] + back;
    assert FlagAt(args, flag, id, |front|);
  }

  lemma ResolvedIdIsPlain(raw: seq<string>, last: Option<string>, generated: string)
    requires !LooksLikeFlag(generated) && (last.Some? ==> !LooksLikeFlag(last.value))
    ensures !LooksLikeFlag(Resolved(Classified(FlagRegistry(), raw), last, generated).id)
  {
    hide FlagRegistry, Classified, LastChoice, OverrideWarnings, SawContinue, LooksLikeFlag;
    ChoiceIsLastOnCommandLine(raw);
    if LastChoice(Classified(FlagRegistry(), raw)).Some? {
      var j := LastSession(raw, 0);
    }
  }

  /** The identifier is the one the user gave last, when there is one. */
  lemma LastGivenSessionWins(raw: seq<string>, last: Option<string>, generated: string, j: nat)
    requires SessionAt(raw, j) && NoneFrom(raw, j + 1)
    ensures var resolution := Resolved(Classified(FlagRegistry(), raw), last, generated);
      resolution.id == raw[j + 1] && (ModeOf(resolution.source) == Initial <==> raw[j] == SESSION_FLAG)
  {
    hide FlagRegistry, Classified, LastChoice, OverrideWarnings, SawContinue;
    ChoiceIsLastOnCommandLine(raw);
  }

  /** No token of the Copilot command line is the session-id flag. It is what the user passed through,
      then `--resume=` with the identifier exactly when resuming, then the settings flags; a token such
      as `--session-id=x`, which no definition matches, is passed through. */
  lemma CopilotCommandLine(
      raw: seq<string>, id: string, mode: Mode, settings: seq<string>, shim: bool, hooks: Option<string>)
    requires NoSessionFlags(settings)
    ensures var classified := Classified(FlagRegistry(), raw);
      var args := Assembled(classified, true, id, mode, settings, shim, hooks);
      && SESSION_FLAG !in args
      && args == PassedThrough(classified) + (if mode == Resume then ["--resume=" + id] else []) + settings
  {
    hide FlagRegistry, Classified, PassedThrough;
    var classified := Classified(FlagRegistry(), raw);
    PassThroughCarriesNoSession(raw);
    StrippingIsRedundant(raw);
    ResumeForm(id);
    var args := Assembled(classified, true, id, mode, settings, shim, hooks);
    var passed := PassedThrough(classified);
    assert args == passed + SessionTokens(true, id, mode) + settings;
  }

  /** The joined form of the session-id flag is no session flag: it is passed through unchanged. */
  lemma JoinedSessionFlagIsPassedThrough(value: string)
    ensures PassedThrough(Classified(FlagRegistry(), ["--session-id=" + value])) == ["--session-id=" + value]
    ensures LastChoice(Classified(FlagRegistry(), ["--session-id=" + value])).None?
  {
    hide FlagRegistry;
    var token := "--session-id=" + value;
    JoinedFormIsUnknown(value);
    var args := Classified(FlagRegistry(), [token]);
    assert [token][1..] == [] && NextValue([token]) == None;
    assert Classified(FlagRegistry(), []) == [];
    assert args == [UnknownPassthrough(token)] + [] + [];
    assert args[..0] == [];
  }

  lemma JoinedFormIsUnknown(value: string)
    ensures LooksLikeFlag("--session-id=" + value) && Find(FlagRegistry(), "--session-id=" + value).None?
  {
    hide FlagRegistry, Spelled;
    var token := "--session-id=" + value;
    StandardSpellings();
    forall i | 0 <= i < |FlagRegistry()| ensures !Matches(FlagRegistry()[i], token) {
      JoinedFormMatchesNone(FlagRegistry()[i], SIGNATURES[i], value);
    }
  }

  lemma JoinedFormMatchesNone(def: FlagDef, signature: Signature, value: string)
    requires signature in SIGNATURES && Spelled(def, signature)
    ensures !Matches(def, "--session-id=" + value)
  {
  }

  lemma ResumeForm(id: string)
    ensures "--resume=" + id != SESSION_FLAG
  {
    assert ("--resume=" + id)[2] == 'r' && SESSION_FLAG[2] == 's';
  }
}
