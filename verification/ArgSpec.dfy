/** Command-line handling on values: the flag registry, classification, session resolution and the
    assembled argument list (src/args). */
module ArgSpec {
  import opened Common

  datatype Arity = NoValue | RequiresValue | OptionalValue
  datatype Behavior = WrapperOwned | Intercept | Passthrough
  datatype FlagDef = FlagDef(long: string, short: Option<string>, arity: Arity, behavior: Behavior)

  const BACKEND := FlagDef("--backend", Some("-b"), RequiresValue, WrapperOwned)
  const SESSION_ID := FlagDef("--session-id", None, RequiresValue, Intercept)
  const RESUME := FlagDef("--resume", Some("-r"), RequiresValue, Intercept)
  const CONTINUE := FlagDef("--continue", Some("-c"), NoValue, Intercept)
  const MODEL := FlagDef("--model", Some("-m"), RequiresValue, Passthrough)
  const VERBOSE := FlagDef("--verbose", Some("-v"), NoValue, Passthrough)
  const PRINT := FlagDef("--print", Some("-p"), NoValue, Passthrough)
  const OUTPUT_FORMAT := FlagDef("--output-format", None, RequiresValue, Passthrough)
  const SKIP_PERMISSIONS := FlagDef("--dangerously-skip-permissions", None, NoValue, Passthrough)
  const TEAMMATE_MODE := FlagDef("--teammate-mode", None, RequiresValue, Passthrough)
  const HELP := FlagDef("--help", Some("-h"), NoValue, Passthrough)
  const VERSION := FlagDef("--version", Some("-V"), NoValue, Passthrough)

  /** `flag_registry`, without the help texts. */
  function FlagRegistry(): seq<FlagDef> {
    [BACKEND, SESSION_ID, RESUME, CONTINUE, MODEL, VERBOSE,
     PRINT, OUTPUT_FORMAT, SKIP_PERMISSIONS, TEAMMATE_MODE, HELP, VERSION]
  }

  predicate Matches(def: FlagDef, arg: string) { arg == def.long || def.short == Some(arg) }

  predicate LooksLikeFlag(token: string) { token != [] && token[0] == '-' }

  /** First definition that matches. */
  function Find(registry: seq<FlagDef>, arg: string): (def: Option<FlagDef>)
    ensures def.Some? ==> def.value in registry && Matches(def.value, arg)
    ensures def.None? ==> forall d :: d in registry ==> !Matches(d, arg)
  {
    if registry == [] then None
    else if Matches(registry[0], arg) then Some(registry[0])
    else Find(registry[1..], arg)
  }

  // ---- Classification ----

  datatype ClassifiedArg =
    | Owned(flag: string, value: Option<string>)
    | Intercepted(flag: string, value: Option<string>)
    | KnownPassthrough(flag: string, value: Option<string>)
    | UnknownPassthrough(token: string)
    | Positional(token: string)

  function MakeArg(def: FlagDef, value: Option<string>): ClassifiedArg {
    match def.behavior
    case WrapperOwned => Owned(def.long, value)
    case Intercept => Intercepted(def.long, value)
    case Passthrough => KnownPassthrough(def.long, value)
  }

  /** The token after a flag is its value when it does not look like a flag itself. */
  function NextValue(raw: seq<string>): Option<string> {
    if |raw| > 1 && !LooksLikeFlag(raw[1]) then Some(raw[1]) else None
  }

  function ValueFor(def: FlagDef, raw: seq<string>): Option<string> {
    if def.arity == NoValue then None else NextValue(raw)
  }

  function Skip(raw: seq<string>, value: Option<string>): nat
    requires raw != [] && (value == None || value == NextValue(raw))
    ensures Skip(raw, value) <= |raw|
  {
    if value.Some? then 2 else 1
  }

  function Classified(registry: seq<FlagDef>, raw: seq<string>): seq<ClassifiedArg>
    decreases |raw|
  {
    if raw == [] then []
    else if !LooksLikeFlag(raw[0]) then [Positional(raw[0])] + Classified(registry, raw[1..])
    else match Find(registry, raw[0])
      case Some(def) =>
        [MakeArg(def, ValueFor(def, raw))] + Classified(registry, raw[Skip(raw, ValueFor(def, raw))..])
      case None =>
        [UnknownPassthrough(raw[0])] +
        (match NextValue(raw) case Some(value) => [UnknownPassthrough(value)] case None => []) +
        Classified(registry, raw[Skip(raw, NextValue(raw))..])
  }

  function MissingValue(def: FlagDef, value: Option<string>): seq<string> {
    if def.arity == RequiresValue && value.None? then [def.long + ": missing required value"] else []
  }

  function ClassifyWarnings(registry: seq<FlagDef>, raw: seq<string>): seq<string>
    decreases |raw|
  {
    if raw == [] then []
    else if !LooksLikeFlag(raw[0]) then ClassifyWarnings(registry, raw[1..])
    else match Find(registry, raw[0])
      case Some(def) =>
        MissingValue(def, ValueFor(def, raw)) + ClassifyWarnings(registry, raw[Skip(raw, ValueFor(def, raw))..])
      case None =>
        [raw[0] + ": unknown flag, forwarding to claude"] +
        ClassifyWarnings(registry, raw[Skip(raw, NextValue(raw))..])
  }

  // ---- Every token is accounted for ----

  function Tokens(arg: ClassifiedArg): seq<string> {
    if arg.UnknownPassthrough? || arg.Positional? then [arg.token]
    else [arg.flag] + match arg.value case Some(v) => [v] case None => []
  }

  function AllTokens(args: seq<ClassifiedArg>): seq<string> {
    if args == [] then [] else Tokens(args[0]) + AllTokens(args[1..])
  }

  /** A short flag in its long form; every other token as it is. */
  function Canonical(registry: seq<FlagDef>, token: string): string {
    if LooksLikeFlag(token) && Find(registry, token).Some? then Find(registry, token).value.long else token
  }

  function AllCanonical(registry: seq<FlagDef>, raw: seq<string>): seq<string> {
    seq(|raw|, i requires 0 <= i < |raw| => Canonical(registry, raw[i]))
  }

  lemma CanonicalSplit(registry: seq<FlagDef>, raw: seq<string>, k: nat)
    requires k <= |raw|
    ensures AllCanonical(registry, raw) == AllCanonical(registry, raw[..k]) + AllCanonical(registry, raw[k..])
  {
  }

  lemma {:induction false} TokensAppend(first: seq<ClassifiedArg>, second: seq<ClassifiedArg>)
    ensures AllTokens(first + second) == AllTokens(first) + AllTokens(second)
  {
    hide Tokens;
    if first == [] {
      assert first + second == second;
    } else {
      var head, rest := Tokens(first[0]), AllTokens(first[1..]);
      TokensAppend(first[1..], second);
      assert (first + second)[1..] == first[1..] + second && (first + second)[0] == first[0];
      assert AllTokens(first + second) == head + (rest + AllTokens(second)) == (head + rest) + AllTokens(second);
    }
  }

  lemma TokensOne(arg: ClassifiedArg)
    ensures AllTokens([arg]) == Tokens(arg)
  {
    assert [arg][1..] == [];
  }

  /** What one round of the loop takes off the front, and what it makes of it. */
  function HeadSize(registry: seq<FlagDef>, raw: seq<string>): (n: nat)
    requires raw != []
    ensures 1 <= n <= 2 && n <= |raw|
  {
    if !LooksLikeFlag(raw[0]) then 1
    else match Find(registry, raw[0])
      case Some(def) => Skip(raw, ValueFor(def, raw))
      case None => Skip(raw, NextValue(raw))
  }

  function HeadArgs(registry: seq<FlagDef>, raw: seq<string>): seq<ClassifiedArg>
    requires raw != []
  {
    if !LooksLikeFlag(raw[0]) then [Positional(raw[0])]
    else match Find(registry, raw[0])
      case Some(def) => [MakeArg(def, ValueFor(def, raw))]
      case None =>
        [UnknownPassthrough(raw[0])] +
        match NextValue(raw) case Some(value) => [UnknownPassthrough(value)] case None => []
  }

  lemma ClassifiedHead(registry: seq<FlagDef>, raw: seq<string>)
    requires raw != []
    ensures Classified(registry, raw) ==
      HeadArgs(registry, raw) + Classified(registry, raw[HeadSize(registry, raw)..])
  {
  }

  function HeadWarnings(registry: seq<FlagDef>, raw: seq<string>): seq<string>
    requires raw != []
  {
    if !LooksLikeFlag(raw[0]) then []
    else match Find(registry, raw[0])
      case Some(def) => MissingValue(def, ValueFor(def, raw))
      case None => [raw[0] + ": unknown flag, forwarding to claude"]
  }

  lemma WarningsHead(registry: seq<FlagDef>, raw: seq<string>)
    requires raw != []
    ensures ClassifyWarnings(registry, raw) ==
      HeadWarnings(registry, raw) + ClassifyWarnings(registry, raw[HeadSize(registry, raw)..])
  {
    if !LooksLikeFlag(raw[0]) {
      assert [] + ClassifyWarnings(registry, raw[1..]) == ClassifyWarnings(registry, raw[1..]);
    }
  }

  lemma HeadTokens(registry: seq<FlagDef>, raw: seq<string>)
    requires raw != []
    ensures AllTokens(HeadArgs(registry, raw)) == AllCanonical(registry, raw[..HeadSize(registry, raw)])
  {
    hide Find;
    var head := HeadArgs(registry, raw);
    TokensOne(head[0]);
    if |head| == 2 {
      TokensOne(head[1]);
      TokensAppend([head[0]], [head[1]]);
      assert head == [head[0]] + [head[1]];
    } else {
      assert head == [head[0]];
    }
    var n := HeadSize(registry, raw);
    assert raw[..n] == if n == 1 then [raw[0]] else [raw[0], raw[1]];
  }

  /** Flattening the classified list gives the raw list with short flags in their long form. */
  lemma {:induction false} EveryTokenIsAccountedFor(registry: seq<FlagDef>, raw: seq<string>)
    ensures AllTokens(Classified(registry, raw)) == AllCanonical(registry, raw)
    decreases |raw|
  {
    hide HeadArgs, HeadSize, Classified, Canonical;
    if raw == [] {
      NoTokens(registry);
    } else {
      var n := HeadSize(registry, raw);
      ClassifiedHead(registry, raw);
      HeadTokens(registry, raw);
      EveryTokenIsAccountedFor(registry, raw[n..]);
      TokensAppend(HeadArgs(registry, raw), Classified(registry, raw[n..]));
      CanonicalSplit(registry, raw, n);
    }
  }

  lemma NoTokens(registry: seq<FlagDef>)
    ensures AllTokens(Classified(registry, [])) == AllCanonical(registry, [])
  {
  }

  // ---- Reclassification ----

  /** Long forms look like flags and lead back to their own definition. */
  ghost predicate LongFormsResolve(registry: seq<FlagDef>) {
    forall d :: d in registry ==> LooksLikeFlag(d.long) && Find(registry, d.long) == Some(d)
  }

  lemma CanonicalFacts(registry: seq<FlagDef>, token: string)
    requires LongFormsResolve(registry)
    ensures LooksLikeFlag(Canonical(registry, token)) == LooksLikeFlag(token)
    ensures LooksLikeFlag(token) ==> Find(registry, Canonical(registry, token)) == Find(registry, token)
    ensures !LooksLikeFlag(token) || Find(registry, token).None? ==> Canonical(registry, token) == token
  {
  }

  lemma CanonicalNext(registry: seq<FlagDef>, raw: seq<string>)
    requires LongFormsResolve(registry)
    ensures NextValue(AllCanonical(registry, raw)) == NextValue(raw)
  {
    hide Canonical, Find;
    if |raw| > 1 {
      CanonicalFacts(registry, raw[1]);
    }
  }

  lemma CanonicalSuffix(registry: seq<FlagDef>, raw: seq<string>, k: nat)
    requires k <= |raw|
    ensures AllCanonical(registry, raw)[k..] == AllCanonical(registry, raw[k..])
  {
  }

  /** Classifying the flattened list again gives the same arguments and the same warnings. */
  lemma {:induction false} ReclassificationIsStable(registry: seq<FlagDef>, raw: seq<string>)
    requires LongFormsResolve(registry)
    ensures Classified(registry, AllCanonical(registry, raw)) == Classified(registry, raw)
    ensures ClassifyWarnings(registry, AllCanonical(registry, raw)) == ClassifyWarnings(registry, raw)
    decreases |raw|
  {
    hide Canonical, Find, LongFormsResolve;
    if raw != [] {
      CanonicalFacts(registry, raw[0]);
      CanonicalNext(registry, raw);
      CanonicalSuffix(registry, raw, 1);
      ReclassificationIsStable(registry, raw[1..]);
      if |raw| > 1 {
        CanonicalSuffix(registry, raw, 2);
        ReclassificationIsStable(registry, raw[2..]);
      }
      assert AllCanonical(registry, raw)[0] == Canonical(registry, raw[0]);
    }
  }

  // ---- The standard registry ----

  /** No token is a spelling of two definitions, long or short, and all spellings look like flags. */
  ghost predicate Unambiguous(registry: seq<FlagDef>) {
    forall i, j, token: string :: 0 <= i < |registry| && 0 <= j < |registry| ==> Apart(registry, i, j, token)
  }

  predicate Apart(registry: seq<FlagDef>, i: nat, j: nat, token: string)
    requires i < |registry| && j < |registry|
  {
    Matches(registry[i], token) && Matches(registry[j], token) ==> i == j && LooksLikeFlag(token)
  }

  lemma {:induction false} FirstMatch(registry: seq<FlagDef>, arg: string, i: nat)
    requires i < |registry| && Matches(registry[i], arg)
    requires forall j :: 0 <= j < i ==> !Matches(registry[j], arg)
    ensures Find(registry, arg) == Some(registry[i])
  {
    if i > 0 {
      FirstMatch(registry[1..], arg, i - 1);
    }
  }

  /** In such a registry every spelling leads to its definition, whatever the order of the entries. */
  lemma SpellingResolves(registry: seq<FlagDef>, i: nat, token: string)
    requires Unambiguous(registry) && i < |registry| && Matches(registry[i], token)
    ensures LooksLikeFlag(token) && Find(registry, token) == Some(registry[i])
  {
    hide Matches, LooksLikeFlag;
    assert Apart(registry, i, i, token);
    forall j | 0 <= j < i ensures !Matches(registry[j], token) {
      assert Apart(registry, i, j, token);
    }
    FirstMatch(registry, token, i);
  }

  lemma UnambiguousResolves(registry: seq<FlagDef>)
    requires Unambiguous(registry)
    ensures LongFormsResolve(registry)
  {
    forall d | d in registry ensures LooksLikeFlag(d.long) && Find(registry, d.long) == Some(d) {
      var i :| 0 <= i < |registry| && registry[i] == d;
      SpellingResolves(registry, i, d.long);
    }
  }

  /** Length and sixth character tell the long forms apart, the letter the short ones. */
  datatype Signature = Signature(length: nat, sixth: char, letter: Option<char>)

  const SIGNATURES: seq<Signature> :=
    [Signature(9, 'k', Some('b')), Signature(12, 's', None), Signature(8, 'u', Some('r')),
     Signature(10, 't', Some('c')), Signature(7, 'e', Some('m')), Signature(9, 'b', Some('v')),
     Signature(7, 'n', Some('p')), Signature(15, 'p', None), Signature(30, 'g', None),
     Signature(15, 'm', None), Signature(6, 'p', Some('h')), Signature(9, 's', Some('V'))]

  ghost predicate Spelled(def: FlagDef, signature: Signature) {
    && |def.long| == signature.length >= 6
    && def.long[0] == '-' && def.long[5] == signature.sixth
    && def.short == match signature.letter case Some(letter) => Some(['-', letter]) case None => None
  }

  lemma FirstSpellings()
    ensures Spelled(BACKEND, SIGNATURES[0]) && Spelled(SESSION_ID, SIGNATURES[1])
    ensures Spelled(RESUME, SIGNATURES[2]) && Spelled(CONTINUE, SIGNATURES[3])
  {
  }

  lemma MiddleSpellings()
    ensures Spelled(MODEL, SIGNATURES[4]) && Spelled(VERBOSE, SIGNATURES[5])
    ensures Spelled(PRINT, SIGNATURES[6]) && Spelled(OUTPUT_FORMAT, SIGNATURES[7])
  {
  }

  lemma LastSpellings()
    ensures Spelled(SKIP_PERMISSIONS, SIGNATURES[8]) && Spelled(TEAMMATE_MODE, SIGNATURES[9])
    ensures Spelled(HELP, SIGNATURES[10]) && Spelled(VERSION, SIGNATURES[11])
  {
  }

  lemma StandardSpellings()
    ensures |FlagRegistry()| == |SIGNATURES| == 12
    ensures forall i :: 0 <= i < 12 ==> Spelled(FlagRegistry()[i], SIGNATURES[i])
  {
    hide Spelled;
    FirstSpellings();
    MiddleSpellings();
    LastSpellings();
  }

  lemma SignaturesDiffer(i: nat, j: nat)
    requires i < 12 && j < 12
    requires
      || (SIGNATURES[i].length == SIGNATURES[j].length && SIGNATURES[i].sixth == SIGNATURES[j].sixth)
      || (SIGNATURES[i].letter == SIGNATURES[j].letter && SIGNATURES[i].letter.Some?)
    ensures i == j
  {
  }

  lemma SpelledMatch(def: FlagDef, signature: Signature, def': FlagDef, signature': Signature, token: string)
    requires Spelled(def, signature) && Spelled(def', signature') && Matches(def, token) && Matches(def', token)
    ensures LooksLikeFlag(token)
    ensures
      || (signature.length == signature'.length && signature.sixth == signature'.sixth)
      || (signature.letter == signature'.letter && signature.letter.Some?)
  {
    if def.short == Some(token) {
      assert |token| == 2 && token[1] == signature.letter.value;
    }
    if def'.short == Some(token) {
      assert |token| == 2 && token[1] == signature'.letter.value;
    }
  }

  lemma StandardRegistryIsUnambiguous()
    ensures Unambiguous(FlagRegistry())
  {
    hide FlagRegistry, Spelled;
    StandardSpellings();
    var r := FlagRegistry();
    forall i, j, token: string | 0 <= i < |r| && 0 <= j < |r| ensures Apart(r, i, j, token) {
      if Matches(r[i], token) && Matches(r[j], token) {
        SpelledMatch(r[i], SIGNATURES[i], r[j], SIGNATURES[j], token);
        SignaturesDiffer(i, j);
      }
    }
  }
}
