/** Turning a handler command template into a `/bin/sh -e -c` script
    (`packages/executors/src/shell-command.ts`). */
module ShellResolver {
  import opened JsText
  import opened Selections
  import opened Wrappers
  import opened ShellTokenizer

  datatype BindingError = ValueMissing | UnknownPlaceholder | PlaceholderQuoted | PlaceholderEmbedded

  datatype Options = Options(stripPrompt: bool, promptText: Option<string>)

  datatype Resolved = Resolved(script: string, promptPlaceholderStripped: bool)

  /** A value may be present yet `null`. */
  type Bindings = map<string, Option<string>>

  // ---------------------------------------------------------------- placeholders

  /** A character of `[\w.-]`. */
  predicate KeyChar(c: char) {
    'a' <= c <= 'z' || 'A' <= c <= 'Z' || '0' <= c <= '9' || c == '_' || c == '.' || c == '-'
  }

  /** `text[i..j]` is `{{key}}`. */
  predicate PlaceholderAt(text: string, i: nat, j: nat) {
    && i + 5 <= j <= |text|
    && text[i] == '{' && text[i + 1] == '{' && text[j - 2] == '}' && text[j - 1] == '}'
    && forall k :: i + 2 <= k < j - 2 ==> KeyChar(text[k])
  }

  predicate ContainsPlaceholder(text: string) {
    exists i: nat, j: nat | i < j <= |text| :: PlaceholderAt(text, i, j)
  }

  function ExactKey(text: string): Option<string> {
    if PlaceholderAt(text, 0, |text|) then Some(text[2..|text| - 2]) else None
  }

  predicate HasPlaceholder(t: Token) {
    exists k: nat | k < |t.segments| :: ContainsPlaceholder(t.segments[k].text)
  }

  /** The one accepted form: a single bare segment that is exactly `{{key}}`. */
  function PlaceholderKey(t: Token): Option<string> {
    if |t.segments| == 1 && !t.segments[0].quoted then ExactKey(t.segments[0].text) else None
  }

  /** Why a token breaks the grammar, if it does. */
  function GrammarError(t: Token): Option<BindingError> {
    if !HasPlaceholder(t) || PlaceholderKey(t).Some? then None
    else if |t.segments| == 1 && t.segments[0].quoted then Some(PlaceholderQuoted)
    else Some(PlaceholderEmbedded)
  }

  ghost predicate FirstGrammarError(ts: seq<Token>, k: nat, error: Option<BindingError>) {
    && k < |ts| && GrammarError(ts[k]) == error
    && forall m :: 0 <= m < k ==> GrammarError(ts[m]).None?
  }

  method AssertHandlerTemplateGrammar(template: string) returns (error: Option<BindingError>)
    ensures error.None? <==> forall k :: 0 <= k < |Tokenize(template)| ==> GrammarError(Tokenize(template)[k]).None?
    ensures error.Some? ==> exists k :: FirstGrammarError(Tokenize(template), k, error)
  {
    var tokens := TokenizeShellCommand(template);
    var n := 0;
    while n < |tokens|
      invariant 0 <= n <= |tokens|
      invariant forall k :: 0 <= k < n ==> GrammarError(tokens[k]).None?
    {
      var token := tokens[n];
      n := n + 1;
      if !HasPlaceholder(token) {
        continue;
      }
      if |token.segments| == 1 && !token.segments[0].quoted {
        if ExactKey(token.segments[0].text).Some? {
          continue;
        }
      }
      if |token.segments| == 1 && token.segments[0].quoted {
        assert FirstGrammarError(tokens, n - 1, Some(PlaceholderQuoted));
        return Some(PlaceholderQuoted);
      }
      assert FirstGrammarError(tokens, n - 1, Some(PlaceholderEmbedded));
      return Some(PlaceholderEmbedded);
    }
    return None;
  }

  // ---------------------------------------------------------------- quoting and substitution

  function EscapeQuote(c: char): string {
    if c == '\'' then ['\'', '"', '\'', '"', '\''] else [c]
  }

  function EscapeQuotes(value: string): string {
    if value == "" then "" else EscapeQuotes(value[..|value| - 1]) + EscapeQuote(value[|value| - 1])
  }

  function ShellQuote(value: string): string {
    "'" + EscapeQuotes(value) + "'"
  }

  datatype Emission = Emit(token: Token) | Strip | Fail(error: BindingError)

  function QuotedToken(sep: string, value: string): Token {
    Token(sep, ShellQuote(value), [Segment(true, value)])
  }

  function SubstitutePlaceholder(sep: string, key: string, bindings: Bindings, options: Options): Emission {
    if key == "prompt" then
      if options.stripPrompt then Strip
      else QuotedEmission(sep, match options.promptText case Some(text) => text case None => "")
    else if key !in bindings then Fail(UnknownPlaceholder)
    else match bindings[key]
      case None => Fail(ValueMissing)
      case Some(value) => QuotedEmission(sep, value)
  }

  function QuotedEmission(sep: string, value: string): Emission {
    Emit(QuotedToken(sep, value))
  }

  function Emitted(t: Token, bindings: Bindings, options: Options): Emission {
    if !HasPlaceholder(t) then Emit(t)
    else match PlaceholderKey(t)
      case Some(key) => SubstitutePlaceholder(t.sep, key, bindings, options)
      case None => Fail(if |t.segments| == 1 && t.segments[0].quoted then PlaceholderQuoted else PlaceholderEmbedded)
  }

  /** The tokens of the script, or the first failure; and whether a prompt was stripped. */
  function Substituted(ts: seq<Token>, bindings: Bindings, options: Options): Result<(seq<Token>, bool), BindingError> {
    if ts == [] then Ok(([], false))
    else match Substituted(ts[..|ts| - 1], bindings, options)
      case Err(e) => Err(e)
      case Ok((front, stripped)) =>
        match Emitted(ts[|ts| - 1], bindings, options)
        case Fail(e) => Err(e)
        case Strip => Ok((front, true))
        case Emit(t) => Ok((front + [t], stripped))
  }

  function Concat(parts: seq<string>): string {
    if parts == [] then "" else Concat(parts[..|parts| - 1]) + parts[|parts| - 1]
  }

  lemma ConcatTwo(parts: seq<string>, a: string, b: string)
    ensures Concat(parts + [a, b]) == Concat(parts) + a + b
  {
    assert (parts + [a, b])[..|parts| + 1] == parts + [a];
    assert (parts + [a])[..|parts|] == parts;
  }

  lemma SubstitutedNext(ts: seq<Token>, n: nat, bindings: Bindings, options: Options)
    requires n < |ts| && Substituted(ts[..n], bindings, options).Ok?
    ensures var (front, stripped) := Substituted(ts[..n], bindings, options).value;
      Substituted(ts[..n + 1], bindings, options) ==
        match Emitted(ts[n], bindings, options)
        case Fail(e) => Err(e)
        case Strip => Ok((front, true))
        case Emit(t) => Ok((front + [t], stripped))
  {
    assert ts[..n + 1][..n] == ts[..n];
  }

  // ---------------------------------------------------------------- the answer, by the tokens themselves

  /** The token is nothing but `{{key}}`, outside quotes. */
  ghost predicate PlaceholderFor(t: Token, key: string) {
    && |t.segments| == 1 && !t.segments[0].quoted && t.segments[0].text == "{{" + key + "}}"
    && IsKey(key)
  }

  /** By their codes: letters, digits, the underscore, the dot and the hyphen. */
  predicate InKey(c: char) {
    || 65 <= c as int < 65 + 26 || 97 <= c as int < 97 + 26 || 48 <= c as int < 48 + 10
    || c as int == 95 || c as int == 46 || c as int == 45
  }

  predicate IsKey(key: string) {
    key != "" && forall k :: 0 <= k < |key| ==> InKey(key[k])
  }

  lemma InKeyIff(c: char)
    ensures InKey(c) <==> KeyChar(c)
  {
  }

  lemma IsKeyIff(key: string)
    ensures IsKey(key) <==> key != "" && forall k :: 0 <= k < |key| ==> KeyChar(key[k])
  {
    forall k | 0 <= k < |key|
      ensures InKey(key[k]) <==> KeyChar(key[k])
    {
      InKeyIff(key[k]);
    }
  }

  /** A placeholder stands somewhere in the text. */
  ghost predicate HoldsPlaceholder(text: string) {
    exists before, key, behind :: PutTogether(text, before, key, behind)
  }

  predicate PutTogether(text: string, before: string, key: string, behind: string) {
    IsKey(key) && text == before + ("{{" + key + "}}") + behind
  }

  ghost predicate Mentions(t: Token) {
    exists k :: 0 <= k < |t.segments| && HoldsPlaceholder(t.segments[k].text)
  }

  /** What is wrong with a token. */
  ghost predicate Offends(t: Token, bindings: Bindings, error: BindingError) {
    match error
    case PlaceholderQuoted => Mentions(t) && |t.segments| == 1 && t.segments[0].quoted
    case PlaceholderEmbedded =>
      && Mentions(t) && !(|t.segments| == 1 && t.segments[0].quoted)
      && forall key :: !PlaceholderFor(t, key)
    case UnknownPlaceholder => exists key :: PlaceholderFor(t, key) && key != "prompt" && key !in bindings
    case ValueMissing => exists key :: PlaceholderFor(t, key) && key != "prompt" && key in bindings && bindings[key].None?
  }

  ghost predicate Faultless(t: Token, bindings: Bindings) {
    forall error :: !Offends(t, bindings, error)
  }

  /** The first token that offends, and how. */
  ghost predicate FirstOffence(ts: seq<Token>, k: nat, bindings: Bindings, error: BindingError) {
    && k < |ts| && Offends(ts[k], bindings, error)
    && forall m :: 0 <= m < k ==> Faultless(ts[m], bindings)
  }

  /** `out` is what the script has for `t`: the value in quotes for a placeholder, and otherwise `t`. */
  ghost predicate StandsFor(t: Token, out: Token, bindings: Bindings, options: Options) {
    && (!Mentions(t) ==> out == t)
    && forall key :: PlaceholderFor(t, key) ==>
         if key == "prompt" then out == QuotedToken(t.sep, if options.promptText.Some? then options.promptText.value else "")
         else key in bindings && bindings[key].Some? && out == QuotedToken(t.sep, bindings[key].value)
  }

  /** The positions of the tokens that stay: all but the prompts, if these are to be stripped. */
  ghost predicate Stays(ts: seq<Token>, at: seq<nat>, options: Options) {
    && Rising(at) && (forall j :: 0 <= j < |at| ==> at[j] < |ts|)
    && forall k: nat :: k < |ts| ==> (k in at <==> !(options.stripPrompt && PlaceholderFor(ts[k], "prompt")))
  }

  ghost predicate StandIn(ts: seq<Token>, at: seq<nat>, kept: seq<Token>, bindings: Bindings, options: Options) {
    && |kept| == |at| && (forall j :: 0 <= j < |at| ==> at[j] < |ts|)
    && forall j :: 0 <= j < |at| ==> StandsFor(ts[at[j]], kept[j], bindings, options)
  }

  ghost predicate StripsPrompt(ts: seq<Token>, options: Options) {
    options.stripPrompt && exists k :: 0 <= k < |ts| && PlaceholderFor(ts[k], "prompt")
  }

  /** The answer for a template's tokens.  A failure names the first offence.  Otherwise the script
      consists of what stands for each token but the stripped prompts, in order. */
  ghost predicate Answers(ts: seq<Token>, bindings: Bindings, options: Options, r: Result<(seq<Token>, bool), BindingError>) {
    match r
    case Err(error) => exists k :: FirstOffence(ts, k, bindings, error)
    case Ok((kept, stripped)) =>
      && (forall k :: 0 <= k < |ts| ==> Faultless(ts[k], bindings))
      && (stripped <==> StripsPrompt(ts, options))
      && exists at :: Stays(ts, at, options) && StandIn(ts, at, kept, bindings, options)
  }

  lemma PlaceholderHolds(text: string, i: nat, j: nat)
    requires PlaceholderAt(text, i, j)
    ensures HoldsPlaceholder(text)
  {
    var key := text[i + 2..j - 2];
    IsKeyIff(key);
    Braces(text, i, j);
    ThreeParts(text, i, j);
    assert PutTogether(text, text[..i], key, text[j..]);
  }

  lemma ThreeParts(text: string, i: nat, j: nat)
    requires i <= j <= |text|
    ensures text == text[..i] + text[i..j] + text[j..]
  {
  }

  lemma Braces(text: string, i: nat, j: nat)
    requires PlaceholderAt(text, i, j)
    ensures text[i..j] == "{{" + text[i + 2..j - 2] + "}}"
  {
  }

  lemma HoldsPlaceholderIff(text: string)
    ensures HoldsPlaceholder(text) <==> ContainsPlaceholder(text)
  {
    if HoldsPlaceholder(text) {
      var before, key, behind :| PutTogether(text, before, key, behind);
      IsKeyIff(key);
      HoldsAt(before, key, behind);
    }
    if ContainsPlaceholder(text) {
      var i: nat, j: nat :| i < j <= |text| && PlaceholderAt(text, i, j);
      PlaceholderHolds(text, i, j);
    }
  }

  lemma HoldsAt(before: string, key: string, behind: string)
    requires key != "" && forall k :: 0 <= k < |key| ==> KeyChar(key[k])
    ensures var text := before + ("{{" + key + "}}") + behind;
      PlaceholderAt(text, |before|, |before| + |key| + 4) && ContainsPlaceholder(text)
  {
    var braced := "{{" + key + "}}";
    var text, i := before + braced + behind, |before|;
    assert forall k :: 0 <= k < |braced| ==> text[i + k] == braced[k];
    forall k | i + 2 <= k < i + |key| + 2
      ensures KeyChar(text[k])
    {
      assert text[k] == braced[k - i] == key[k - i - 2];
    }
    assert text[i] == braced[0] && text[i + 1] == braced[1];
    assert text[i + |key| + 2] == braced[|key| + 2] && text[i + |key| + 3] == braced[|key| + 3];
  }

  lemma MentionsIff(t: Token)
    ensures Mentions(t) <==> HasPlaceholder(t)
  {
    forall k | 0 <= k < |t.segments|
      ensures HoldsPlaceholder(t.segments[k].text) <==> ContainsPlaceholder(t.segments[k].text)
    {
      HoldsPlaceholderIff(t.segments[k].text);
    }
  }

  /** The grammar check finds fault with a token exactly where a placeholder is quoted or embedded. */
  lemma GrammarErrorIff(t: Token, bindings: Bindings)
    ensures match GrammarError(t)
      case Some(error) => error in {PlaceholderQuoted, PlaceholderEmbedded} && Offends(t, bindings, error)
      case None => !Offends(t, bindings, PlaceholderQuoted) && !Offends(t, bindings, PlaceholderEmbedded)
  {
    MentionsIff(t);
    PlaceholderKeyOnly(t);
    assert PlaceholderKey(t).Some? ==> PlaceholderFor(t, PlaceholderKey(t).value);
  }

  lemma PlaceholderForIff(t: Token, key: string)
    ensures PlaceholderFor(t, key) <==> PlaceholderKey(t) == Some(key)
    ensures PlaceholderFor(t, key) ==> HasPlaceholder(t)
  {
    IsKeyIff(key);
    if PlaceholderKey(t) == Some(key) {
      var text := t.segments[0].text;
      assert text == "{{" + key + "}}";
      assert forall k :: 0 <= k < |key| ==> key[k] == text[k + 2];
    }
    if PlaceholderFor(t, key) {
      var text := t.segments[0].text;
      assert text[2..|text| - 2] == key;
      assert forall k :: 2 <= k < |text| - 2 ==> text[k] == key[k - 2];
      assert PlaceholderAt(text, 0, |text|) && ContainsPlaceholder(t.segments[0].text);
    }
  }

  lemma PlaceholderKeyOnly(t: Token)
    ensures PlaceholderKey(t).None? ==> forall key :: !PlaceholderFor(t, key)
    ensures PlaceholderKey(t).Some? ==>
      HasPlaceholder(t) && forall key :: PlaceholderFor(t, key) <==> key == PlaceholderKey(t).value
  {
    forall key
      ensures PlaceholderFor(t, key) <==> PlaceholderKey(t) == Some(key)
    {
      PlaceholderForIff(t, key);
    }
    if PlaceholderKey(t).Some? {
      PlaceholderForIff(t, PlaceholderKey(t).value);
    }
  }

  lemma EmittedAnswers(t: Token, bindings: Bindings, options: Options)
    ensures match Emitted(t, bindings, options)
      case Fail(error) => Offends(t, bindings, error)
      case Strip => Faultless(t, bindings) && options.stripPrompt && PlaceholderFor(t, "prompt")
      case Emit(out) =>
        && Faultless(t, bindings) && !(options.stripPrompt && PlaceholderFor(t, "prompt"))
        && StandsFor(t, out, bindings, options)
  {
    PlaceholderKeyOnly(t);
    MentionsIff(t);
    if !Emitted(t, bindings, options).Fail? {
      EmittedIsFaultless(t, bindings, options);
    }
  }

  lemma EmittedIsFaultless(t: Token, bindings: Bindings, options: Options)
    requires !Emitted(t, bindings, options).Fail?
    ensures Faultless(t, bindings)
  {
    PlaceholderKeyOnly(t);
    MentionsIff(t);
    forall error
      ensures !Offends(t, bindings, error)
    {
      match error
      case PlaceholderQuoted =>
      case PlaceholderEmbedded => assert PlaceholderKey(t).Some? ==> PlaceholderFor(t, PlaceholderKey(t).value);
      case UnknownPlaceholder =>
      case ValueMissing =>
    }
  }

  lemma StaysFront(ts: seq<Token>, t: Token, at: seq<nat>, kept: seq<Token>, bindings: Bindings, options: Options)
    requires Stays(ts, at, options) && StandIn(ts, at, kept, bindings, options)
    requires options.stripPrompt && PlaceholderFor(t, "prompt")
    ensures Stays(ts + [t], at, options) && StandIn(ts + [t], at, kept, bindings, options)
  {
    var all := ts + [t];
    assert forall k :: 0 <= k < |ts| ==> all[k] == ts[k];
  }

  lemma StaysMore(ts: seq<Token>, t: Token, at: seq<nat>, kept: seq<Token>, out: Token, bindings: Bindings, options: Options)
    requires Stays(ts, at, options) && StandIn(ts, at, kept, bindings, options)
    requires !(options.stripPrompt && PlaceholderFor(t, "prompt")) && StandsFor(t, out, bindings, options)
    ensures Stays(ts + [t], at + [|ts|], options) && StandIn(ts + [t], at + [|ts|], kept + [out], bindings, options)
  {
    var all, at', kept' := ts + [t], at + [|ts|], kept + [out];
    assert forall k :: 0 <= k < |ts| ==> all[k] == ts[k];
    forall k: nat | k < |all|
      ensures k in at' <==> !(options.stripPrompt && PlaceholderFor(all[k], "prompt"))
    {
      if k < |ts| {
        assert k in at' <==> k in at;
      } else {
        assert at'[|at|] == k;
      }
    }
    forall j | 0 <= j < |at'|
      ensures StandsFor(all[at'[j]], kept'[j], bindings, options)
    {
      assert j < |at| ==> at'[j] == at[j] && kept'[j] == kept[j];
    }
  }

  lemma OffenceStays(ts: seq<Token>, t: Token, bindings: Bindings, error: BindingError, k: nat)
    requires FirstOffence(ts, k, bindings, error)
    ensures FirstOffence(ts + [t], k, bindings, error)
  {
    assert forall m :: 0 <= m < |ts| ==> (ts + [t])[m] == ts[m];
  }

  lemma StripsOneMore(ts: seq<Token>, t: Token, options: Options)
    ensures StripsPrompt(ts + [t], options)
      <==> StripsPrompt(ts, options) || (options.stripPrompt && PlaceholderFor(t, "prompt"))
  {
    var all := ts + [t];
    assert all[|ts|] == t && forall k :: 0 <= k < |ts| ==> all[k] == ts[k];
  }

  lemma AnswersOneMore(all: seq<Token>, ts: seq<Token>, t: Token, bindings: Bindings, options: Options)
    requires all == ts + [t] && all[..|ts|] == ts
    requires Answers(ts, bindings, options, Substituted(ts, bindings, options))
    ensures Answers(all, bindings, options, Substituted(all, bindings, options))
  {
    EmittedAnswers(t, bindings, options);
    match Substituted(ts, bindings, options)
    case Err(error) =>
      var k :| FirstOffence(ts, k, bindings, error);
      OffenceStays(ts, t, bindings, error, k);
    case Ok((kept, _)) =>
      var at :| Stays(ts, at, options) && StandIn(ts, at, kept, bindings, options);
      StripsOneMore(ts, t, options);
      match Emitted(t, bindings, options)
      case Fail(error) => assert FirstOffence(all, |ts|, bindings, error);
      case Strip => StaysFront(ts, t, at, kept, bindings, options);
      case Emit(out) => StaysMore(ts, t, at, kept, out, bindings, options);
  }

  lemma FrontAndLast(ts: seq<Token>)
    requires ts != []
    ensures ts == ts[..|ts| - 1] + [ts[|ts| - 1]]
  {
  }

  lemma NothingAnswers(bindings: Bindings, options: Options)
    ensures Answers([], bindings, options, Ok(([], false)))
  {
    assert Stays([], [], options) && StandIn([], [], [], bindings, options);
  }

  /** Every template, every bindings, every options. */
  lemma {:induction false} SubstitutedAnswers(ts: seq<Token>, bindings: Bindings, options: Options)
    ensures Answers(ts, bindings, options, Substituted(ts, bindings, options))
  {
    if ts == [] {
      NothingAnswers(bindings, options);
    } else {
      SubstitutedAnswers(ts[..|ts| - 1], bindings, options);
      FrontAndLast(ts);
      AnswersOneMore(ts, ts[..|ts| - 1], ts[|ts| - 1], bindings, options);
    }
  }

  // ---------------------------------------------------------------- the resolver

  /** The script of an answer: trimmed when a prompt was stripped. */
  function Scripted(answer: Result<(seq<Token>, bool), BindingError>): Result<Resolved, BindingError> {
    match answer
    case Err(e) => Err(e)
    case Ok((kept, stripped)) => Ok(Resolved(if stripped then Trim(Join(kept)) else Join(kept), stripped))
  }

  /** The result is the script of the answer. */
  ghost predicate Resolution(ts: seq<Token>, bindings: Bindings, options: Options, r: Result<Resolved, BindingError>) {
    exists answer :: Answers(ts, bindings, options, answer) && r == Scripted(answer)
  }

  lemma SubstitutedResolution(ts: seq<Token>, bindings: Bindings, options: Options)
    ensures Resolution(ts, bindings, options, Scripted(Substituted(ts, bindings, options)))
  {
    SubstitutedAnswers(ts, bindings, options);
  }

  method ResolveSafeShellCommand(command: string, bindings: Bindings, options: Options)
    returns (r: Result<Resolved, BindingError>)
    ensures r == Scripted(Substituted(Tokenize(command), bindings, options))
    ensures Resolution(Tokenize(command), bindings, options, r)
  {
    SubstitutedResolution(Tokenize(command), bindings, options);
    var tokens := TokenizeShellCommand(command);
    var stripped := false;
    var parts: seq<string> := [];
    var n := 0;
    ghost var emitted: seq<Token> := [];
    while n < |tokens|
      invariant 0 <= n <= |tokens|
      invariant Substituted(tokens[..n], bindings, options) == Ok((emitted, stripped))
      invariant Concat(parts) == Join(emitted)
    {
      var token := tokens[n];
      SubstitutedNext(tokens, n, bindings, options);
      var emission := Emitted(token, bindings, options);
      n := n + 1;
      match emission {
        case Fail(e) =>
          SubstitutedFails(tokens, n, bindings, options);
          return Err(e);
        case Strip =>
          stripped := true;
        case Emit(t) =>
          ConcatTwo(parts, t.sep, t.raw);
          parts := parts + [t.sep, t.raw];
          JoinAppend(emitted, t);
          emitted := emitted + [t];
      }
    }
    assert tokens[..n] == tokens;
    r := Ok(Resolved(if stripped then Trim(Concat(parts)) else Concat(parts), stripped));
  }

  lemma {:induction false} SubstitutedFails(ts: seq<Token>, n: nat, bindings: Bindings, options: Options)
    requires n <= |ts| && Substituted(ts[..n], bindings, options).Err?
    ensures Substituted(ts, bindings, options) == Substituted(ts[..n], bindings, options)
    decreases |ts|
  {
    if n == |ts| {
      assert ts[..n] == ts;
    } else {
      assert ts[..|ts| - 1][..n] == ts[..n];
      SubstitutedFails(ts[..|ts| - 1], n, bindings, options);
    }
  }

  // ---------------------------------------------------------------- when resolution succeeds

  predicate Bound(key: string, bindings: Bindings) {
    key == "prompt" || (key in bindings && bindings[key].Some?)
  }

  /** Resolution succeeds exactly when the grammar check accepts the template and every
      placeholder token is the prompt or bound to a value. */
  lemma ResolvesIff(template: string, bindings: Bindings, options: Options)
    ensures Substituted(Tokenize(template), bindings, options).Ok? <==>
      forall k :: 0 <= k < |Tokenize(template)| ==>
        var t := Tokenize(template)[k];
        GrammarError(t).None? && (HasPlaceholder(t) ==> Bound(PlaceholderKey(t).value, bindings))
  {
    SubstitutedOkIff(Tokenize(template), bindings, options);
  }

  lemma {:induction false} SubstitutedOkIff(ts: seq<Token>, bindings: Bindings, options: Options)
    ensures Substituted(ts, bindings, options).Ok? <==>
      forall k :: 0 <= k < |ts| ==>
        GrammarError(ts[k]).None? && (HasPlaceholder(ts[k]) ==> Bound(PlaceholderKey(ts[k]).value, bindings))
  {
    if ts != [] {
      var front, t := ts[..|ts| - 1], ts[|ts| - 1];
      SubstitutedOkIff(front, bindings, options);
      assert forall k :: 0 <= k < |front| ==> front[k] == ts[k];
      assert !Emitted(t, bindings, options).Fail? <==>
        GrammarError(t).None? && (HasPlaceholder(t) ==> Bound(PlaceholderKey(t).value, bindings));
    }
  }

  // ---------------------------------------------------------------- what the script tokenizes to

  /** The scanner stands inside the single quotes of a quoted value, `value` read so far. */
  ghost predicate InQuotes(s: Scan, value: string) {
    && s.tokens == [] && s.sep == ""
    && s.part.segments == [] && s.part.current == value && s.part.currentQuoted && s.part.mode == Single
  }

  lemma OpeningQuote()
    ensures InQuotes(Run(START, "'"), "")
  {
    RunFirstChar('\'');
    assert ['\''] == "'";
  }

  /** Leaving the single quotes, reading a double-quoted `'`, and entering them again. */
  lemma EscapedQuote(s: Scan, value: string)
    requires InQuotes(s, value)
    ensures InQuotes(s.Read('\'').Read('"').Read('\'').Read('"').Read('\''), value + "'")
  {
  }

  lemma RunFive(s: Scan, a: char, b: char, c: char, d: char, e: char)
    ensures Run(s, [a, b, c, d, e]) == s.Read(a).Read(b).Read(c).Read(d).Read(e)
  {
    assert [a] == "" + [a] && [a, b] == [a] + [b] && [a, b, c] == [a, b] + [c];
    assert [a, b, c, d] == [a, b, c] + [d] && [a, b, c, d, e] == [a, b, c, d] + [e];
    RunOneMore(s, "", a);
    RunOneMore(s, [a], b);
    RunOneMore(s, [a, b], c);
    RunOneMore(s, [a, b, c], d);
    RunOneMore(s, [a, b, c, d], e);
  }

  lemma RunInQuotes(value: string, q: string, c: char)
    requires InQuotes(Run(START, q), value)
    ensures InQuotes(Run(START, q + EscapeQuote(c)), value + [c])
  {
    var s := Run(START, q);
    if c == '\'' {
      RunConcat(START, q, EscapeQuote(c));
      RunFive(s, '\'', '"', '\'', '"', '\'');
      EscapedQuote(s, value);
    } else {
      RunOneMore(START, q, c);
    }
  }

  /** A quoted value short of its closing quote. */
  function Opened(value: string): string {
    "'" + EscapeQuotes(value)
  }

  lemma OpenedNext(value: string)
    requires value != ""
    ensures Opened(value) == Opened(value[..|value| - 1]) + EscapeQuote(value[|value| - 1])
  {
  }

  lemma OpenedRuns(value: string, c: char)
    requires InQuotes(Run(START, Opened(value)), value)
    ensures InQuotes(Run(START, Opened(value + [c])), value + [c])
  {
    RunInQuotes(value, Opened(value), c);
    OpenedNext(value + [c]);
    assert (value + [c])[..|value|] == value;
  }

  lemma {:induction false} EscapedValueRuns(value: string)
    ensures InQuotes(Run(START, Opened(value)), value)
  {
    if value == "" {
      assert Opened(value) == "'";
      OpeningQuote();
    } else {
      var front, c := value[..|value| - 1], value[|value| - 1];
      EscapedValueRuns(front);
      OpenedRuns(front, c);
      assert value == front + [c];
    }
  }

  /** A quoted value is one closed token with one quoted segment: the value, whatever it is. */
  lemma QuotedTokenGenuine(sep: string, value: string)
    ensures Genuine(QuotedToken(sep, value), false)
  {
    EscapedValueRuns(value);
    RunOneMore(START, Opened(value), '\'');
  }

  lemma EmittedGenuine(t: Token, bindings: Bindings, options: Options, mayBeOpen: bool)
    requires Genuine(t, mayBeOpen) && Emitted(t, bindings, options).Emit?
    ensures Genuine(Emitted(t, bindings, options).token, mayBeOpen)
    ensures Emitted(t, bindings, options).token.sep == t.sep
  {
    var e := Emitted(t, bindings, options).token;
    if HasPlaceholder(t) {
      QuotedTokenGenuine(t.sep, e.segments[0].text);
    }
  }

  lemma {:induction false} SubstitutedWellFormed(ts: seq<Token>, bindings: Bindings, options: Options, mayBeOpen: bool)
    requires WellFormed(ts, mayBeOpen) && Substituted(ts, bindings, options).Ok?
    ensures WellFormed(Substituted(ts, bindings, options).value.0, mayBeOpen)
  {
    if ts != [] {
      var n := |ts| - 1;
      var front, t := ts[..n], ts[n];
      assert Genuine(t, mayBeOpen) && WellSeparated(t, n == 0);
      forall k | 0 <= k < n
        ensures Genuine(front[k], false) && WellSeparated(front[k], k == 0)
      {
        assert Genuine(ts[k], mayBeOpen && k == n) && WellSeparated(ts[k], k == 0);
      }
      SubstitutedWellFormed(front, bindings, options, false);
      var kept := Substituted(front, bindings, options).value.0;
      if Emitted(t, bindings, options).Emit? {
        EmittedGenuine(t, bindings, options, mayBeOpen);
        WellFormedAppend(kept, Emitted(t, bindings, options).token, mayBeOpen);
      } else {
        WellFormedWeaken(kept, mayBeOpen);
      }
    }
  }

  lemma WellFormedWeaken(ts: seq<Token>, mayBeOpen: bool)
    requires WellFormed(ts, false)
    ensures WellFormed(ts, mayBeOpen)
  {
    forall k | 0 <= k < |ts|
      ensures Genuine(ts[k], mayBeOpen && k == |ts| - 1) && WellSeparated(ts[k], k == 0)
    {
      assert Genuine(ts[k], false && k == |ts| - 1) && WellSeparated(ts[k], k == 0);
    }
  }

  /** `out` is `t` with its placeholder, if it is one, replaced by one quoted segment. */
  ghost predicate Replaces(t: Token, out: Token, bindings: Bindings, options: Options) {
    && out.sep == t.sep
    && (!HasPlaceholder(t) ==> out == t)
    && (HasPlaceholder(t) ==>
          && PlaceholderKey(t).Some?
          && var key := PlaceholderKey(t).value;
             out == QuotedToken(t.sep,
               if key == "prompt" then (if options.promptText.Some? then options.promptText.value else "")
               else if key in bindings && bindings[key].Some? then bindings[key].value else ""))
  }

  lemma {:induction false} SubstitutedPointwise(ts: seq<Token>, bindings: Bindings, options: Options)
    requires Substituted(ts, bindings, options).Ok? && !Substituted(ts, bindings, options).value.1
    ensures var out := Substituted(ts, bindings, options).value.0;
      |out| == |ts| && forall k :: 0 <= k < |ts| ==> Replaces(ts[k], out[k], bindings, options)
  {
    if ts != [] {
      SubstitutedPointwise(ts[..|ts| - 1], bindings, options);
      assert Replaces(ts[|ts| - 1], Emitted(ts[|ts| - 1], bindings, options).token, bindings, options);
    }
  }

  /** Without prompt stripping, tokenizing the script gives the template's tokens back, with the
      same separators; each placeholder has become exactly one quoted segment holding the value,
      and every other token is untouched. */
  lemma ScriptTokens(template: string, bindings: Bindings, options: Options)
    requires Substituted(Tokenize(template), bindings, options).Ok?
    requires !Substituted(Tokenize(template), bindings, options).value.1
    ensures var ts := Tokenize(template);
      var out := Tokenize(Join(Substituted(ts, bindings, options).value.0));
      |out| == |ts| && forall k :: 0 <= k < |ts| ==> Replaces(ts[k], out[k], bindings, options)
  {
    var tail := JoinTokenize(template);
    var ts := Tokenize(template);
    SubstitutedWellFormed(ts, bindings, options, true);
    TokenizeJoin(Substituted(ts, bindings, options).value.0);
    SubstitutedPointwise(ts, bindings, options);
  }

  /** A template without placeholders resolves to itself, up to the tail no token owns. */
  lemma PlainTemplate(template: string, bindings: Bindings, options: Options) returns (tail: string)
    requires forall k :: 0 <= k < |Tokenize(template)| ==> !HasPlaceholder(Tokenize(template)[k])
    ensures Substituted(Tokenize(template), bindings, options) == Ok((Tokenize(template), false))
    ensures template == Join(Tokenize(template)) + tail && DroppedTail(tail, Tokenize(template))
  {
    tail := JoinTokenize(template);
    SubstitutedPlain(Tokenize(template), bindings, options);
  }

  lemma {:induction false} SubstitutedPlain(ts: seq<Token>, bindings: Bindings, options: Options)
    requires forall k :: 0 <= k < |ts| ==> !HasPlaceholder(ts[k])
    ensures Substituted(ts, bindings, options) == Ok((ts, false))
  {
    if ts != [] {
      var front := ts[..|ts| - 1];
      assert forall k :: 0 <= k < |front| ==> front[k] == ts[k];
      SubstitutedPlain(front, bindings, options);
      assert ts == front + [ts[|ts| - 1]];
    }
  }

  // ---------------------------------------------------------------- a stripped prompt

  lemma {:induction false} GenuineStartsSolid(raw: string)
    requires Run(START, raw).tokens == [] && Run(START, raw).sep == "" && raw != ""
    ensures !IsSpace(raw[0])
  {
    if |raw| == 1 {
      assert raw[..0] == "" && Run(START, "") == START;
    } else {
      GenuineStartsSolid(raw[..|raw| - 1]);
    }
  }

  function WithoutLeadingSep(ts: seq<Token>): seq<Token>
    requires ts != []
  {
    [ts[0].(sep := "")] + ts[1..]
  }

  lemma Associate(a: string, b: string, c: string)
    ensures a + b + c == a + (b + c)
  {
  }

  lemma JoinLeadingSep(ts: seq<Token>)
    requires ts != []
    ensures Join(ts) == ts[0].sep + Join(WithoutLeadingSep(ts))
  {
    var t, rest := ts[0], ts[1..];
    JoinPrepend(t, rest);
    JoinPrepend(t.(sep := ""), rest);
    assert ts == [t] + rest;
    Associate(t.sep, t.raw, Join(rest));
    assert "" + t.raw == t.raw;
  }

  lemma WithoutLeadingSepWellFormed(ts: seq<Token>)
    requires ts != [] && WellFormed(ts, true)
    ensures WellFormed(WithoutLeadingSep(ts), true)
  {
    var out := WithoutLeadingSep(ts);
    forall k | 0 <= k < |out|
      ensures Genuine(out[k], true && k == |out| - 1) && WellSeparated(out[k], k == 0)
    {
      assert Genuine(ts[k], true && k == |ts| - 1) && WellSeparated(ts[k], k == 0);
    }
  }

  lemma GenuineIsSolid(t: Token)
    requires Genuine(t, true)
    ensures t.raw != "" && !IsSpace(t.raw[0])
  {
    if t.raw != "" {
      GenuineStartsSolid(t.raw);
    }
  }

  lemma WithoutLeadingSepEdges(ts: seq<Token>)
    requires ts != [] && WellFormed(ts, true)
    ensures var text := Join(WithoutLeadingSep(ts)); var raw := ts[|ts| - 1].raw;
      text != "" && !IsSpace(text[0]) && (EndsInSpace(text) <==> EndsInSpace(raw))
  {
    var out, n := WithoutLeadingSep(ts), |ts| - 1;
    assert Genuine(ts[0], true && 0 == n) && Genuine(ts[n], true && n == n);
    GenuineIsSolid(ts[0]);
    GenuineIsSolid(ts[n]);
    JoinStartsWithFirst(out);
    assert out[n].raw == ts[n].raw && Join(out) == Join(out[..n]) + out[n].sep + out[n].raw;
  }

  lemma {:induction false} JoinStartsWithFirst(ts: seq<Token>)
    requires ts != []
    ensures ts[0].sep + ts[0].raw <= Join(ts)
  {
    if |ts| > 1 {
      JoinStartsWithFirst(ts[..|ts| - 1]);
    }
  }

  /** With a stripped prompt the script is trimmed.  It still tokenizes to the kept tokens, the
      first one without its separator, exactly when the last kept token does not itself end in
      white space (an escaped or unclosed one may). */
  lemma StrippedScriptTokens(template: string, bindings: Bindings, options: Options)
    requires Substituted(Tokenize(template), bindings, options).Ok?
    ensures var kept := Substituted(Tokenize(template), bindings, options).value.0;
      var script := Trim(Join(kept));
      if kept == [] then script == ""
      else Tokenize(script) == WithoutLeadingSep(kept) <==> !EndsInSpace(kept[|kept| - 1].raw)
  {
    var tail := JoinTokenize(template);
    SubstitutedWellFormed(Tokenize(template), bindings, options, true);
    var kept := Substituted(Tokenize(template), bindings, options).value.0;
    if kept != [] {
      TrimmedJoin(kept);
    }
  }

  lemma TrimmedJoin(kept: seq<Token>)
    requires kept != [] && WellFormed(kept, true)
    ensures Tokenize(Trim(Join(kept))) == WithoutLeadingSep(kept) <==> !EndsInSpace(kept[|kept| - 1].raw)
  {
    WithoutLeadingSepWellFormed(kept);
    WithoutLeadingSepEdges(kept);
    var text := Join(WithoutLeadingSep(kept));
    JoinLeadingSep(kept);
    assert WellSeparated(kept[0], true);
    TrimStartOfPadded(kept[0].sep, text);
    var w := TrimEndSplit(text);
    if w == "" {
      TokenizeJoin(WithoutLeadingSep(kept));
    } else if Tokenize(TrimEnd(text)) == WithoutLeadingSep(kept) {
      var tail := JoinTokenize(TrimEnd(text));
      assert false;
    }
  }
}
