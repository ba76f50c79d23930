/** Whether the shell reads a resolved script as its template, with literal values in place of the
    placeholders (`packages/executors/src/shell-command.ts`). */
module ScriptMeaning {
  import opened JsText
  import opened Wrappers
  import opened ShellTokenizer
  import opened ShellResolver
  import opened ShellReading
  import opened TemplateKeys

  // ---------------------------------------------------------------- the meaning of a template

  function PlaceholderValue(key: string, bindings: Bindings, options: Options): string {
    if key == "prompt" then (if options.promptText.Some? then options.promptText.value else "")
    else if key in bindings && bindings[key].Some? then bindings[key].value
    else ""
  }

  predicate IsPlaceholder(t: Token) {
    HasPlaceholder(t) && PlaceholderKey(t).Some?
  }

  /** `a`, then `b`. */
  function Then(a: Reading, b: Reading): Reading {
    Reading(a.items + b.items, b.context)
  }

  /** What the shell reads, quotes removed. */
  function AsRead(context: Context, text: string): Reading {
    Reading(Unmarked(Read(context, text).items), Read(context, text).context)
  }

  /** A token as the shell reads it where it stands, a placeholder standing for its literal value. */
  function Means(context: Context, t: Token, bindings: Bindings, options: Options): Reading {
    var sep := AsRead(context, t.sep);
    if IsPlaceholder(t)
    then Then(sep, Reading(Literally(PlaceholderValue(PlaceholderKey(t).value, bindings, options)), sep.context))
    else Then(sep, AsRead(sep.context, t.raw))
  }

  function Meaning(ts: seq<Token>, bindings: Bindings, options: Options): Reading {
    if ts == [] then Reading([], Plain)
    else
      var front := Meaning(ts[..|ts| - 1], bindings, options);
      Then(front, Means(front.context, ts[|ts| - 1], bindings, options))
  }

  ghost predicate Resolves(ts: seq<Token>, bindings: Bindings, options: Options) {
    Substituted(ts, bindings, options).Ok? && !Substituted(ts, bindings, options).value.1
  }

  ghost function Script(ts: seq<Token>, bindings: Bindings, options: Options): string
    requires Resolves(ts, bindings, options)
  {
    Join(Substituted(ts, bindings, options).value.0)
  }

  /** The shell reads the script as the template is meant. */
  ghost predicate ReadsAsMeant(ts: seq<Token>, bindings: Bindings, options: Options)
    requires Resolves(ts, bindings, options)
  {
    AsRead(Plain, Script(ts, bindings, options)).items == Meaning(ts, bindings, options).items
  }

  /** Whatever the values are. */
  ghost predicate AlwaysReadsAsMeant(ts: seq<Token>) {
    forall bindings: Bindings, options: Options :: Resolves(ts, bindings, options) ==> ReadsAsMeant(ts, bindings, options)
  }

  /** The shell stands outside quotes where a token's raw text begins. */
  ghost predicate PlainAt(ts: seq<Token>, k: nat)
    requires k < |ts|
  {
    Read(Plain, Join(ts[..k]) + ts[k].sep).context == Plain
  }

  ghost predicate PlainIfPlaceholder(ts: seq<Token>, k: nat)
    requires k < |ts|
  {
    IsPlaceholder(ts[k]) ==> PlainAt(ts, k)
  }

  ghost predicate PlaceholdersPlain(ts: seq<Token>) {
    forall k :: 0 <= k < |ts| ==> PlainIfPlaceholder(ts, k)
  }

  // ---------------------------------------------------------------- one token

  lemma UnquotedConcat(context: Context, a: string, b: string)
    ensures AsRead(context, a + b) == Then(AsRead(context, a), AsRead(AsRead(context, a).context, b))
  {
    ReadConcat(context, a, b);
    UnmarkedConcat(Read(context, a).items, Read(Read(context, a).context, b).items);
  }

  lemma UnquotedThree(context: Context, a: string, b: string, c: string)
    ensures var r := AsRead(context, a); var s := AsRead(r.context, b);
      AsRead(context, a + b + c) == Then(r, Then(s, AsRead(s.context, c)))
  {
    UnquotedConcat(context, a, b);
    UnquotedConcat(context, a + b, c);
    var r := AsRead(context, a);
    var s := AsRead(r.context, b);
    AssociateItems(r.items, s.items, AsRead(s.context, c).items);
  }

  /** How the token that replaces `t` is read. */
  function ReadsAs(context: Context, t: Token, bindings: Bindings, options: Options): Reading {
    var sep := AsRead(context, t.sep);
    Then(sep, AsRead(sep.context,
      if IsPlaceholder(t) then ShellQuote(PlaceholderValue(PlaceholderKey(t).value, bindings, options)) else t.raw))
  }

  /** After white space the shell is not in the middle of an escape. */
  predicate Settled(context: Context) {
    context == Plain || context == InSingle || context == InDouble
  }

  lemma {:induction false} SpaceSettles(context: Context, sep: string)
    requires AllSpace(sep) && (sep != "" || Settled(context))
    ensures Settled(Read(context, sep).context)
  {
    if |sep| > 1 {
      SpaceSettles(context, sep[..|sep| - 1]);
    }
  }

  lemma PlainTokenReads(context: Context, t: Token, bindings: Bindings, options: Options)
    requires IsPlaceholder(t) ==> Read(context, t.sep).context == Plain
    ensures ReadsAs(context, t, bindings, options) == Means(context, t, bindings, options)
  {
    if IsPlaceholder(t) {
      QuotedValueReads(PlaceholderValue(PlaceholderKey(t).value, bindings, options));
    }
  }

  lemma LetterRun(context: Context)
    ensures var r := Next(context, '\''); var s := Next(r.context, 'a'); var q := Next(s.context, '\'');
      Read(context, ShellQuote("a")) == Reading(r.items + s.items + q.items, q.context)
  {
    assert "a" == "" + ['a'] && EscapeQuotes("") == "" && EscapeQuotes("a") == "a" by {
      assert "a"[..0] == "";
      assert "" + "a" == "a";
    }
    var q: string := "" + ['\''];
    assert ShellQuote("a") == q + ['a'] + ['\''];
    ReadOneMore(context, "", '\'');
    ReadOneMore(context, q, 'a');
    ReadOneMore(context, q + ['a'], '\'');
    assert [] + Next(context, '\'').items == Next(context, '\'').items;
  }

  lemma LetterInPlain()
    ensures AsRead(Plain, ShellQuote("a")) == Reading([Char('a', Quoted)], Plain)
  {
    QuotedValueReads("a");
    assert Literally("a") == [Char('a', Quoted)] by { assert "a"[..0] == ""; }
  }

  lemma LetterBetweenMarks()
    ensures Unmarked([Char('a', Unquoted), Mark]) == [Char('a', Unquoted)]
  {
    assert [Char('a', Unquoted), Mark][..1] == [Char('a', Unquoted)];
    assert [Char('a', Unquoted)][..0] == [];
  }

  lemma LetterInSingle()
    ensures AsRead(InSingle, ShellQuote("a")) == Reading([Char('a', Unquoted)], InSingle)
  {
    LetterRun(InSingle);
    assert Read(InSingle, ShellQuote("a")) == Reading([Char('a', Unquoted), Mark], InSingle);
    LetterBetweenMarks();
  }

  lemma LetterInDouble()
    ensures AsRead(InDouble, ShellQuote("a")).context == InDouble && |AsRead(InDouble, ShellQuote("a")).items| == 3
  {
    LetterRun(InDouble);
    var quote, letter := [Char('\'', Quoted)], [Char('a', Quoted)];
    UnmarkedConcat(quote + letter, quote);
    UnmarkedConcat(quote, letter);
    assert Unmarked(quote) == quote && Unmarked(letter) == letter;
  }

  /** The value `a`, quoted, is read as itself outside quotes only. */
  lemma LetterReads(context: Context)
    requires Settled(context)
    ensures var r := AsRead(context, ShellQuote("a"));
      r.context == context && |r.items| >= 1 && (r.items == [Char('a', Quoted)] <==> context == Plain)
  {
    LetterInPlain();
    LetterInSingle();
    LetterInDouble();
  }

  // ---------------------------------------------------------------- from tokens to scripts

  lemma ScriptNext(ts: seq<Token>, bindings: Bindings, options: Options)
    requires ts != [] && Resolves(ts, bindings, options)
    ensures Resolves(ts[..|ts| - 1], bindings, options)
    ensures var front := AsRead(Plain, Script(ts[..|ts| - 1], bindings, options));
      AsRead(Plain, Script(ts, bindings, options))
      == Then(front, ReadsAs(front.context, ts[|ts| - 1], bindings, options))
  {
    var t := ts[|ts| - 1];
    var kept := Substituted(ts[..|ts| - 1], bindings, options).value.0;
    var e := Emitted(t, bindings, options).token;
    SubstitutedPointwise(ts, bindings, options);
    assert Replaces(t, e, bindings, options);
    JoinAppend(kept, e);
    UnquotedThree(Plain, Join(kept), e.sep, e.raw);
  }

  /** By the meaning, the shell stands outside quotes wherever a placeholder stands. */
  ghost predicate MeantPlain(ts: seq<Token>, bindings: Bindings, options: Options) {
    ts != [] ==>
      var front, t := ts[..|ts| - 1], ts[|ts| - 1];
      && MeantPlain(front, bindings, options)
      && (IsPlaceholder(t) ==> Read(Meaning(front, bindings, options).context, t.sep).context == Plain)
  }

  lemma {:induction false} PlainScriptReads(ts: seq<Token>, bindings: Bindings, options: Options)
    requires Resolves(ts, bindings, options) && MeantPlain(ts, bindings, options)
    ensures AsRead(Plain, Script(ts, bindings, options)) == Meaning(ts, bindings, options)
  {
    if ts != [] {
      ScriptNext(ts, bindings, options);
      PlainScriptReads(ts[..|ts| - 1], bindings, options);
      PlainTokenReads(Meaning(ts[..|ts| - 1], bindings, options).context, ts[|ts| - 1], bindings, options);
    }
  }

  /** All values are `a`. */
  ghost predicate AllLetters(ts: seq<Token>, bindings: Bindings, options: Options) {
    forall k :: 0 <= k < |ts| && IsPlaceholder(ts[k]) ==>
      PlaceholderValue(PlaceholderKey(ts[k]).value, bindings, options) == "a"
  }

  lemma LetterTokenReads(context: Context, t: Token, bindings: Bindings, options: Options)
    requires AllSpace(t.sep) && (t.sep != "" || Settled(context))
    requires IsPlaceholder(t) ==> PlaceholderValue(PlaceholderKey(t).value, bindings, options) == "a"
    ensures var r, m := ReadsAs(context, t, bindings, options), Means(context, t, bindings, options);
      && r.context == m.context && |r.items| >= |m.items|
      && (r.items == m.items ==> (IsPlaceholder(t) ==> Read(context, t.sep).context == Plain))
  {
    if IsPlaceholder(t) {
      SpaceSettles(context, t.sep);
      var sep := AsRead(context, t.sep);
      LetterReads(sep.context);
      assert Literally("a") == [Char('a', Quoted)] by { assert "a"[..0] == ""; }
      if ReadsAs(context, t, bindings, options).items == Means(context, t, bindings, options).items {
        SameEnds(sep.items, AsRead(sep.context, ShellQuote("a")).items, [Char('a', Quoted)]);
      }
    }
  }

  lemma SameEnds(a: seq<Item>, b: seq<Item>, c: seq<Item>)
    requires a + b == a + c
    ensures b == c
  {
    assert b == (a + b)[|a|..] && c == (a + c)[|a|..];
  }

  lemma SameHalves(a: seq<Item>, b: seq<Item>, c: seq<Item>, d: seq<Item>)
    requires a + b == c + d && |a| >= |c| && |b| >= |d|
    ensures a == c && b == d
  {
    assert a == (a + b)[..|a|] && c == (c + d)[..|c|];
    assert b == (a + b)[|a|..] && d == (c + d)[|c|..];
  }

  lemma {:induction false} LetterScriptReads(ts: seq<Token>, bindings: Bindings, options: Options)
    requires Resolves(ts, bindings, options) && AllLetters(ts, bindings, options)
    requires forall k :: 0 <= k < |ts| ==> WellSeparated(ts[k], k == 0)
    ensures var r, m := AsRead(Plain, Script(ts, bindings, options)), Meaning(ts, bindings, options);
      && r.context == m.context && |r.items| >= |m.items|
      && (r.items == m.items ==> MeantPlain(ts, bindings, options))
  {
    if ts != [] {
      var front, t := ts[..|ts| - 1], ts[|ts| - 1];
      assert forall k :: 0 <= k < |front| ==> front[k] == ts[k];
      assert WellSeparated(t, |ts| == 1);
      ScriptNext(ts, bindings, options);
      LetterScriptReads(front, bindings, options);
      var r, m := AsRead(Plain, Script(front, bindings, options)), Meaning(front, bindings, options);
      LetterTokenReads(r.context, t, bindings, options);
      if AsRead(Plain, Script(ts, bindings, options)).items == Meaning(ts, bindings, options).items {
        SameHalves(r.items, ReadsAs(r.context, t, bindings, options).items,
                   m.items, Means(m.context, t, bindings, options).items);
      }
    }
  }

  // ---------------------------------------------------------------- where placeholders stand

  /** As long as nothing is quoted, tokenizer and shell are in step. */
  lemma {:induction false} BareInStep(raw: string)
    requires var s := Run(START, raw); s.tokens == [] && s.sep == "" && NothingQuoted(s.part)
    ensures var mode := Run(START, raw).part.mode;
      (mode.Bare? || mode.Escaped?) && Agree(mode, Read(Plain, raw).context)
  {
    if raw != "" {
      var front, c := raw[..|raw| - 1], raw[|raw| - 1];
      var part := Run(START, front).part;
      if !NothingQuoted(part) {
        StaysQuoted(part, c);
      } else {
        BareInStep(front);
      }
    }
  }

  /** The text of a placeholder leaves the shell outside quotes. */
  lemma PlaceholderTextPlain(t: Token)
    requires Genuine(t, false) && PlaceholderKey(t).Some?
    ensures Read(Plain, t.raw).context == Plain
  {
    SingleBareSegment(Run(START, t.raw).part, t.segments[0].text);
    BareInStep(t.raw);
  }

  lemma ContextAfter(text: string, sep: string, raw: string)
    ensures Read(Plain, text + sep).context == Read(Read(Plain, text).context, sep).context
    ensures Read(Plain, text + sep + raw).context == Read(Read(Plain, text + sep).context, raw).context
  {
    ReadConcat(Plain, text, sep);
    ReadConcat(Plain, text + sep, raw);
  }

  lemma SameContextStep(front: seq<Token>, t: Token, bindings: Bindings, options: Options)
    requires Meaning(front, bindings, options).context == Read(Plain, Join(front)).context
    requires IsPlaceholder(t) ==>
      Read(Meaning(front, bindings, options).context, t.sep).context == Plain && Read(Plain, t.raw).context == Plain
    ensures Meaning(front + [t], bindings, options).context == Read(Plain, Join(front + [t])).context
  {
    assert (front + [t])[..|front|] == front;
    JoinAppend(front, t);
    ContextAfter(Join(front), t.sep, t.raw);
  }

  lemma SameInFront(ts: seq<Token>, k: nat)
    requires k < |ts| - 1
    ensures PlainIfPlaceholder(ts[..|ts| - 1], k) <==> PlainIfPlaceholder(ts, k)
  {
    assert ts[..|ts| - 1][..k] == ts[..k];
  }

  lemma PlaceholdersPlainFront(ts: seq<Token>)
    requires ts != []
    ensures PlaceholdersPlain(ts) <==> PlaceholdersPlain(ts[..|ts| - 1]) && PlainIfPlaceholder(ts, |ts| - 1)
  {
    var front := ts[..|ts| - 1];
    forall k | 0 <= k < |front|
      ensures PlainIfPlaceholder(front, k) <==> PlainIfPlaceholder(ts, k)
    {
      SameInFront(ts, k);
    }
    if PlaceholdersPlain(front) && PlainIfPlaceholder(ts, |ts| - 1) {
      forall k | 0 <= k < |ts|
        ensures PlainIfPlaceholder(ts, k)
      {
        assert k < |front| ==> PlainIfPlaceholder(front, k);
      }
    }
    if PlaceholdersPlain(ts) {
      forall k | 0 <= k < |front|
        ensures PlainIfPlaceholder(front, k)
      {
        assert PlainIfPlaceholder(ts, k);
      }
    }
  }

  lemma PlainStep(ts: seq<Token>, bindings: Bindings, options: Options)
    requires ts != []
    requires var front := ts[..|ts| - 1];
      && (MeantPlain(front, bindings, options) <==> PlaceholdersPlain(front))
      && (MeantPlain(front, bindings, options) ==>
            Meaning(front, bindings, options).context == Read(Plain, Join(front)).context)
    ensures MeantPlain(ts, bindings, options) <==> PlaceholdersPlain(ts)
  {
    var front, t := ts[..|ts| - 1], ts[|ts| - 1];
    PlaceholdersPlainFront(ts);
    ContextAfter(Join(front), t.sep, t.raw);
  }

  ghost predicate InStep(ts: seq<Token>, bindings: Bindings, options: Options) {
    MeantPlain(ts, bindings, options) ==> Meaning(ts, bindings, options).context == Read(Plain, Join(ts)).context
  }

  lemma InStepNext(ts: seq<Token>, bindings: Bindings, options: Options)
    requires ts != [] && WellFormed(ts, false) && InStep(ts[..|ts| - 1], bindings, options)
    ensures InStep(ts, bindings, options)
  {
    var front, t := ts[..|ts| - 1], ts[|ts| - 1];
    assert ts == front + [t];
    if MeantPlain(ts, bindings, options) {
      ClosedStep(front, t, bindings, options);
    }
  }

  /** The meaning and the template's own text agree on whether all placeholders stand outside quotes,
      and, as long as they do, on where the shell stands afterwards. */
  lemma {:induction false} PlainIff(ts: seq<Token>, bindings: Bindings, options: Options)
    requires WellFormed(ts, true)
    ensures MeantPlain(ts, bindings, options) <==> PlaceholdersPlain(ts)
    ensures WellFormed(ts, false) ==> InStep(ts, bindings, options)
  {
    if ts != [] {
      WellFormedFront(ts);
      WellFormedWeaken(ts[..|ts| - 1], true);
      PlainIff(ts[..|ts| - 1], bindings, options);
      PlainStep(ts, bindings, options);
      if WellFormed(ts, false) {
        InStepNext(ts, bindings, options);
      }
    }
  }

  lemma ClosedStep(front: seq<Token>, t: Token, bindings: Bindings, options: Options)
    requires WellFormed(front + [t], false) && MeantPlain(front + [t], bindings, options)
    requires Meaning(front, bindings, options).context == Read(Plain, Join(front)).context
    ensures Meaning(front + [t], bindings, options).context == Read(Plain, Join(front + [t])).context
  {
    assert (front + [t])[..|front|] == front;
    if IsPlaceholder(t) {
      assert Genuine((front + [t])[|front|], false && |front| == |front + [t]| - 1);
      PlaceholderTextPlain(t);
    }
    SameContextStep(front, t, bindings, options);
  }

  // ---------------------------------------------------------------- the theorem

  lemma {:induction false} NothingStripped(ts: seq<Token>, bindings: Bindings, options: Options)
    requires !options.stripPrompt && Substituted(ts, bindings, options).Ok?
    ensures Resolves(ts, bindings, options)
  {
    if ts != [] {
      NothingStripped(ts[..|ts| - 1], bindings, options);
    }
  }

  /** The same keys, all bound to `a`. */
  function Letters(bindings: Bindings): Bindings {
    map key | key in bindings :: Some("a")
  }

  const LETTER_PROMPT := Options(false, Some("a"))

  lemma LettersResolve(ts: seq<Token>, bindings: Bindings, options: Options)
    requires Resolves(ts, bindings, options)
    ensures Resolves(ts, Letters(bindings), LETTER_PROMPT) && AllLetters(ts, Letters(bindings), LETTER_PROMPT)
  {
    SubstitutedOkIff(ts, bindings, options);
    SubstitutedOkIff(ts, Letters(bindings), LETTER_PROMPT);
    NothingStripped(ts, Letters(bindings), LETTER_PROMPT);
  }

  /** The shell reads the script as the template with literal values in place of the placeholders,
      whatever the values are, if and only if the template leaves the shell outside quotes wherever
      a placeholder stands. */
  lemma ScriptMeansTemplateIff(template: string, bindings: Bindings, options: Options)
    requires Resolves(Tokenize(template), bindings, options)
    ensures AlwaysReadsAsMeant(Tokenize(template)) <==> PlaceholdersPlain(Tokenize(template))
  {
    var ts := Tokenize(template);
    var tail := JoinTokenize(template);
    if AlwaysReadsAsMeant(ts) {
      LettersDecide(ts, bindings, options);
    }
    if PlaceholdersPlain(ts) {
      forall b: Bindings, o: Options | Resolves(ts, b, o)
        ensures ReadsAsMeant(ts, b, o)
      {
        PlainIff(ts, b, o);
        PlainScriptReads(ts, b, o);
      }
    }
  }

  lemma LettersDecide(ts: seq<Token>, bindings: Bindings, options: Options)
    requires WellFormed(ts, true) && Resolves(ts, bindings, options) && AlwaysReadsAsMeant(ts)
    ensures PlaceholdersPlain(ts)
  {
    LettersResolve(ts, bindings, options);
    assert ReadsAsMeant(ts, Letters(bindings), LETTER_PROMPT);
    forall k | 0 <= k < |ts|
      ensures WellSeparated(ts[k], k == 0)
    {
    }
    LetterScriptReads(ts, Letters(bindings), LETTER_PROMPT);
    PlainIff(ts, Letters(bindings), LETTER_PROMPT);
  }

  // ---------------------------------------------------------------- a simple sufficient condition

  /** The shell stands outside quotes before token `k` (and the white space in front of it). */
  ghost predicate PlainBefore(ts: seq<Token>, k: nat)
    requires k <= |ts|
  {
    Read(Plain, Join(ts[..k])).context == Plain
  }

  lemma {:induction false} JoinPrefix(ts: seq<Token>, k: nat)
    requires k <= |ts|
    ensures Join(ts[..k]) <= Join(ts)
  {
    if k == |ts| {
      assert ts[..k] == ts;
    } else {
      assert ts[..|ts| - 1][..k] == ts[..k];
      JoinPrefix(ts[..|ts| - 1], k);
    }
  }

  lemma WellFormedPrefix(ts: seq<Token>, k: nat)
    requires k <= |ts| && WellFormed(ts, true)
    ensures WellFormed(ts[..k], true)
  {
    var front := ts[..k];
    forall m | 0 <= m < k
      ensures Genuine(front[m], true && m == k - 1) && WellSeparated(front[m], m == 0)
    {
      assert Genuine(ts[m], true && m == |ts| - 1) && WellSeparated(ts[m], m == 0);
    }
  }

  lemma AgreementGivesPlainBefore(ts: seq<Token>, tail: string, k: nat)
    requires WellFormed(ts, true) && k < |ts|
    requires var template := Join(ts) + tail;
      forall i :: 0 <= i < |template| ==> !ClosesAfterBackslash(template, i)
    ensures PlainBefore(ts, k)
  {
    if k == 0 {
      assert Join(ts[..0]) == "";
    } else {
      var template, text := Join(ts) + tail, Join(ts[..k]);
      JoinPrefix(ts, k);
      assert template[..|text|] == text;
      WellFormedPrefix(ts, k + 1);
      assert ts[..k + 1][..k] == ts[..k];
      JoinEndsBare(ts[..k + 1]);
      AgreeUpTo(template, |text|);
    }
  }

  /** It is enough that no double-quoted string of the template ends in an escaped backslash. */
  lemma AgreementSuffices(template: string)
    requires forall i :: 0 <= i < |template| ==> !ClosesAfterBackslash(template, i)
    ensures PlaceholdersPlain(Tokenize(template))
  {
    var tail := JoinTokenize(template);
    var ts := Tokenize(template);
    forall k | 0 <= k < |ts|
      ensures PlainIfPlaceholder(ts, k)
    {
      AgreementGivesPlainBefore(ts, tail, k);
      assert WellSeparated(ts[k], k == 0);
      SpacesStayPlain(ts[k].sep);
      ContextAfter(Join(ts[..k]), ts[k].sep, "");
    }
  }

  // ---------------------------------------------------------------- a template that is misread

  /** A double-quoted string that ends in an escaped backslash, then the start of another one:
      the tokenizer takes all six characters for a single string. */
  const ODD_STRING: string := ['"', '\\', '\\', '"', ' ', '"']
  const ODD_TEMPLATE: seq<Token> := [
    Token("", ODD_STRING, [Segment(true, ['\\', '\\', '"', ' '])]),
    BracedToken(" ", "x")]

  lemma OddStringTokenizes()
    ensures Genuine(ODD_TEMPLATE[0], false)
  {
    RunFirstChar('"');
    var a: string := ['"'];
    RunOneMore(START, a, '\\');
    RunOneMore(START, a + ['\\'], '\\');
    RunOneMore(START, a + ['\\'] + ['\\'], '"');
    RunOneMore(START, a + ['\\'] + ['\\'] + ['"'], ' ');
    RunOneMore(START, a + ['\\'] + ['\\'] + ['"'] + [' '], '"');
    assert ODD_STRING == a + ['\\'] + ['\\'] + ['"'] + [' '] + ['"'];
    assert Run(START, ODD_STRING).part.current == "" + ['\\'] + ['\\'] + ['"'] + [' '] == ['\\', '\\', '"', ' '];
  }

  lemma OddStringReads()
    ensures Read(Plain, ODD_STRING).context == InDouble
  {
    var a: string := "" + ['"'];
    ReadOneMore(Plain, "", '"');
    ReadOneMore(Plain, a, '\\');
    ReadOneMore(Plain, a + ['\\'], '\\');
    ReadOneMore(Plain, a + ['\\'] + ['\\'], '"');
    ReadOneMore(Plain, a + ['\\'] + ['\\'] + ['"'], ' ');
    ReadOneMore(Plain, a + ['\\'] + ['\\'] + ['"'] + [' '], '"');
    assert ODD_STRING == a + ['\\'] + ['\\'] + ['"'] + [' '] + ['"'];
  }

  lemma OddTemplateResolves(bindings: Bindings, options: Options)
    requires "x" in bindings && bindings["x"].Some?
    ensures PlaceholderKey(ODD_TEMPLATE[1]) == Some("x") && HasPlaceholder(ODD_TEMPLATE[1])
    ensures Substituted(ODD_TEMPLATE, bindings, options).Ok?
  {
    BracedTokenKey(" ", "x");
    assert !HasPlaceholder(ODD_TEMPLATE[0]);
    assert GrammarError(ODD_TEMPLATE[1]).None?;
    SubstitutedOkIff(ODD_TEMPLATE, bindings, options);
  }

  lemma OddTemplateReads()
    ensures Read(Plain, Join(ODD_TEMPLATE[..1]) + ODD_TEMPLATE[1].sep).context == InDouble
  {
    OddStringReads();
    JoinAppend([], ODD_TEMPLATE[0]);
    assert ODD_TEMPLATE[..1] == [] + [ODD_TEMPLATE[0]];
    assert Join(ODD_TEMPLATE[..1]) == ODD_STRING;
    ReadOneMore(Plain, ODD_STRING, ' ');
  }

  lemma OddWellFormed()
    ensures WellFormed(ODD_TEMPLATE, true)
  {
    OddStringTokenizes();
    BracedIsGenuine(" ", "x");
    PairWellFormed(ODD_TEMPLATE[0], ODD_TEMPLATE[1]);
  }

  lemma OddTokens()
    ensures Tokenize(Join(ODD_TEMPLATE)) == ODD_TEMPLATE
  {
    OddWellFormed();
    TokenizeJoin(ODD_TEMPLATE);
  }

  lemma OddNotPlain(bindings: Bindings, options: Options)
    requires "x" in bindings && bindings["x"].Some?
    ensures !PlaceholdersPlain(ODD_TEMPLATE)
  {
    OddTemplateResolves(bindings, options);
    OddTemplateReads();
    assert !PlainIfPlaceholder(ODD_TEMPLATE, 1);
  }

  /** A template that resolves, although the shell is inside a double-quoted string where the value
      goes. */
  lemma ValueInsideQuotes(bindings: Bindings, options: Options)
    requires "x" in bindings && bindings["x"].Some?
    ensures var ts := Tokenize(Join(ODD_TEMPLATE)); Substituted(ts, bindings, options).Ok? && !PlaceholdersPlain(ts)
  {
    OddTokens();
    OddTemplateResolves(bindings, options);
    OddNotPlain(bindings, options);
  }
}
