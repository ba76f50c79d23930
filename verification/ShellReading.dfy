/** What `/bin/sh` makes of a resolved script.  The reader below is the quoting of sections 2.2.1
    to 2.2.3 of the Shell Command Language chapter of POSIX.1-2017; `Unmarked` is the quote
    removal of section 2.6.7.  It is written from the standard, not from the tokenizer. */
module ShellReading {
  import opened JsText
  import opened ShellTokenizer
  import opened ShellResolver

  datatype Context = Plain | PlainEscape | InSingle | InDouble | DoubleEscape

  /** `Active`: `$` or a backquote inside double quotes, which still starts an expansion. */
  datatype How = Unquoted | Quoted | Active

  /** `Mark` is an opening quote: it makes a field even of an empty string. */
  datatype Item = Mark | Char(c: char, how: How)

  datatype Reading = Reading(items: seq<Item>, context: Context)

  function Next(context: Context, c: char): Reading {
    match context
    case Plain =>
      if c == '\'' then Reading([Mark], InSingle)
      else if c == '"' then Reading([Mark], InDouble)
      else if c == '\\' then Reading([], PlainEscape)
      else Reading([Char(c, Unquoted)], Plain)
    case PlainEscape =>
      Reading(if c == '\n' then [] else [Char(c, Quoted)], Plain)
    case InSingle =>
      if c == '\'' then Reading([], Plain) else Reading([Char(c, Quoted)], InSingle)
    case InDouble =>
      if c == '"' then Reading([], Plain)
      else if c == '\\' then Reading([], DoubleEscape)
      else Reading([Char(c, if c == '$' || c == '`' then Active else Quoted)], InDouble)
    case DoubleEscape =>
      if c == '\n' then Reading([], InDouble)
      else if c == '$' || c == '`' || c == '"' || c == '\\' then Reading([Char(c, Quoted)], InDouble)
      else Reading([Char('\\', Quoted), Char(c, Quoted)], InDouble)
  }

  function Read(context: Context, text: string): Reading {
    if text == "" then Reading([], context)
    else
      var r := Read(context, text[..|text| - 1]);
      var n := Next(r.context, text[|text| - 1]);
      Reading(r.items + n.items, n.context)
  }

  function Unmarked(items: seq<Item>): seq<Item> {
    if items == [] then []
    else
      var last := items[|items| - 1];
      Unmarked(items[..|items| - 1]) + (if last == Mark then [] else [last])
  }

  /** The value, every character of it literal. */
  function Literally(value: string): seq<Item> {
    if value == "" then [] else Literally(value[..|value| - 1]) + [Char(value[|value| - 1], Quoted)]
  }

  // ---------------------------------------------------------------- reading and concatenation

  lemma ReadOneMore(context: Context, text: string, c: char)
    ensures var r := Read(context, text); var n := Next(r.context, c);
      Read(context, text + [c]) == Reading(r.items + n.items, n.context)
  {
    assert (text + [c])[..|text|] == text;
  }

  lemma {:induction false} ReadConcat(context: Context, a: string, b: string)
    ensures var r := Read(context, a); var s := Read(r.context, b);
      Read(context, a + b) == Reading(r.items + s.items, s.context)
  {
    if b == "" {
      assert a + b == a;
    } else {
      var front, c := b[..|b| - 1], b[|b| - 1];
      ReadConcat(context, a, front);
      assert a + b == (a + front) + [c];
      ReadOneMore(context, a + front, c);
      var r := Read(context, a);
      var s := Read(r.context, front);
      AssociateItems(r.items, s.items, Next(s.context, c).items);
    }
  }

  lemma AssociateItems(a: seq<Item>, b: seq<Item>, c: seq<Item>)
    ensures a + b + c == a + (b + c)
  {
  }

  lemma {:induction false} UnmarkedConcat(a: seq<Item>, b: seq<Item>)
    ensures Unmarked(a + b) == Unmarked(a) + Unmarked(b)
  {
    if b == [] {
      assert a + b == a;
    } else {
      var front := b[..|b| - 1];
      UnmarkedConcat(a, front);
      assert (a + b)[..|a + b| - 1] == a + front;
    }
  }

  lemma {:induction false} SpacesStayPlain(w: string)
    requires AllSpace(w)
    ensures Read(Plain, w).context == Plain
  {
    if w != "" {
      SpacesStayPlain(w[..|w| - 1]);
    }
  }

  // ---------------------------------------------------------------- a quoted value

  lemma ReadEscapedQuote()
    ensures Read(InSingle, EscapeQuote('\'')).context == InSingle
    ensures Unmarked(Read(InSingle, EscapeQuote('\'')).items) == [Char('\'', Quoted)]
  {
    assert ['\''] == "" + ['\''];
    ReadOneMore(InSingle, "", '\'');
    assert ['\'', '"'] == ['\''] + ['"'];
    ReadOneMore(InSingle, ['\''], '"');
    assert ['\'', '"', '\''] == ['\'', '"'] + ['\''];
    ReadOneMore(InSingle, ['\'', '"'], '\'');
    assert ['\'', '"', '\'', '"'] == ['\'', '"', '\''] + ['"'];
    ReadOneMore(InSingle, ['\'', '"', '\''], '"');
    assert EscapeQuote('\'') == ['\'', '"', '\'', '"'] + ['\''];
    ReadOneMore(InSingle, ['\'', '"', '\'', '"'], '\'');
    var items := Read(InSingle, EscapeQuote('\'')).items;
    assert items == [Mark, Char('\'', Quoted), Mark];
    assert items == [Mark] + [Char('\'', Quoted)] + [Mark];
    UnmarkedConcat([Mark] + [Char('\'', Quoted)], [Mark]);
    UnmarkedConcat([Mark], [Char('\'', Quoted)]);
  }

  lemma {:induction false} ReadEscapedValue(value: string)
    ensures Read(InSingle, EscapeQuotes(value)).context == InSingle
    ensures Unmarked(Read(InSingle, EscapeQuotes(value)).items) == Literally(value)
  {
    if value != "" {
      var front, c := value[..|value| - 1], value[|value| - 1];
      ReadEscapedValue(front);
      ReadConcat(InSingle, EscapeQuotes(front), EscapeQuote(c));
      UnmarkedConcat(Read(InSingle, EscapeQuotes(front)).items, Read(InSingle, EscapeQuote(c)).items);
      if c == '\'' {
        ReadEscapedQuote();
      } else {
        ReadOneMore(InSingle, "", c);
        assert "" + [c] == [c];
        UnmarkedConcat([], [Char(c, Quoted)]);
      }
    }
  }

  lemma ReadSingleQuoted(body: string)
    requires Read(InSingle, body).context == InSingle
    ensures Read(Plain, "'" + body + "'") == Reading([Mark] + Read(InSingle, body).items, Plain)
  {
    assert "'" == "" + ['\''];
    ReadOneMore(Plain, "", '\'');
    assert Read(Plain, "'") == Reading([Mark], InSingle);
    ReadConcat(Plain, "'", body);
    ReadOneMore(Plain, "'" + body, '\'');
    var items := [Mark] + Read(InSingle, body).items;
    assert items + [] == items;
  }

  /** From an unquoted position the shell reads a quoted value as that value, every character
      literal, in a field that exists even when the value is empty, and ends unquoted again. */
  lemma QuotedValueReads(value: string)
    ensures var r := Read(Plain, ShellQuote(value));
      && r.context == Plain
      && Unmarked(r.items) == Literally(value)
      && r.items != [] && r.items[0] == Mark
  {
    var body := EscapeQuotes(value);
    ReadEscapedValue(value);
    ReadSingleQuoted(body);
    var items := Read(InSingle, body).items;
    UnmarkedConcat([Mark], items);
    assert Unmarked([Mark]) == [];
    assert [] + Unmarked(items) == Unmarked(items);
  }

  // ---------------------------------------------------------------- where tokenizer and shell agree

  ghost predicate Agree(mode: Mode, context: Context) {
    match mode
    case Bare => context == Plain
    case Escaped => context == PlainEscape
    case Single => context == InSingle
    case Double(_) => context == InDouble || context == DoubleEscape
  }

  ghost predicate AgreeAt(text: string, i: nat)
    requires i <= |text|
  {
    Agree(At(text, i).part.mode, Read(Plain, text[..i]).context)
  }

  /** A double quote that closes a string for the shell although a backslash stands before it:
      that backslash was itself escaped. */
  ghost predicate ClosesAfterBackslash(text: string, i: nat)
    requires i < |text|
  {
    i > 0 && text[i] == '"' && text[i - 1] == '\\' && Read(Plain, text[..i]).context == InDouble
  }

  lemma ReadNext(text: string, i: nat)
    requires i < |text|
    ensures Read(Plain, text[..i + 1]).context == Next(Read(Plain, text[..i]).context, text[i]).context
  {
    assert text[..i + 1] == text[..i] + [text[i]];
    ReadOneMore(Plain, text[..i], text[i]);
  }

  /** What both scanners remember of the previous character. */
  lemma PreviousBackslash(text: string, i: nat)
    requires 0 < i <= |text|
    ensures At(text, i).part.mode.Double? ==> (At(text, i).part.mode.afterBackslash <==> text[i - 1] == '\\')
    ensures Read(Plain, text[..i]).context == DoubleEscape ==> text[i - 1] == '\\'
  {
    AtNext(text, i - 1);
    PreviousRead(text, i);
  }

  lemma PreviousRead(text: string, i: nat)
    requires 0 < i <= |text|
    ensures Read(Plain, text[..i]).context == DoubleEscape ==> text[i - 1] == '\\'
  {
    ReadNext(text, i - 1);
  }

  lemma AgreeNext(text: string, i: nat)
    requires i < |text| && AgreeAt(text, i)
    ensures AgreeAt(text, i + 1) <==> !ClosesAfterBackslash(text, i)
  {
    AtNext(text, i);
    ReadNext(text, i);
    if i > 0 {
      PreviousBackslash(text, i);
    } else {
      assert text[..0] == "";
    }
  }

  /** Tokenizer and shell agree, at every position, on what is quoted, exactly when no
      double-quoted string ends in an escaped backslash. */
  lemma AgreementIff(text: string)
    ensures (forall i :: 0 <= i <= |text| ==> AgreeAt(text, i)) <==>
            (forall i :: 0 <= i < |text| ==> !ClosesAfterBackslash(text, i))
  {
    if forall i :: 0 <= i <= |text| ==> AgreeAt(text, i) {
      forall i | 0 <= i < |text|
        ensures !ClosesAfterBackslash(text, i)
      {
        AgreeNext(text, i);
      }
    }
    if forall i :: 0 <= i < |text| ==> !ClosesAfterBackslash(text, i) {
      forall i | 0 <= i <= |text|
        ensures AgreeAt(text, i)
      {
        AgreeUpTo(text, i);
      }
    }
  }

  lemma {:induction false} AgreeUpTo(text: string, i: nat)
    requires i <= |text| && forall k :: 0 <= k < |text| ==> !ClosesAfterBackslash(text, k)
    ensures AgreeAt(text, i)
  {
    if i == 0 {
      assert text[..0] == "";
    } else {
      AgreeUpTo(text, i - 1);
      AgreeNext(text, i - 1);
    }
  }
}
