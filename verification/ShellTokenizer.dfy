/** The quote-aware tokenizer of `packages/executors/src/shell-command.ts`.

    `TokenizeShellCommand` is the loop of the source.  It is proved equal to `Tokenize`, a fold of
    a one-character step, and `Tokenize` is characterised without the loop: on well-formed token
    lists it is the inverse of `Join`, and every command is `Join` of its tokens plus a tail. */
module ShellTokenizer {
  import opened JsText

  datatype Segment = Segment(quoted: bool, text: string)

  datatype Token = Token(sep: string, raw: string, segments: seq<Segment>)

  /** Where the scanner stands. `Double(true)`: the previous character was a backslash. */
  datatype Mode = Bare | Escaped | Single | Double(afterBackslash: bool)

  /** The token being read. */
  datatype Partial = Partial(segments: seq<Segment>, current: string, currentQuoted: bool, raw: string, mode: Mode)
  {
    predicate Started() {
      segments != [] || current != "" || currentQuoted
    }

    function FlushBare(): Partial {
      if current != "" && !currentQuoted
      then this.(segments := segments + [Segment(false, current)], current := "")
      else this
    }

    function FlushQuoted(): Partial {
      if currentQuoted
      then this.(segments := segments + [Segment(true, current)], current := "", currentQuoted := false)
      else this
    }

    function Segments(): seq<Segment> {
      FlushBare().FlushQuoted().segments
    }

    function Read(c: char): Partial {
      match mode
      case Single =>
        if c == '\'' then this.(raw := raw + [c], mode := Bare)
        else this.(current := current + [c], raw := raw + [c])
      case Double(afterBackslash) =>
        if c == '"' && !afterBackslash then this.(raw := raw + [c], mode := Bare)
        else this.(current := current + [c], raw := raw + [c], mode := Double(c == '\\'))
      case Escaped =>
        this.(current := current + [c], raw := raw + [c], mode := Bare)
      case Bare =>
        if c == '\'' || c == '"' then
          FlushBare().(currentQuoted := true, raw := raw + [c], mode := if c == '\'' then Single else Double(false))
        else if c == '\\' then
          FlushQuoted().(raw := raw + [c], mode := Escaped)
        else
          var p := FlushQuoted();
          p.(current := p.current + [c], raw := raw + [c])
    }
  }

  const NO_TOKEN := Partial([], "", false, "", Bare)

  datatype Scan = Scan(tokens: seq<Token>, sep: string, part: Partial)
  {
    predicate AtSeparator(c: char) {
      part.mode == Bare && IsSpace(c)
    }

    function Read(c: char): Scan {
      if AtSeparator(c) then
        if part.Started()
        then Scan(Finish(), [c], NO_TOKEN)
        else this.(sep := sep + [c])
      else
        this.(part := part.Read(c))
    }

    /** The tokens once the token being read, if any, is pushed. */
    function Finish(): seq<Token> {
      if part.Started() then tokens + [Token(sep, part.raw, part.Segments())] else tokens
    }
  }

  const START := Scan([], "", NO_TOKEN)

  function Run(s: Scan, text: string): Scan {
    if text == "" then s
    else Run(s, text[..|text| - 1]).Read(text[|text| - 1])
  }

  function Tokenize(command: string): seq<Token> {
    Run(START, command).Finish()
  }

  lemma RunOneMore(s: Scan, text: string, c: char)
    ensures Run(s, text + [c]) == Run(s, text).Read(c)
  {
    assert (text + [c])[..|text|] == text;
  }

  lemma RunFirstChar(c: char)
    requires !IsSpace(c)
    ensures Run(START, [c]) == START.(part := NO_TOKEN.Read(c))
  {
    assert [c][..0] == "";
  }

  /** The scan of the first `i` characters of a command. */
  ghost function At(command: string, i: nat): Scan
    requires i <= |command|
  {
    Run(START, command[..i])
  }

  lemma AtNext(command: string, i: nat)
    requires i < |command|
    ensures At(command, i + 1) == At(command, i).Read(command[i])
  {
    assert command[..i + 1] == command[..i] + [command[i]];
    RunOneMore(START, command[..i], command[i]);
  }

  function ModeOf(inSingle: bool, inDouble: bool, afterBackslash: bool): Mode {
    if inSingle then Single else if inDouble then Double(afterBackslash) else Bare
  }

  /** The source's loop.  Its variables `segments`, `current`, `currentQuoted` and `raw` are the
      fields of `part`; its two flags stand for the mode, so `part.mode` stays `Bare`. */
  method TokenizeShellCommand(command: string) returns (tokens: seq<Token>)
    ensures tokens == Tokenize(command)
  {
    tokens := [];
    var i := 0;
    var sep := "";
    var inSingle, inDouble := false, false;
    var part := NO_TOKEN;
    while i < |command|
      invariant 0 <= i <= |command| + 1
      invariant !(inSingle && inDouble) && part.mode == Bare
      invariant inDouble ==> i > 0
      invariant i <= |command| ==>
        At(command, i) ==
        Scan(tokens, sep, part.(mode := ModeOf(inSingle, inDouble, i > 0 && command[i - 1] == '\\')))
      invariant i <= |command| && !inSingle && !inDouble && !part.Started() ==> part == NO_TOKEN
      invariant i == |command| + 1 ==> At(command, |command|) == Scan(tokens, sep, part.(mode := Escaped))
      decreases |command| + 1 - i
    {
      var ch := command[i];
      AtNext(command, i);
      if inSingle {
        if ch == '\'' {
          inSingle := false;
        } else {
          part := part.(current := part.current + [ch]);
        }
        part := part.(raw := part.raw + [ch]);
        i := i + 1;
        continue;
      }
      if inDouble {
        if ch == '"' && command[i - 1] != '\\' {
          inDouble := false;
        } else {
          part := part.(current := part.current + [ch]);
        }
        part := part.(raw := part.raw + [ch]);
        i := i + 1;
        continue;
      }
      if ch == '\'' || ch == '"' {
        part := part.FlushBare();
        part := part.(currentQuoted := true, raw := part.raw + [ch]);
        if ch == '\'' {
          inSingle := true;
        } else {
          inDouble := true;
        }
        i := i + 1;
        continue;
      }
      if ch == '\\' {
        part := part.FlushQuoted();
        part := part.(raw := part.raw + [ch]);
        if i + 1 < |command| {
          AtNext(command, i + 1);
          part := part.(current := part.current + [command[i + 1]], raw := part.raw + [command[i + 1]]);
        }
        i := i + 2;
        continue;
      }
      if IsSpace(ch) {
        if part.Started() {
          tokens := tokens + [Token(sep, part.raw, part.Segments())];
          part := NO_TOKEN;
          sep := "";
        }
        sep := sep + [ch];
        i := i + 1;
        continue;
      }
      part := part.FlushQuoted();
      part := part.(current := part.current + [ch], raw := part.raw + [ch]);
      i := i + 1;
    }
    assert command[..|command|] == command;
    if part.Started() {
      tokens := tokens + [Token(sep, part.raw, part.Segments())];
    }
  }

  function Join(ts: seq<Token>): string {
    if ts == [] then ""
    else Join(ts[..|ts| - 1]) + ts[|ts| - 1].sep + ts[|ts| - 1].raw
  }

  lemma JoinAppend(ts: seq<Token>, t: Token)
    ensures Join(ts + [t]) == Join(ts) + t.sep + t.raw
  {
    assert (ts + [t])[..|ts|] == ts;
  }

  lemma Associate4(a: string, b: string, c: string, d: string)
    ensures a + b + c + d == a + (b + c + d)
  {
  }

  lemma {:induction false} JoinPrepend(t: Token, rest: seq<Token>)
    ensures Join([t] + rest) == t.sep + t.raw + Join(rest)
  {
    if rest == [] {
      assert [t] + rest == [] + [t];
      JoinAppend([], t);
    } else {
      var front, last := rest[..|rest| - 1], rest[|rest| - 1];
      JoinPrepend(t, front);
      assert [t] + rest == ([t] + front) + [last];
      JoinAppend([t] + front, last);
      Associate4(t.sep + t.raw, Join(front), last.sep, last.raw);
    }
  }

  /** `t.raw`, read on its own, is one token with exactly `t.segments`; unless it may be the last
      token of a command, it ends outside quotes. */
  ghost predicate Genuine(t: Token, mayBeOpen: bool) {
    var s := Run(START, t.raw);
    && s.tokens == [] && s.sep == ""
    && s.part.Started() && s.part.Segments() == t.segments
    && (mayBeOpen || s.part.mode == Bare)
  }

  ghost predicate WellSeparated(t: Token, first: bool) {
    AllSpace(t.sep) && (first || t.sep != "")
  }

  ghost predicate WellFormed(ts: seq<Token>, lastMayBeOpen: bool) {
    forall k :: 0 <= k < |ts| ==>
      Genuine(ts[k], lastMayBeOpen && k == |ts| - 1) && WellSeparated(ts[k], k == 0)
  }

  lemma {:induction false} RunConcat(s: Scan, a: string, b: string)
    ensures Run(s, a + b) == Run(Run(s, a), b)
  {
    if b == "" {
      assert a + b == a;
    } else {
      assert (a + b)[..|a + b| - 1] == a + b[..|b| - 1];
      RunConcat(s, a, b[..|b| - 1]);
    }
  }

  /** A text without separators is read the same way whatever was read before it. */
  lemma {:induction false} RunFrame(tokens: seq<Token>, sep: string, raw: string)
    requires Run(START, raw).tokens == [] && Run(START, raw).sep == ""
    ensures Run(Scan(tokens, sep, NO_TOKEN), raw) == Scan(tokens, sep, Run(START, raw).part)
    ensures Run(START, raw).part.raw == raw
  {
    if raw != "" {
      RunFrame(tokens, sep, raw[..|raw| - 1]);
      assert raw == raw[..|raw| - 1] + [raw[|raw| - 1]];
    }
  }

  lemma {:induction false} RunSpaces(tokens: seq<Token>, sep: string, w: string)
    requires AllSpace(w)
    ensures Run(Scan(tokens, sep, NO_TOKEN), w) == Scan(tokens, sep + w, NO_TOKEN)
  {
    if w == "" {
      assert sep + w == sep;
    } else {
      RunSpaces(tokens, sep, w[..|w| - 1]);
      assert sep + w == sep + w[..|w| - 1] + [w[|w| - 1]];
    }
  }

  lemma {:induction false} RunClosing(s: Scan, w: string)
    requires AllSpace(w) && w != ""
    requires s.part.mode == Bare && s.part.Started()
    ensures Run(s, w) == Scan(s.Finish(), w, NO_TOKEN)
  {
    RunConcat(s, w[..1], w[1..]);
    assert w == w[..1] + w[1..];
    assert w[..1][..0] == "";
    assert Run(s, w[..1]) == s.Read(w[0]) == Scan(s.Finish(), w[..1], NO_TOKEN);
    RunSpaces(s.Finish(), w[..1], w[1..]);
  }

  /** A scan that stands inside `last`, the last token of `ts`, all others being pushed. */
  ghost predicate Inside(s: Scan, ts: seq<Token>) {
    && |ts| > 0
    && s == Scan(ts[..|ts| - 1], ts[|ts| - 1].sep, Run(START, ts[|ts| - 1].raw).part)
  }

  lemma InsideFinishes(s: Scan, ts: seq<Token>)
    requires Inside(s, ts) && Genuine(ts[|ts| - 1], true)
    ensures s.part.Started() && s.Finish() == ts
  {
    var t := ts[|ts| - 1];
    RunFrame([], "", t.raw);
    assert ts == ts[..|ts| - 1] + [t];
  }

  lemma RunFirst(t: Token)
    requires Genuine(t, true) && AllSpace(t.sep)
    ensures Run(START, t.sep + t.raw) == Scan([], t.sep, Run(START, t.raw).part)
  {
    RunConcat(START, t.sep, t.raw);
    RunSpaces([], "", t.sep);
    assert "" + t.sep == t.sep;
    RunFrame([], t.sep, t.raw);
  }

  lemma RunNext(s: Scan, t: Token)
    requires s.part.mode == Bare && s.part.Started()
    requires Genuine(t, true) && WellSeparated(t, false)
    ensures Run(s, t.sep + t.raw) == Scan(s.Finish(), t.sep, Run(START, t.raw).part)
  {
    RunConcat(s, t.sep, t.raw);
    RunClosing(s, t.sep);
    RunFrame(s.Finish(), t.sep, t.raw);
  }

  lemma WellFormedFront(ts: seq<Token>)
    requires |ts| > 0 && WellFormed(ts, true)
    ensures WellFormed(ts[..|ts| - 1], false)
  {
    var front := ts[..|ts| - 1];
    forall k | 0 <= k < |front|
      ensures Genuine(front[k], false) && WellSeparated(front[k], k == 0)
    {
      assert Genuine(ts[k], true && k == |ts| - 1) && WellSeparated(ts[k], k == 0);
    }
  }

  lemma {:induction false} RunOfJoin(ts: seq<Token>)
    requires |ts| > 0 && WellFormed(ts, true)
    ensures Inside(Run(START, Join(ts)), ts)
    decreases |ts|, 1
  {
    var n := |ts| - 1;
    var front, t := ts[..n], ts[n];
    assert Genuine(t, true) && WellSeparated(t, n == 0);
    assert Join(ts) == Join(front) + (t.sep + t.raw);
    if n == 0 {
      assert Join(ts) == t.sep + t.raw;
      RunFirst(t);
    } else {
      var s := Run(START, Join(front));
      JoinEndsBare(ts);
      RunConcat(START, Join(front), t.sep + t.raw);
      RunNext(s, t);
    }
  }

  lemma {:induction false} JoinEndsBare(ts: seq<Token>)
    requires |ts| > 1 && WellFormed(ts, true)
    ensures var front := ts[..|ts| - 1]; var s := Run(START, Join(front));
      s.part.mode == Bare && s.part.Started() && s.Finish() == front
    decreases |ts|, 0
  {
    var front := ts[..|ts| - 1];
    WellFormedFront(ts);
    var last := front[|front| - 1];
    assert Genuine(last, false);
    assert WellFormed(front, true);
    RunOfJoin(front);
    InsideFinishes(Run(START, Join(front)), front);
  }

  /** Tokenizing the text of any well-formed token list gives back that list. */
  lemma TokenizeJoin(ts: seq<Token>)
    requires WellFormed(ts, true)
    ensures Tokenize(Join(ts)) == ts
  {
    if ts != [] {
      RunOfJoin(ts);
      assert Genuine(ts[|ts| - 1], true);
      InsideFinishes(Run(START, Join(ts)), ts);
    }
  }

  /** What the scanner knows after any prefix of a command. */
  ghost predicate Invariant(s: Scan, command: string) {
    && WellFormed(s.tokens, false)
    && AllSpace(s.sep) && (s.tokens != [] ==> s.sep != "")
    && Run(START, s.part.raw) == Scan([], "", s.part)
    && command == Join(s.tokens) + s.sep + s.part.raw
    && (!s.part.Started() ==> s.part == NO_TOKEN || (s.part.mode == Escaped && s.part.raw == "\\"))
  }

  lemma WellFormedAppend(ts: seq<Token>, t: Token, mayBeOpen: bool)
    requires WellFormed(ts, false)
    requires Genuine(t, mayBeOpen) && WellSeparated(t, ts == [])
    ensures WellFormed(ts + [t], mayBeOpen)
  {
    var all := ts + [t];
    forall k | 0 <= k < |all|
      ensures Genuine(all[k], mayBeOpen && k == |all| - 1) && WellSeparated(all[k], k == 0)
    {
      if k < |ts| {
        assert Genuine(ts[k], false) && WellSeparated(ts[k], k == 0);
      }
    }
  }

  lemma InvariantAtSeparator(s: Scan, command: string, c: char)
    requires Invariant(s, command) && s.AtSeparator(c)
    ensures Invariant(s.Read(c), command + [c])
  {
    if s.part.Started() {
      var t := Token(s.sep, s.part.raw, s.part.Segments());
      WellFormedAppend(s.tokens, t, false);
      JoinAppend(s.tokens, t);
      assert command + [c] == Join(s.Finish()) + [c] + "";
    } else {
      assert command + [c] == Join(s.tokens) + (s.sep + [c]) + "";
    }
  }

  lemma PartialRaw(p: Partial, c: char)
    requires p.Started() || p == NO_TOKEN || p.mode == Escaped
    ensures p.Read(c).raw == p.raw + [c]
    ensures !p.Read(c).Started() ==> !p.Started() && p.mode == Bare && c == '\\' && p.Read(c).mode == Escaped
  {
  }

  lemma InvariantInToken(s: Scan, command: string, c: char)
    requires Invariant(s, command) && !s.AtSeparator(c)
    ensures Invariant(s.Read(c), command + [c])
  {
    PartialRaw(s.part, c);
    RunOneMore(START, s.part.raw, c);
    assert command + [c] == Join(s.tokens) + s.sep + (s.part.raw + [c]);
    if !s.part.Read(c).Started() {
      assert s.part == NO_TOKEN;
    }
  }

  lemma {:induction false} ScanInvariant(command: string)
    ensures Invariant(Run(START, command), command)
  {
    if command != "" {
      var front, c := command[..|command| - 1], command[|command| - 1];
      ScanInvariant(front);
      assert command == front + [c];
      var s := Run(START, front);
      if s.AtSeparator(c) {
        InvariantAtSeparator(s, front, c);
      } else {
        InvariantInToken(s, front, c);
      }
    }
  }

  /** What a command ends with that belongs to no token: white space, then possibly one final
      backslash, which is dropped only when no token is being read. */
  ghost predicate DroppedTail(tail: string, tokens: seq<Token>) {
    || AllSpace(tail)
    || (&& tail != "" && tail[|tail| - 1] == '\\' && AllSpace(tail[..|tail| - 1])
        && (tokens != [] ==> |tail| >= 2))
  }

  /** Tokenizing loses nothing but that tail, and what it returns is always well formed. */
  lemma JoinTokenize(command: string) returns (tail: string)
    ensures WellFormed(Tokenize(command), true)
    ensures command == Join(Tokenize(command)) + tail
    ensures DroppedTail(tail, Tokenize(command))
  {
    ScanInvariant(command);
    var s := Run(START, command);
    if s.part.Started() {
      var t := Token(s.sep, s.part.raw, s.part.Segments());
      assert Genuine(t, true);
      WellFormedAppend(s.tokens, t, true);
      JoinAppend(s.tokens, t);
      tail := "";
    } else {
      tail := s.sep + s.part.raw;
      if s.part != NO_TOKEN {
        assert tail[..|tail| - 1] == s.sep;
      }
    }
  }
}
