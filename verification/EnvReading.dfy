/** How settings are read that nobody printed: values without quotes or in single quotes, comments,
    `export`, and what is refused (`packages/hub-daemon/src/load-private-env.ts`). */
module EnvReading {
  import opened JsText
  import opened PrivateEnv
  import opened Wrappers

  // ---------------------------------------------------------------- values without quotes

  /** The text from here on is white space and then a number sign. */
  ghost predicate CommentFrom(s: string, i: nat) {
    exists j :: i < j < |s| && s[j] == '#' && forall k :: i <= k < j ==> IsSpace(s[k])
  }

  lemma {:induction false} SpacesThenHashIff(s: string, i: nat)
    requires i <= |s|
    ensures SpacesThenHash(s[i..]) <==> CommentFrom(s, i)
    decreases |s| - i
  {
    var t := s[i..];
    if i < |s| {
      SpacesThenHashIff(s, i + 1);
      assert t[0] == s[i] && t[1..] == s[i + 1..];
      if CommentFrom(s, i) {
        var j :| i < j < |s| && s[j] == '#' && forall k :: i <= k < j ==> IsSpace(s[k]);
        assert j > i + 1 ==> CommentFrom(s, i + 1);
        assert j == i + 1 ==> t[1] == '#';
      }
      if SpacesThenHash(t) {
        assert |t| > 1 && t[1] == s[i + 1];
        if t[1] == '#' {
          assert CommentFrom(s, i);
        } else {
          var j :| i + 1 < j < |s| && s[j] == '#' && forall k :: i + 1 <= k < j ==> IsSpace(s[k]);
          assert CommentFrom(s, i);
        }
      }
    }
  }

  /** `plain` is what comes before the first comment. */
  ghost predicate BeforeComment(s: string, plain: string) {
    && plain <= s && (forall i :: 0 <= i < |plain| ==> !CommentFrom(s, i))
    && (plain == s || CommentFrom(s, |plain|))
  }

  lemma UncommentedNext(s: string, i: nat)
    requires i <= |s|
    ensures s[..i] + Uncommented(s[i..])
         == if i < |s| && !CommentFrom(s, i) then s[..i + 1] + Uncommented(s[i + 1..]) else s[..i]
  {
    SpacesThenHashIff(s, i);
    if i < |s| && !CommentFrom(s, i) {
      assert s[i..][1..] == s[i + 1..] && s[..i + 1] == s[..i] + [s[i]];
      Associate(s[..i], [s[i]], Uncommented(s[i + 1..]));
    } else {
      assert s[..i] + "" == s[..i];
    }
  }

  lemma Associate(a: string, b: string, c: string)
    ensures a + b + c == a + (b + c)
  {
  }

  lemma {:induction false} UncommentedFrom(s: string, i: nat)
    requires i <= |s| && forall k :: 0 <= k < i ==> !CommentFrom(s, k)
    ensures BeforeComment(s, s[..i] + Uncommented(s[i..]))
    decreases |s| - i
  {
    UncommentedNext(s, i);
    if i < |s| && !CommentFrom(s, i) {
      UncommentedFrom(s, i + 1);
    } else {
      assert s[..|s|] == s;
    }
  }

  lemma NotShorter(s: string, a: string, b: string)
    requires BeforeComment(s, a) && BeforeComment(s, b)
    ensures |b| <= |a|
  {
  }

  /** There is only one such beginning, and it is what the parser takes. */
  lemma UncommentedIff(s: string, plain: string)
    ensures BeforeComment(s, plain) <==> plain == Uncommented(s)
  {
    UncommentedFrom(s, 0);
    assert s[0..] == s && s[..0] + Uncommented(s) == Uncommented(s);
    if BeforeComment(s, plain) {
      NotShorter(s, plain, Uncommented(s));
      NotShorter(s, Uncommented(s), plain);
    }
  }

  /** A value without quotes reaches to the first comment, less the white space around it. */
  lemma PlainValueReads(raw: string, plain: string)
    requires TrimStart(raw) == "" || TrimStart(raw)[0] !in {'"', '\''}
    requires BeforeComment(TrimStart(raw), plain)
    ensures ParseEnvValue(raw) == Ok(TrimEnd(plain))
  {
    UncommentedIff(TrimStart(raw), plain);
  }

  /** So a value with no comment in it, and no white space at its ends, is read back, whatever white
      space or comment stands behind it. */
  lemma WrittenPlainReads(pad: string, value: string, behind: string)
    requires AllSpace(pad) && value != "" && value[0] !in {'"', '\''}
    requires !IsSpace(value[0]) && !IsSpace(value[|value| - 1]) && forall i :: 0 <= i < |value| ==> !CommentFrom(value + behind, i)
    requires AllSpace(behind) || CommentFrom(behind, 0)
    ensures ParseEnvValue(pad + (value + behind)) == Ok(value)
  {
    var rest := value + behind;
    assert rest[0] == value[0];
    TrimStartOfPadded(pad, rest);
    if CommentFrom(behind, 0) {
      BehindIsComment(value, behind);
      PlainValueReads(pad + rest, value);
      assert TrimEnd(value) == value;
    } else {
      NoCommentInSpace(value, behind);
      PlainValueReads(pad + rest, rest);
      TrimEndOfPadded(value, behind);
    }
  }

  lemma BehindIsComment(value: string, behind: string)
    requires CommentFrom(behind, 0)
    ensures CommentFrom(value + behind, |value|)
  {
    var s := value + behind;
    var j :| 0 < j < |behind| && behind[j] == '#' && forall k :: 0 <= k < j ==> IsSpace(behind[k]);
    var n := |value| + j;
    assert s[n] == '#' && forall k :: |value| <= k < n ==> s[k] == behind[k - |value|];
  }

  lemma NoCommentInSpace(value: string, behind: string)
    requires AllSpace(behind)
    ensures forall i :: |value| <= i <= |value + behind| ==> !CommentFrom(value + behind, i)
  {
    var s := value + behind;
    forall i | |value| <= i <= |s|
      ensures !CommentFrom(s, i)
    {
      assert forall j :: i < j < |s| ==> s[j] == behind[j - |value|] && IsSpace(s[j]) && s[j] != '#';
    }
  }

  // ---------------------------------------------------------------- values in single quotes

  /** What may follow a closing quote: white space, or white space and a comment. */
  ghost predicate MayFollow(after: string) {
    AllSpace(after) || exists pad, text :: AllSpace(pad) && after == pad + ("#" + text)
  }

  lemma HashStays(text: string)
    requires text != "" && text[0] == '#'
    ensures Trim(text) != "" && Trim(text)[0] == '#'
  {
    var w := TrimEndSplit(text);
    assert TrimStart(text) == text;
    assert text[0] == (TrimEnd(text) + w)[0] && !IsSpace(text[0]);
  }

  lemma MayFollowIff(after: string)
    ensures MayFollow(after) <==> CommentOrNothing(after)
  {
    if AllSpace(after) {
      TrimStartOfSpace(after);
    } else if MayFollow(after) {
      var pad, text :| AllSpace(pad) && after == pad + ("#" + text);
      TrimStartOfPadded(pad, "#" + text);
      HashStays("#" + text);
      assert Trim(after) == TrimEnd("#" + text) && TrimStart("#" + text) == "#" + text;
    }
    if CommentOrNothing(after) {
      FollowsRightly(after);
    }
  }

  lemma FollowsRightly(after: string)
    requires CommentOrNothing(after)
    ensures MayFollow(after)
  {
    var pad := TrimStartSplit(after);
    var end := TrimEndSplit(TrimStart(after));
    if Trim(after) == "" {
      assert after == pad + end;
    } else {
      var text := TrimStart(after);
      assert text[0] == '#' && text == "#" + text[1..];
    }
  }

  lemma SinglesReadOne(value: string, after: string, i: nat)
    requires i < |value| && forall k :: 0 <= k < |value| ==> value[k] != '\''
    ensures var rest := "'" + value + "'" + after; Quoted(rest, '\'', i + 1) == Before(value[i], Quoted(rest, '\'', i + 2))
  {
    var rest := "'" + value + "'" + after;
    assert rest[i + 1] == value[i];
  }

  lemma {:induction false} SinglesReadFrom(value: string, after: string, i: nat)
    requires i <= |value| && forall k :: 0 <= k < |value| ==> value[k] != '\''
    ensures Quoted("'" + value + "'" + after, '\'', i + 1) ==
      if CommentOrNothing(after) then Ok(value[i..]) else Err(TrailingText)
    decreases |value| - i
  {
    var rest := "'" + value + "'" + after;
    if i < |value| {
      SinglesReadFrom(value, after, i + 1);
      SinglesReadOne(value, after, i);
      assert [value[i]] + value[i + 1..] == value[i..];
    } else {
      assert rest[i + 1] == '\'' && rest[i + 2..] == after && value[i..] == "";
    }
  }

  /** Between single quotes every character stands for itself.  Behind the closing quote only a comment
      may follow. */
  lemma SingleQuotedReads(pad: string, value: string, after: string)
    requires AllSpace(pad) && forall k :: 0 <= k < |value| ==> value[k] != '\''
    ensures ParseEnvValue(pad + ("'" + value + "'" + after)) == if MayFollow(after) then Ok(value) else Err(TrailingText)
  {
    var rest := "'" + value + "'" + after;
    assert rest[0] == '\'';
    TrimStartOfPadded(pad, rest);
    SinglesReadFrom(value, after, 0);
    MayFollowIff(after);
    assert value[0..] == value;
  }

  lemma {:induction false} UnclosedFrom(value: string, i: nat)
    requires i <= |value| && forall k :: 0 <= k < |value| ==> value[k] != '\''
    ensures Quoted("'" + value, '\'', i + 1) == Err(UnclosedQuote)
    decreases |value| - i
  {
    if i < |value| {
      UnclosedFrom(value, i + 1);
      assert ("'" + value)[i + 1] == value[i];
    }
  }

  lemma UnclosedIsRefused(pad: string, value: string)
    requires AllSpace(pad) && forall k :: 0 <= k < |value| ==> value[k] != '\''
    ensures ParseEnvValue(pad + ("'" + value)) == Err(UnclosedQuote)
  {
    var rest := "'" + value;
    assert rest[0] == '\'';
    TrimStartOfPadded(pad, rest);
    UnclosedFrom(value, 0);
  }

  // ---------------------------------------------------------------- escapes in double quotes

  /** A backslash and the character behind it stand for a line feed, carriage return or tab if that is
      n, r or t, and otherwise for that character; elsewhere a character stands for itself. */
  lemma EscapeReads(before: string, c: char, behind: string)
    ensures var rest := before + ['\\', c] + behind;
      var read := match c case 'n' => '\n' case 'r' => '\r' case 't' => '\t' case _ => c;
      Quoted(rest, '"', |before|) == Before(read, Quoted(rest, '"', |before| + 2))
  {
    var rest := before + ['\\', c] + behind;
    assert rest[|before|] == '\\' && rest[|before| + 1] == c;
  }

  /** A backslash at the very end leaves the quote open. */
  lemma DanglingBackslash(before: string)
    ensures Quoted(before + ['\\'], '"', |before|) == Err(UnclosedQuote)
  {
  }

  lemma OtherReads(before: string, c: char, behind: string)
    requires c != '\\' && c != '"'
    ensures var rest := before + [c] + behind; Quoted(rest, '"', |before|) == Before(c, Quoted(rest, '"', |before| + 1))
  {
    assert (before + [c] + behind)[|before|] == c;
  }

  lemma QuoteCloses(before: string, behind: string)
    ensures var rest := before + ['"'] + behind;
      Quoted(rest, '"', |before|) == if MayFollow(behind) then Ok("") else Err(TrailingText)
  {
    var rest := before + ['"'] + behind;
    assert rest[|before|] == '"' && rest[|before| + 1..] == behind;
    MayFollowIff(behind);
  }

  // ---------------------------------------------------------------- lines

  /** The line says `export`, white space, and then `body`. */
  ghost predicate Exports(trimmed: string, body: string) {
    && body != "" && !IsSpace(body[0])
    && exists pad :: pad != "" && AllSpace(pad) && trimmed == "export" + (pad + body)
  }

  lemma ExportedBody(trimmed: string, body: string)
    requires Exports(trimmed, body)
    ensures Body(trimmed) == body
  {
    var pad :| pad != "" && AllSpace(pad) && trimmed == "export" + (pad + body);
    assert trimmed[6..] == pad + body && trimmed[6] == pad[0];
    TrimStartOfPadded(pad, body);
  }

  lemma PlainBody(trimmed: string)
    requires forall body :: !Exports(trimmed, body)
    ensures Body(trimmed) == trimmed
  {
    if "export" <= trimmed && |trimmed| > 6 && IsSpace(trimmed[6]) && TrimStart(trimmed[6..]) != "" {
      var rest := trimmed[6..];
      var pad := TrimStartSplit(rest);
      assert trimmed == "export" + (pad + TrimStart(rest));
      assert pad != "" by {
        assert rest[0] == trimmed[6];
      }
      assert Exports(trimmed, TrimStart(rest));
    }
  }

  /** `before` stands before the first equals sign and `raw` behind it. */
  predicate SplitAtEquals(body: string, before: string, raw: string) {
    '=' !in before && body == before + ['='] + raw
  }

  /** What a line with this body says. */
  ghost predicate Says(body: string, r: Result<Line, Reason>) {
    if '=' !in body then r == Err(MissingEquals)
    else exists before, raw :: SplitAtEquals(body, before, raw) && Sets(before, raw, r)
  }

  /** By their codes: the 26 capital letters, the 26 small ones, the underscore; and the ten digits. */
  predicate IsLetter(c: char) {
    65 <= c as int < 65 + 26 || 97 <= c as int < 97 + 26 || c as int == 95
  }

  predicate IsDigit(c: char) {
    48 <= c as int < 48 + 10
  }

  /** A letter or an underscore, then letters, underscores and digits. */
  predicate NamesVariable(key: string) {
    key != "" && IsLetter(key[0]) && forall k :: 0 <= k < |key| ==> IsLetter(key[k]) || IsDigit(key[k])
  }

  lemma IsKeyIff(key: string)
    ensures IsKey(key) <==> NamesVariable(key)
  {
    forall k | 0 <= k < |key|
      ensures KeyStart(key[k]) <==> IsLetter(key[k])
      ensures KeyChar(key[k]) <==> IsLetter(key[k]) || IsDigit(key[k])
    {
    }
  }

  predicate Sets(before: string, raw: string, r: Result<Line, Reason>) {
    if !NamesVariable(Trim(before)) then r == Err(InvalidKey)
    else
      match ParseEnvValue(raw)
      case Err(reason) => r == Err(reason)
      case Ok(value) => r == Ok(Setting(Trim(before), value))
  }

  lemma CutAtEquals(body: string, eq: nat)
    requires eq < |body| && body[eq] == '=' && forall j :: 0 <= j < eq ==> body[j] != '='
    ensures SplitAtEquals(body, body[..eq], body[eq + 1..])
  {
    assert body == body[..eq] + ['='] + body[eq + 1..];
  }

  lemma SaysAtEquals(body: string, r: Result<Line, Reason>)
    requires r == ParseBody(body)
    ensures Says(body, r)
  {
    var eq := IndexOf(body, '=');
    if eq < |body| {
      IsKeyIff(Trim(body[..eq]));
      assert body[eq] in body;
      CutAtEquals(body, eq);
    }
  }

  /** Every line: nothing and comments say nothing, `export` before a setting is ignored, and otherwise
      the line is cut at its first equals sign. */
  lemma LineSays(line: string)
    ensures var trimmed, r := Trim(line), ParseLine(line);
      if trimmed == "" || trimmed[0] == '#' then r == Ok(Blank)
      else
        && (forall body :: Exports(trimmed, body) ==> Says(body, r))
        && ((forall body :: !Exports(trimmed, body)) ==> Says(trimmed, r))
  {
    var trimmed, r := Trim(line), ParseLine(line);
    if trimmed != "" && trimmed[0] != '#' {
      assert r == ParseBody(Body(trimmed));
      SaysAtEquals(Body(trimmed), r);
      forall body | Exports(trimmed, body)
        ensures Says(body, r)
      {
        ExportedBody(trimmed, body);
      }
      if forall body :: !Exports(trimmed, body) {
        PlainBody(trimmed);
      }
    }
  }

  /** A byte-order mark before the text makes no difference. */
  lemma MarkIsIgnored(text: string)
    requires text == "" || text[0] != '\U{FEFF}'
    ensures Settings(Lines(Unmarked(['\U{FEFF}'] + text))) == Settings(Lines(Unmarked(text)))
  {
    assert (['\U{FEFF}'] + text)[1..] == text;
  }
}
