/** Writing settings and reading them back (`packages/hub-daemon/src/load-private-env.ts`). */
module EnvRoundTrip {
  import opened JsText
  import opened PrivateEnv
  import opened Wrappers

  datatype Entry = Entry(key: string, value: string)

  function EscapedChar(c: char): string {
    if c == '\\' then "\\\\"
    else if c == '"' then "\\\""
    else if c == '\n' then "\\n"
    else if c == '\r' then "\\r"
    else if c == '\t' then "\\t"
    else [c]
  }

  function Escaped(value: string): string {
    if value == "" then "" else EscapedChar(value[0]) + Escaped(value[1..])
  }

  /** `KEY="value"`, with the value escaped. */
  function PrintLine(e: Entry): string {
    e.key + "=\"" + Escaped(e.value) + "\""
  }

  function PrintLines(entries: seq<Entry>): seq<string> {
    seq(|entries|, k requires 0 <= k < |entries| => PrintLine(entries[k]))
  }

  predicate IsNewline(nl: string) {
    nl == "\n" || nl == "\r\n"
  }

  function Join(lines: seq<string>, nl: string): string {
    if lines == [] then ""
    else if |lines| == 1 then lines[0]
    else lines[0] + nl + Join(lines[1..], nl)
  }

  predicate ValidKeys(entries: seq<Entry>) {
    forall k :: 0 <= k < |entries| ==> IsKey(entries[k].key)
  }

  function AsMap(entries: seq<Entry>): map<string, string> {
    if entries == [] then map[]
    else AsMap(entries[..|entries| - 1])[entries[|entries| - 1].key := entries[|entries| - 1].value]
  }

  // ---------------------------------------------------------------- one value

  /** What a backslash escape, or a character that needs none, is read back as. */
  lemma CharReads(rest: string, i: nat, c: char)
    requires i + |EscapedChar(c)| <= |rest| && rest[i..i + |EscapedChar(c)|] == EscapedChar(c)
    ensures Quoted(rest, '"', i) == Before(c, Quoted(rest, '"', i + |EscapedChar(c)|))
  {
    assert rest[i] == EscapedChar(c)[0];
    if |EscapedChar(c)| == 2 {
      assert rest[i + 1] == EscapedChar(c)[1];
    }
  }

  lemma {:induction false} ValueReads(p: string, value: string)
    ensures Quoted(p + Escaped(value) + "\"", '"', |p|) == Ok(value)
    decreases value
  {
    if value == "" {
      ClosingReads(p);
    } else {
      var front := p + EscapedChar(value[0]);
      EscapedStep(p, value);
      CharReads(p + Escaped(value) + "\"", |p|, value[0]);
      ValueReads(front, value[1..]);
      assert [value[0]] + value[1..] == value;
    }
  }

  lemma ClosingReads(p: string)
    ensures Quoted(p + "" + "\"", '"', |p|) == Ok("")
  {
    var rest := p + "" + "\"";
    assert rest[|p|] == '"' && rest[|p| + 1..] == "";
  }

  lemma EscapedStep(p: string, value: string)
    requires value != ""
    ensures var c, rest := EscapedChar(value[0]), p + Escaped(value) + "\"";
      && rest == p + c + Escaped(value[1..]) + "\"" && |p| + |c| <= |rest| && rest[|p|..|p| + |c|] == c
  {
    Middle(p, EscapedChar(value[0]), Escaped(value[1..]), "\"");
  }

  lemma Middle(p: string, c: string, tail: string, q: string)
    ensures var rest := p + (c + tail) + q;
      rest == p + c + tail + q && |p| + |c| <= |rest| && rest[|p|..|p| + |c|] == c
  {
  }

  lemma QuotedValueReads(value: string)
    ensures ParseEnvValue("\"" + Escaped(value) + "\"") == Ok(value)
  {
    ValueReads("\"", value);
    assert ("\"" + Escaped(value) + "\"")[0] == '"';
  }

  // ---------------------------------------------------------------- one line

  lemma {:induction false} IndexAfter(key: string, c: char, tail: string)
    requires forall k :: 0 <= k < |key| ==> key[k] != c
    ensures IndexOf(key + [c] + tail, c) == |key|
  {
    if key != "" {
      assert (key + [c] + tail)[1..] == key[1..] + [c] + tail;
      IndexAfter(key[1..], c, tail);
    }
  }

  lemma LineShape(e: Entry)
    ensures PrintLine(e) == e.key + "=" + ("\"" + Escaped(e.value) + "\"")
    ensures PrintLine(e)[|e.key|] == '=' && PrintLine(e)[|PrintLine(e)| - 1] == '"'
    ensures forall k :: 0 <= k < |e.key| ==> PrintLine(e)[k] == e.key[k]
  {
  }

  lemma NotSpace(c: char)
    requires KeyChar(c) || c == '=' || c == '"'
    ensures !IsSpace(c)
  {
  }

  lemma LineIsTrimmed(e: Entry)
    requires IsKey(e.key)
    ensures Trim(PrintLine(e)) == PrintLine(e)
  {
    LineShape(e);
    NotSpace(PrintLine(e)[0]);
    NotSpace('"');
  }

  /** Even a key that begins with `export` is not taken for an export. */
  lemma LineIsBody(e: Entry)
    requires IsKey(e.key)
    ensures Body(PrintLine(e)) == PrintLine(e)
  {
    var line := PrintLine(e);
    LineShape(e);
    if "export" <= line && |line| > 6 {
      if |e.key| >= 6 {
        assert |e.key| > 6 ==> line[6] == e.key[6];
        NotSpace(line[6]);
      }
    }
  }

  lemma KeyIsTrimmed(key: string)
    requires IsKey(key)
    ensures Trim(key) == key
  {
    NotSpace(key[0]);
    NotSpace(key[|key| - 1]);
  }

  lemma LineReads(e: Entry)
    requires IsKey(e.key)
    ensures ParseLine(PrintLine(e)) == Ok(Setting(e.key, e.value))
  {
    var line, quoted := PrintLine(e), "\"" + Escaped(e.value) + "\"";
    LineIsTrimmed(e);
    LineIsBody(e);
    LineShape(e);
    IndexAfter(e.key, '=', quoted);
    KeyIsTrimmed(e.key);
    QuotedValueReads(e.value);
    assert line[..|e.key|] == e.key && line[|e.key| + 1..] == quoted;
  }

  // ---------------------------------------------------------------- the whole file

  /** A line that ends where a line end says it ends. */
  predicate Plain(line: string) {
    '\n' !in line && (line != "" ==> line[|line| - 1] != '\r')
  }

  lemma {:induction false} EscapedHasNoBreak(value: string)
    ensures '\n' !in Escaped(value)
  {
    if value != "" {
      EscapedHasNoBreak(value[1..]);
    }
  }

  lemma LineIsPlain(e: Entry)
    requires IsKey(e.key)
    ensures Plain(PrintLine(e))
  {
    EscapedHasNoBreak(e.value);
    LineShape(e);
  }

  lemma LinesAtBreak(before: string, tail: string)
    requires '\n' !in before
    ensures Lines(before + ['\n'] + tail)
         == [if before != "" && before[|before| - 1] == '\r' then before[..|before| - 1] else before] + Lines(tail)
  {
    var text := before + ['\n'] + tail;
    IndexAfter(before, '\n', tail);
    assert text[..|before|] == before && text[|before| + 1..] == tail;
    if before != "" {
      assert text[|before| - 1] == before[|before| - 1];
      assert text[..|before| - 1] == before[..|before| - 1];
    }
  }

  lemma FirstLineFeed(line: string, tail: string)
    requires Plain(line)
    ensures Lines(line + ['\n'] + tail) == [line] + Lines(tail)
  {
    LinesAtBreak(line, tail);
  }

  lemma FirstReturnLineFeed(line: string, tail: string)
    requires Plain(line)
    ensures Lines(line + ['\r'] + ['\n'] + tail) == [line] + Lines(tail)
  {
    var before := line + ['\r'];
    LinesAtBreak(before, tail);
    assert before[..|line|] == line;
  }

  lemma FirstLine(line: string, nl: string, tail: string)
    requires Plain(line) && IsNewline(nl)
    ensures Lines(line + nl + tail) == [line] + Lines(tail)
  {
    if nl == "\n" {
      FirstLineFeed(line, tail);
    } else {
      FirstReturnLineFeed(line, tail);
      Middle(line, ['\r'], ['\n'], tail);
      assert nl == ['\r'] + ['\n'];
    }
  }

  lemma {:induction false} NoBreakOneLine(line: string)
    requires '\n' !in line
    ensures Lines(line) == [line]
  {
    var k := IndexOf(line, '\n');
  }

  lemma {:induction false} JoinedLines(lines: seq<string>, nl: string)
    requires lines != [] && IsNewline(nl) && forall k :: 0 <= k < |lines| ==> Plain(lines[k])
    ensures Lines(Join(lines, nl)) == lines
  {
    if |lines| == 1 {
      NoBreakOneLine(lines[0]);
    } else {
      JoinedLines(lines[1..], nl);
      FirstLine(lines[0], nl, Join(lines[1..], nl));
      assert [lines[0]] + lines[1..] == lines;
    }
  }

  lemma {:induction false} PrintedSettings(entries: seq<Entry>)
    requires ValidKeys(entries)
    ensures Settings(PrintLines(entries)) == Ok(AsMap(entries))
  {
    if entries != [] {
      var n := |entries| - 1;
      PrintedSettings(entries[..n]);
      assert PrintLines(entries)[..n] == PrintLines(entries[..n]);
      LineReads(entries[n]);
    }
  }

  lemma FileStartsWithKey(entries: seq<Entry>, nl: string)
    requires ValidKeys(entries) && entries != []
    ensures var text := Join(PrintLines(entries), nl); text != "" && KeyStart(text[0])
  {
    LineShape(entries[0]);
    assert PrintLines(entries)[0] == PrintLine(entries[0]);
  }

  /** Whatever the values hold, what is written is read back, with either kind of line end. */
  lemma PrintThenParse(entries: seq<Entry>, nl: string)
    requires ValidKeys(entries) && IsNewline(nl)
    ensures Settings(Lines(Unmarked(Join(PrintLines(entries), nl)))) == Ok(AsMap(entries))
  {
    var lines := PrintLines(entries);
    if entries == [] {
      assert Lines("") == [""] && [""][..0] == [];
      assert Settings([""][..0]) == Ok(map[]);
    } else {
      FileStartsWithKey(entries, nl);
      forall k | 0 <= k < |lines|
        ensures Plain(lines[k])
      {
        LineIsPlain(entries[k]);
      }
      JoinedLines(lines, nl);
      PrintedSettings(entries);
    }
  }

  // ---------------------------------------------------------------- maps

  /** The entries list a map, each key once. */
  predicate Lists(entries: seq<Entry>, m: map<string, string>) {
    && (forall j, k :: 0 <= j < k < |entries| ==> entries[j].key != entries[k].key)
    && (forall k :: 0 <= k < |entries| ==> entries[k].key in m && m[entries[k].key] == entries[k].value)
    && forall key :: key in m ==> exists k :: 0 <= k < |entries| && entries[k].key == key
  }

  lemma {:induction false} AsMapHas(entries: seq<Entry>, key: string)
    ensures key in AsMap(entries) <==> exists k :: 0 <= k < |entries| && entries[k].key == key
    ensures key in AsMap(entries) ==> exists k :: 0 <= k < |entries| && entries[k] == Entry(key, AsMap(entries)[key])
  {
    if entries != [] {
      var n := |entries| - 1;
      AsMapHas(entries[..n], key);
      if key != entries[n].key && key in AsMap(entries[..n]) {
        var k :| 0 <= k < n && entries[..n][k] == Entry(key, AsMap(entries[..n])[key]);
        assert entries[k] == Entry(key, AsMap(entries)[key]);
      } else if key == entries[n].key {
        assert entries[n] == Entry(key, AsMap(entries)[key]);
      } else {
        forall k | 0 <= k < |entries|
          ensures entries[k].key != key
        {
          assert k < n ==> entries[..n][k].key != key;
        }
      }
    }
  }

  /** For every map from valid keys to arbitrary strings, in whatever order it is written. */
  lemma MapRoundTrips(m: map<string, string>, entries: seq<Entry>, nl: string)
    requires Lists(entries, m) && IsNewline(nl) && forall key :: key in m ==> IsKey(key)
    ensures Settings(Lines(Unmarked(Join(PrintLines(entries), nl)))) == Ok(m)
  {
    PrintThenParse(entries, nl);
    forall key
      ensures key in AsMap(entries) <==> key in m
      ensures key in m ==> AsMap(entries)[key] == m[key]
    {
      AsMapHas(entries, key);
    }
    assert AsMap(entries) == m;
  }
}
