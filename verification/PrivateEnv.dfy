/** Private environment files (`packages/hub-daemon/src/load-private-env.ts`). */
module PrivateEnv {
  import opened JsText
  import opened Wrappers

  datatype Reason = MissingEquals | InvalidKey | UnclosedQuote | TrailingText

  datatype Malformed = Malformed(line: nat, reason: Reason)

  // ---------------------------------------------------------------- values

  function UnescapeDouble(c: char): char {
    if c == 'n' then '\n' else if c == 'r' then '\r' else if c == 't' then '\t' else c
  }

  predicate CommentOrNothing(s: string) {
    var after := Trim(s);
    after == "" || after[0] == '#'
  }

  /** The quoted text from a position on, up to its closing quote. */
  function Quoted(rest: string, quote: char, i: nat): Result<string, Reason>
    decreases |rest| - i
  {
    if i >= |rest| then Err(UnclosedQuote)
    else if quote == '"' && rest[i] == '\\' then
      if i + 1 >= |rest| then Err(UnclosedQuote)
      else Before(UnescapeDouble(rest[i + 1]), Quoted(rest, quote, i + 2))
    else if rest[i] == quote then
      if CommentOrNothing(rest[i + 1..]) then Ok("") else Err(TrailingText)
    else Before(rest[i], Quoted(rest, quote, i + 1))
  }

  function Before(c: char, r: Result<string, Reason>): Result<string, Reason> {
    match r
    case Ok(s) => Ok([c] + s)
    case Err(reason) => Err(reason)
  }

  /** White space, then a number sign. */
  predicate SpacesThenHash(s: string) {
    s != "" && IsSpace(s[0]) && s[1..] != "" && (s[1] == '#' || SpacesThenHash(s[1..]))
  }

  /** What comes before the first comment. */
  function Uncommented(s: string): string {
    if s == "" || SpacesThenHash(s) then "" else [s[0]] + Uncommented(s[1..])
  }

  function ParseEnvValue(raw: string): Result<string, Reason> {
    var rest := TrimStart(raw);
    if rest != "" && (rest[0] == '"' || rest[0] == '\'') then Quoted(rest, rest[0], 1)
    else Ok(TrimEnd(Uncommented(rest)))
  }

  // ---------------------------------------------------------------- lines

  predicate KeyStart(c: char) {
    'A' <= c <= 'Z' || 'a' <= c <= 'z' || c == '_'
  }

  predicate KeyChar(c: char) {
    KeyStart(c) || '0' <= c <= '9'
  }

  predicate IsKey(s: string) {
    s != "" && KeyStart(s[0]) && forall k :: 0 <= k < |s| ==> KeyChar(s[k])
  }

  /** Without a leading `export`. */
  function Body(trimmed: string): string {
    if "export" <= trimmed && |trimmed| > 6 && IsSpace(trimmed[6]) && TrimStart(trimmed[6..]) != ""
    then TrimStart(trimmed[6..]) else trimmed
  }

  function IndexOf(s: string, c: char): (k: nat)
    ensures k <= |s| && (k < |s| ==> s[k] == c)
    ensures forall j :: 0 <= j < k ==> s[j] != c
  {
    if s == "" || s[0] == c then 0 else 1 + IndexOf(s[1..], c)
  }

  datatype Line = Blank | Setting(key: string, value: string)

  function ParseLine(line: string): Result<Line, Reason> {
    var trimmed := Trim(line);
    if trimmed == "" || trimmed[0] == '#' then Ok(Blank) else ParseBody(Body(trimmed))
  }

  function ParseBody(body: string): Result<Line, Reason> {
    var eq := IndexOf(body, '=');
    if eq == |body| then Err(MissingEquals)
    else
      var key := Trim(body[..eq]);
      if !IsKey(key) then Err(InvalidKey)
      else
        match ParseEnvValue(body[eq + 1..])
        case Err(reason) => Err(reason)
        case Ok(value) => Ok(Setting(key, value))
  }

  /** A text cut at its line ends, each a line feed with or without a carriage return before it. */
  function Lines(text: string): seq<string> {
    var k := IndexOf(text, '\n');
    if k == |text| then [text]
    else [if k > 0 && text[k - 1] == '\r' then text[..k - 1] else text[..k]] + Lines(text[k + 1..])
  }

  function Unmarked(text: string): string {
    if text != "" && text[0] == '\U{FEFF}' then text[1..] else text
  }

  /** The settings of some lines; a later one of the same key wins. */
  function Settings(lines: seq<string>): Result<map<string, string>, Malformed> {
    if lines == [] then Ok(map[])
    else
      var n := |lines| - 1;
      match Settings(lines[..n])
      case Err(e) => Err(e)
      case Ok(m) =>
        match ParseLine(lines[n])
        case Err(reason) => Err(Malformed(n + 1, reason))
        case Ok(Blank) => Ok(m)
        case Ok(Setting(key, value)) => Ok(m[key := value])
  }

  // ---------------------------------------------------------------- the loops

  method ParseQuotedValue(rest: string, quote: char) returns (r: Result<string, Reason>)
    requires rest != ""
    ensures r == Quoted(rest, quote, 1)
  {
    var i := 1;
    var out := "";
    BehindNothing(Quoted(rest, quote, 1));
    while i < |rest|
      invariant 1 <= i <= |rest| + 1
      invariant Quoted(rest, quote, 1) == Behind(out, Quoted(rest, quote, i))
    {
      var c := rest[i];
      if quote == '"' && c == '\\' {
        if i + 1 >= |rest| {
          return Err(UnclosedQuote);
        }
        BehindBefore(out, UnescapeDouble(rest[i + 1]), Quoted(rest, quote, i + 2));
        out := out + [UnescapeDouble(rest[i + 1])];
        i := i + 2;
        continue;
      }
      if c == quote {
        if !CommentOrNothing(rest[i + 1..]) {
          return Err(TrailingText);
        }
        assert out + "" == out;
        return Ok(out);
      }
      BehindBefore(out, c, Quoted(rest, quote, i + 1));
      out := out + [c];
      i := i + 1;
    }
    r := Err(UnclosedQuote);
  }

  function Behind(s: string, r: Result<string, Reason>): Result<string, Reason> {
    match r
    case Ok(t) => Ok(s + t)
    case Err(reason) => Err(reason)
  }

  lemma BehindNothing(r: Result<string, Reason>)
    ensures Behind("", r) == r
  {
    if r.Ok? {
      assert "" + r.value == r.value;
    }
  }

  lemma BehindBefore(s: string, c: char, r: Result<string, Reason>)
    ensures Behind(s, Before(c, r)) == Behind(s + [c], r)
  {
    if r.Ok? {
      assert s + ([c] + r.value) == s + [c] + r.value;
    }
  }

  method ParseEnvFile(text: string) returns (r: Result<map<string, string>, Malformed>)
    ensures r == Settings(Lines(Unmarked(text)))
  {
    var out: map<string, string> := map[];
    var lines := Lines(Unmarked(text));
    for i := 0 to |lines|
      invariant Settings(lines[..i]) == Ok(out)
    {
      var line := ParseLine(lines[i]);
      SettingsNext(lines, i);
      match line {
        case Err(reason) =>
          FirstErrorStays(lines, i + 1);
          return Err(Malformed(i + 1, reason));
        case Ok(Blank) =>
        case Ok(Setting(key, value)) => out := out[key := value];
      }
    }
    assert lines[..|lines|] == lines;
    r := Ok(out);
  }

  lemma SettingsNext(lines: seq<string>, n: nat)
    requires n < |lines| && Settings(lines[..n]).Ok?
    ensures Settings(lines[..n + 1]) ==
      match ParseLine(lines[n])
      case Err(reason) => Err(Malformed(n + 1, reason))
      case Ok(Blank) => Settings(lines[..n])
      case Ok(Setting(key, value)) => Ok(Settings(lines[..n]).value[key := value])
  {
    assert lines[..n + 1][..n] == lines[..n];
  }

  /** The first malformed line is the one reported. */
  lemma {:induction false} FirstErrorStays(lines: seq<string>, n: nat)
    requires n <= |lines| && Settings(lines[..n]).Err?
    ensures Settings(lines) == Settings(lines[..n])
    decreases |lines| - n
  {
    if n < |lines| {
      assert lines[..n + 1][..n] == lines[..n];
      FirstErrorStays(lines, n + 1);
    } else {
      assert lines[..n] == lines;
    }
  }

  /** What loading makes of an environment: set variables stay as they are. */
  function Merged(target: map<string, string>, parsed: map<string, string>): map<string, string> {
    parsed + target
  }

  /** Loads a file's settings.  `loaded` counts exactly the variables that were not set before. */
  method LoadPrivateEnv(target: map<string, string>, text: string)
    returns (r: Result<(map<string, string>, nat), Malformed>)
    ensures match Settings(Lines(Unmarked(text)))
      case Err(e) => r == Err(e)
      case Ok(parsed) => r == Ok((Merged(target, parsed), |parsed.Keys - target.Keys|))
  {
    var parsed := ParseEnvFile(text);
    if parsed.Err? {
      return Err(parsed.error);
    }
    var env, loaded := Merge(target, parsed.value);
    r := Ok((env, loaded));
  }

  method Merge(target: map<string, string>, parsed: map<string, string>) returns (env: map<string, string>, loaded: nat)
    ensures env == Merged(target, parsed) && loaded == |parsed.Keys - target.Keys|
  {
    env, loaded := target, 0;
    var todo := parsed.Keys;
    MergeBegins(target, parsed);
    while todo != {}
      invariant todo <= parsed.Keys && env == Merged(target, parsed - todo)
      invariant loaded + |todo - target.Keys| == |parsed.Keys - target.Keys|
    {
      var key :| key in todo;
      OneLessToDo(todo, target.Keys, key);
      MergeOneMore(target, parsed, todo, key);
      if key !in env {
        env := env[key := parsed[key]];
        loaded := loaded + 1;
      }
      todo := todo - {key};
    }
    MergeEnds(target, parsed);
  }

  lemma MergeBegins(target: map<string, string>, parsed: map<string, string>)
    ensures Merged(target, parsed - parsed.Keys) == target
  {
  }

  lemma MergeEnds(target: map<string, string>, parsed: map<string, string>)
    ensures parsed - {} == parsed && {} - target.Keys == {}
  {
  }

  lemma MergeOneMore(target: map<string, string>, parsed: map<string, string>, todo: set<string>, key: string)
    requires key in todo && todo <= parsed.Keys
    ensures key in Merged(target, parsed - todo) <==> key in target
    ensures Merged(target, parsed - (todo - {key}))
         == if key in target then Merged(target, parsed - todo) else Merged(target, parsed - todo)[key := parsed[key]]
  {
  }

  lemma OneLessToDo(todo: set<string>, already: set<string>, key: string)
    requires key in todo
    ensures |todo - {key} - already| == |todo - already| - if key in already then 0 else 1
  {
    if key in already {
      assert todo - {key} - already == todo - already;
    } else {
      assert todo - already == (todo - {key} - already) + {key};
    }
  }

  /** A second load adds none and changes nothing. */
  lemma SecondLoadAddsNone(target: map<string, string>, parsed: map<string, string>)
    ensures var once := Merged(target, parsed);
      && Merged(once, parsed) == once && parsed.Keys - once.Keys == {}
      && once.Keys - target.Keys == parsed.Keys - target.Keys
      && forall k :: k in target ==> once[k] == target[k]
  {
  }
}
