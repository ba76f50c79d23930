/** The keys a template mentions, collected by a text scan that knows nothing of tokens
    (`collectTemplatePlaceholderKeys`), against the keys of its placeholder tokens. */
module TemplateKeys {
  import opened JsText
  import opened Wrappers
  import opened ShellTokenizer
  import opened ShellResolver

  ghost predicate OccursAt(text: string, key: string, i: nat, j: nat) {
    PlaceholderAt(text, i, j) && text[i + 2..j - 2] == key
  }

  ghost predicate Occurs(text: string, key: string) {
    exists i: nat, j: nat :: OccursAt(text, key, i, j)
  }

  ghost predicate OccursBefore(text: string, key: string, limit: nat) {
    exists i: nat, j: nat :: i < limit && OccursAt(text, key, i, j)
  }

  /** Where one key has occurred, the other has not yet. */
  ghost predicate FirstBefore(text: string, first: string, second: string) {
    exists limit: nat :: OccursBefore(text, first, limit) && !OccursBefore(text, second, limit)
  }

  function KeyRunEnd(text: string, i: nat): (e: nat)
    requires i <= |text|
    ensures i <= e <= |text|
    ensures forall k :: i <= k < e ==> KeyChar(text[k])
    ensures e < |text| ==> !KeyChar(text[e])
    decreases |text| - i
  {
    if i < |text| && KeyChar(text[i]) then KeyRunEnd(text, i + 1) else i
  }

  /** Where the match that starts at `i` ends. */
  function MatchEnd(text: string, i: nat): (end: Option<nat>)
    ensures forall j: nat :: PlaceholderAt(text, i, j) <==> end == Some(j)
  {
    if i + 2 <= |text| && text[i] == '{' && text[i + 1] == '{' then
      var e := KeyRunEnd(text, i + 2);
      if e > i + 2 && e + 2 <= |text| && text[e] == '}' && text[e + 1] == '}' then Some(e + 2) else None
    else None
  }

  lemma OpensInside(text: string, i: nat, j: nat, k: nat)
    requires PlaceholderAt(text, i, j) && i < k < j && k + 1 < |text|
    ensures text[k] != '{' || text[k + 1] != '{'
  {
    assert KeyChar(text[i + 2]);
  }

  /** Matches do not overlap, so scanning on from the end of one misses none. */
  lemma NoOverlap(text: string, i: nat, j: nat, i': nat, j': nat)
    requires PlaceholderAt(text, i, j) && PlaceholderAt(text, i', j')
    requires i <= i' < j
    ensures i == i' && j == j'
  {
    if i == i' {
      assert MatchEnd(text, i) == Some(j) == Some(j');
    } else {
      OpensInside(text, i, j, i');
    }
  }

  method CollectTemplatePlaceholderKeys(template: string) returns (keys: seq<string>)
    ensures forall key :: key in keys <==> Occurs(template, key)
    ensures forall m, n :: 0 <= m < n < |keys| ==> keys[m] != keys[n] && FirstBefore(template, keys[m], keys[n])
  {
    keys := [];
    var i := 0;
    while i < |template|
      invariant 0 <= i <= |template|
      invariant forall key :: key in keys <==> OccursBefore(template, key, i)
      invariant forall m, n :: 0 <= m < n < |keys| ==> keys[m] != keys[n] && FirstBefore(template, keys[m], keys[n])
    {
      match MatchEnd(template, i) {
        case None =>
          forall key
            ensures OccursBefore(template, key, i + 1) <==> OccursBefore(template, key, i)
          {
            MissedNothing(template, key, i, i + 1);
          }
          i := i + 1;
        case Some(j) =>
          var found := template[i + 2..j - 2];
          assert OccursAt(template, found, i, j);
          forall key
            ensures OccursBefore(template, key, j) <==> OccursBefore(template, key, i) || key == found
          {
            OneMatch(template, key, i, j);
          }
          if found !in keys {
            assert forall m :: 0 <= m < |keys| ==> keys[m] in keys && FirstBefore(template, keys[m], found);
            keys := keys + [found];
          }
          i := j;
      }
    }
    forall key
      ensures OccursBefore(template, key, |template|) <==> Occurs(template, key)
    {
      if Occurs(template, key) {
        var m: nat, n: nat :| OccursAt(template, key, m, n);
        assert m < |template|;
      }
    }
  }

  lemma MissedNothing(text: string, key: string, i: nat, limit: nat)
    requires limit == i + 1 && MatchEnd(text, i).None?
    ensures OccursBefore(text, key, limit) <==> OccursBefore(text, key, i)
  {
    if OccursBefore(text, key, limit) {
      var m: nat, n: nat :| m < limit && OccursAt(text, key, m, n);
      assert m != i;
    }
    if OccursBefore(text, key, i) {
      var m: nat, n: nat :| m < i && OccursAt(text, key, m, n);
      assert m < limit;
    }
  }

  lemma OneMatch(text: string, key: string, i: nat, j: nat)
    requires PlaceholderAt(text, i, j)
    ensures OccursBefore(text, key, j) <==> OccursBefore(text, key, i) || key == text[i + 2..j - 2]
  {
    if OccursBefore(text, key, j) {
      var m: nat, n: nat :| m < j && OccursAt(text, key, m, n);
      if m >= i {
        NoOverlap(text, i, j, m, n);
      }
    }
    if OccursBefore(text, key, i) {
      var m: nat, n: nat :| m < i && OccursAt(text, key, m, n);
      assert m < j;
    }
    if key == text[i + 2..j - 2] {
      assert i < j && OccursAt(text, key, i, j);
    }
  }

  // ---------------------------------------------------------------- occurrences and concatenation

  ghost predicate Contains(text: string, p: string) {
    exists a, b :: text == a + p + b
  }

  function Braced(key: string): string {
    "{{" + key + "}}"
  }

  predicate ValidKey(key: string) {
    key != "" && forall k :: 0 <= k < |key| ==> KeyChar(key[k])
  }

  lemma OccurrenceIsBraced(text: string, key: string, i: nat, j: nat)
    requires OccursAt(text, key, i, j)
    ensures ValidKey(key) && Contains(text, Braced(key))
  {
    assert text[i..j] == Braced(key);
    assert text == text[..i] + Braced(key) + text[j..];
    assert forall k :: 0 <= k < |key| ==> key[k] == text[i + 2 + k];
  }

  lemma OccursIsContains(text: string, key: string)
    ensures Occurs(text, key) <==> ValidKey(key) && Contains(text, Braced(key))
  {
    if Occurs(text, key) {
      var i: nat, j: nat :| OccursAt(text, key, i, j);
      OccurrenceIsBraced(text, key, i, j);
    }
    if ValidKey(key) && Contains(text, Braced(key)) {
      var a, b :| text == a + Braced(key) + b;
      BracedIsPlaceholder(a, key, b);
    }
  }

  lemma BracedIsPlaceholder(a: string, key: string, b: string)
    requires ValidKey(key)
    ensures OccursAt(a + Braced(key) + b, key, |a|, |a| + |key| + 4)
  {
    var text := a + Braced(key) + b;
    var i, j := |a|, |a| + |key| + 4;
    assert text[i..j] == Braced(key);
    assert text[i..j][2..|key| + 2] == key == text[i + 2..j - 2];
    forall k | i + 2 <= k < j - 2
      ensures KeyChar(text[k])
    {
      assert text[k] == key[k - i - 2];
    }
    assert text[i] == text[i..j][0] && text[i + 1] == text[i..j][1];
    assert text[j - 2] == text[i..j][|key| + 2] && text[j - 1] == text[i..j][|key| + 3];
  }

  lemma ContainsShift(a: string, b: string, c: string, p: string)
    requires Contains(b, p)
    ensures Contains(a + b + c, p)
  {
    var x, y :| b == x + p + y;
    assert a + b + c == (a + x) + p + (y + c);
  }

  lemma SpaceOutside(x: string, p: string, y: string, k: nat)
    requires k < |x + p + y| && IsSpace((x + p + y)[k])
    requires forall m :: 0 <= m < |p| ==> !IsSpace(p[m])
    ensures k < |x| || |x| + |p| <= k
  {
    assert forall m :: 0 <= m < |p| ==> (x + p + y)[|x| + m] == p[m];
  }

  lemma PieceOnOneSide(a: string, w: string, b: string, x: string, p: string, y: string)
    requires a + w + b == x + p + y
    ensures |x| + |p| <= |a| ==> Contains(a, p)
    ensures |x| >= |a| + |w| ==> Contains(b, p)
  {
    var text := x + p + y;
    if |x| + |p| <= |a| {
      assert a == text[..|a|] == x + p + text[|x| + |p|..|a|];
    }
    if |x| >= |a| + |w| {
      assert b == text[|a| + |w|..] == x[|a| + |w|..] + p + y;
    }
  }

  /** Text without white space cannot span white space. */
  lemma ContainsAroundSpace(a: string, w: string, b: string, p: string)
    requires w != "" && AllSpace(w)
    requires p != "" && forall k :: 0 <= k < |p| ==> !IsSpace(p[k])
    requires Contains(a + w + b, p)
    ensures Contains(a, p) || Contains(b, p)
  {
    var x, y :| a + w + b == x + p + y;
    PieceOnOneSide(a, w, b, x, p, y);
    assert (a + w + b)[|a|] == w[0];
    SpaceOutside(x, p, y, |a|);
    if |a| <= |x| < |a| + |w| {
      assert (a + w + b)[|x|] == w[|x| - |a|];
      SpaceOutside(x, p, y, |x|);
    }
  }

  lemma {:induction false} ContainedInSomeToken(ts: seq<Token>, p: string)
    requires WellFormed(ts, true)
    requires p != "" && forall k :: 0 <= k < |p| ==> !IsSpace(p[k])
    requires Contains(Join(ts), p)
    ensures exists k :: 0 <= k < |ts| && Contains(ts[k].raw, p)
  {
    if ts != [] {
      var n := |ts| - 1;
      var front, t := ts[..n], ts[n];
      assert WellSeparated(t, n == 0);
      if t.sep == "" {
        assert Join(ts) == t.raw;
      } else {
        ContainsAroundSpace(Join(front), t.sep, t.raw, p);
        if !Contains(t.raw, p) {
          WellFormedFront(ts);
          WellFormedWeaken(front, true);
          ContainedInSomeToken(front, p);
          var k :| 0 <= k < |front| && Contains(front[k].raw, p);
          assert ts[k] == front[k];
        }
      }
    }
  }

  lemma {:induction false} TokenContainedInJoin(ts: seq<Token>, k: nat)
    requires k < |ts|
    ensures Contains(Join(ts), ts[k].raw)
  {
    var n := |ts| - 1;
    var front, t := ts[..n], ts[n];
    if k == n {
      assert Join(ts) == (Join(front) + t.sep) + t.raw + "";
    } else {
      TokenContainedInJoin(front, k);
      ContainsShift("", Join(front), t.sep + t.raw, ts[k].raw);
      assert Join(ts) == "" + Join(front) + (t.sep + t.raw);
    }
  }

  // ---------------------------------------------------------------- from raw text to segments

  /** `p` was read whole: it is inside the text being read or inside a finished segment. */
  ghost predicate Holds(part: Partial, p: string) {
    || Contains(part.current, p)
    || exists k :: 0 <= k < |part.segments| && Contains(part.segments[k].text, p)
  }

  lemma HoldsAfterRead(part: Partial, p: string, c: char)
    requires p != "" && Holds(part, p)
    ensures Holds(part.Read(c), p)
  {
    var next := part.Read(c);
    if Contains(part.current, p) {
      assert part.current != "";
      if next.current == part.current + [c] {
        ContainsShift("", part.current, [c], p);
        assert "" + part.current + [c] == next.current;
      } else if next.current != part.current {
        assert next.segments[|part.segments|].text == part.current;
      }
    } else {
      var k :| 0 <= k < |part.segments| && Contains(part.segments[k].text, p);
      assert next.segments[k].text == part.segments[k].text;
    }
  }

  lemma HoldsInSegments(part: Partial, p: string)
    requires p != "" && Holds(part, p)
    ensures exists k :: 0 <= k < |part.Segments()| && Contains(part.Segments()[k].text, p)
  {
    if Contains(part.current, p) {
      assert part.current != "";
      assert part.Segments()[|part.segments|].text == part.current;
    } else {
      var k :| 0 <= k < |part.segments| && Contains(part.segments[k].text, p);
      assert part.Segments()[k] == part.segments[k];
    }
  }

  /** Neither a quote, nor a backslash, nor white space. */
  predicate Ordinary(c: char) {
    c != '\'' && c != '"' && c != '\\' && !IsSpace(c)
  }

  predicate AllOrdinary(p: string) {
    forall k :: 0 <= k < |p| ==> Ordinary(p[k])
  }

  /** A scan that has just read `p`: the text being read ends with it. */
  ghost predicate JustRead(r: Scan, p: string) {
    && r.part.mode != Escaped && (r.part.mode == Bare ==> !r.part.currentQuoted)
    && |p| <= |r.part.current| && r.part.current[|r.part.current| - |p|..] == p
  }

  /** An escape outside quotes goes into unquoted text. */
  ghost predicate EscapesUnquoted(part: Partial) {
    part.mode == Escaped ==> !part.currentQuoted
  }

  lemma ReadOneOrdinary(s: Scan, c: char)
    requires Ordinary(c) && EscapesUnquoted(s.part)
    ensures JustRead(s.Read(c), [c])
  {
  }

  lemma ReadAnotherOrdinary(s: Scan, p: string, c: char)
    requires Ordinary(c) && JustRead(s, p)
    ensures JustRead(s.Read(c), p + [c])
  {
    assert s.Read(c).part.current == s.part.current + [c];
  }

  lemma {:induction false} ReadOrdinary(s: Scan, p: string)
    requires p != "" && AllOrdinary(p) && EscapesUnquoted(s.part)
    ensures JustRead(Run(s, p), p)
  {
    var front, c := p[..|p| - 1], p[|p| - 1];
    assert p == front + [c];
    if front == "" {
      ReadOneOrdinary(s, c);
    } else {
      ReadOrdinary(s, front);
      ReadAnotherOrdinary(Run(s, front), front, c);
    }
  }

  lemma {:induction false} HoldsAfterRun(s: Scan, p: string, rest: string)
    requires p != "" && Holds(s.part, p)
    requires Run(s, rest).tokens == [] && Run(s, rest).sep == ""
    ensures Holds(Run(s, rest).part, p)
  {
    if rest != "" {
      HoldsAfterRun(s, p, rest[..|rest| - 1]);
      HoldsAfterRead(Run(s, rest[..|rest| - 1]).part, p, rest[|rest| - 1]);
    }
  }

  lemma {:induction false} AlwaysEscapesUnquoted(text: string)
    ensures EscapesUnquoted(Run(START, text).part)
  {
    if text != "" {
      AlwaysEscapesUnquoted(text[..|text| - 1]);
    }
  }

  lemma EndsContain(text: string, p: string)
    requires |p| <= |text| && text[|text| - |p|..] == p
    ensures Contains(text, p)
  {
    assert text == text[..|text| - |p|] + p + "";
  }

  /** An ordinary text inside the raw text of a token is in one of its segments. */
  lemma ContainedInSegment(t: Token, p: string)
    requires Genuine(t, true) && Contains(t.raw, p) && p != "" && AllOrdinary(p)
    ensures exists k :: 0 <= k < |t.segments| && Contains(t.segments[k].text, p)
  {
    var a, b :| t.raw == a + p + b;
    RunConcat(START, a + p, b);
    RunConcat(START, a, p);
    AlwaysEscapesUnquoted(a);
    ReadOrdinary(Run(START, a), p);
    var s := Run(START, a + p);
    EndsContain(s.part.current, p);
    HoldsAfterRun(s, p, b);
    HoldsInSegments(Run(s, b).part, p);
  }

  ghost predicate NothingQuoted(part: Partial) {
    !part.currentQuoted && forall k :: 0 <= k < |part.segments| ==> !part.segments[k].quoted
  }

  lemma StaysQuoted(part: Partial, c: char)
    requires !NothingQuoted(part)
    ensures !NothingQuoted(part.Read(c))
  {
    var next := part.Read(c);
    if part.currentQuoted {
      if !next.currentQuoted {
        assert next.segments[|part.segments|].quoted;
      }
    } else {
      var k :| 0 <= k < |part.segments| && part.segments[k].quoted;
      assert next.segments[k] == part.segments[k];
    }
  }

  lemma ReadUnquoted(part: Partial, text: string, c: char)
    requires part.segments == [] && part.current == text && part.mode == Bare && !part.currentQuoted
    requires c != '\\' && NothingQuoted(part.Read(c))
    ensures var next := part.Read(c); next.segments == [] && next.current == text + [c] && next.mode == Bare
  {
  }

  /** As long as no quote has been read, the raw text is the text it stands for. */
  lemma {:induction false} RawIsText(text: string)
    requires '\\' !in text
    requires var s := Run(START, text); s.tokens == [] && s.sep == "" && NothingQuoted(s.part)
    ensures var part := Run(START, text).part; part.segments == [] && part.current == text && part.mode == Bare
  {
    if text != "" {
      var front, c := text[..|text| - 1], text[|text| - 1];
      assert text == front + [c] && c in text;
      var r := Run(START, front);
      if !NothingQuoted(r.part) {
        StaysQuoted(r.part, c);
      } else {
        RawIsText(front);
        ReadUnquoted(r.part, front, c);
      }
    }
  }

  // ---------------------------------------------------------------- the theorem

  ghost predicate TokenKey(t: Token, key: string) {
    HasPlaceholder(t) && PlaceholderKey(t) == Some(key)
  }

  /** The raw text of an accepted placeholder token is exactly the placeholder. */
  lemma TokenKeyRaw(t: Token, key: string)
    requires Genuine(t, true) && '\\' !in t.raw && PlaceholderKey(t) == Some(key)
    ensures ValidKey(key) && t.raw == Braced(key)
  {
    var part := Run(START, t.raw).part;
    SingleBareSegment(part, t.segments[0].text);
    RawIsText(t.raw);
    var text := t.segments[0].text;
    assert text == t.raw;
    assert OccursAt(text, key, 0, |text|);
    OccursIsContains(text, key);
    assert text == text[0..|text|] == Braced(key);
  }

  lemma SegmentsShape(part: Partial)
    ensures part.Segments() ==
      if part.currentQuoted then part.segments + [Segment(true, part.current)]
      else if part.current != "" then part.segments + [Segment(false, part.current)]
      else part.segments
  {
  }

  lemma SingleBareSegment(part: Partial, text: string)
    requires part.Segments() == [Segment(false, text)]
    ensures NothingQuoted(part) && (part.segments == [] ==> part.current == text)
  {
    SegmentsShape(part);
    assert part.Segments()[0] == Segment(false, text);
    assert forall k :: 0 <= k < |part.segments| ==> part.Segments()[k] == part.segments[k];
  }

  lemma ExactKeyIsUnique(t: Token, key: string)
    requires PlaceholderKey(t).Some? && Occurs(t.segments[0].text, key)
    ensures PlaceholderKey(t) == Some(key)
  {
    var text := t.segments[0].text;
    var i: nat, j: nat :| OccursAt(text, key, i, j);
    NoOverlap(text, 0, |text|, i, j);
  }

  lemma BracedIsOrdinary(key: string)
    requires ValidKey(key)
    ensures AllOrdinary(Braced(key))
  {
    forall k | 0 <= k < |Braced(key)|
      ensures Ordinary(Braced(key)[k])
    {
      if 2 <= k < |key| + 2 {
        assert Braced(key)[k] == key[k - 2];
      }
    }
  }

  lemma OccurrenceMakesTokenKey(t: Token, key: string)
    requires Genuine(t, true) && GrammarError(t).None?
    requires ValidKey(key) && Contains(t.raw, Braced(key))
    ensures TokenKey(t, key)
  {
    BracedIsOrdinary(key);
    ContainedInSegment(t, Braced(key));
    var k :| 0 <= k < |t.segments| && Contains(t.segments[k].text, Braced(key));
    OccursIsContains(t.segments[k].text, key);
    var i: nat, j: nat :| OccursAt(t.segments[k].text, key, i, j);
    assert ContainsPlaceholder(t.segments[k].text);
    assert HasPlaceholder(t);
    ExactKeyIsUnique(t, key);
  }

  lemma SubstringChars(text: string, p: string)
    requires Contains(text, p)
    ensures forall c :: c in p ==> c in text
  {
    var a, b :| text == a + p + b;
  }

  lemma NothingInEmpty(p: string)
    requires Contains("", p)
    ensures p == ""
  {
    var a, b :| "" == a + p + b;
    assert |a + p + b| == |a| + |p| + |b|;
  }

  lemma NotInBackslash(p: string)
    requires p != "" && AllOrdinary(p)
    ensures !Contains("\\", p)
  {
    forall a: string, b: string
      ensures "\\" != a + p + b
    {
      assert |a + p + b| == |a| + |p| + |b|;
      assert (a + p + b)[|a|] == p[0];
    }
  }

  lemma NotAroundSpace(body: string, w: string, rest: string, p: string)
    requires AllSpace(w) && w != "" && p != "" && AllOrdinary(p) && Contains(body + w + rest, p) && !Contains(rest, p)
    ensures Contains(body, p)
  {
    ContainsAroundSpace(body, w, rest, p);
  }

  /** The tail that tokenizing drops holds no ordinary text. */
  lemma NotInTail(ts: seq<Token>, tail: string, p: string)
    requires DroppedTail(tail, ts) && p != "" && AllOrdinary(p) && Contains(Join(ts) + tail, p)
    ensures Contains(Join(ts), p)
  {
    var body := Join(ts);
    NotInBackslash(p);
    if tail == "" {
      assert body + tail == body;
    } else if AllSpace(tail) {
      if !Contains("", p) {
        assert body + tail == body + tail + "";
        NotAroundSpace(body, tail, "", p);
      } else {
        NothingInEmpty(p);
      }
    } else {
      var w := tail[..|tail| - 1];
      assert body + tail == body + w + "\\";
      if w != "" {
        NotAroundSpace(body, w, "\\", p);
      }
    }
  }

  lemma TokenInTemplate(template: string, ts: seq<Token>, tail: string, k: nat)
    requires template == Join(ts) + tail && k < |ts|
    ensures Contains(template, ts[k].raw)
  {
    TokenContainedInJoin(ts, k);
    ContainsLonger(Join(ts), tail, ts[k].raw);
  }

  lemma ContainsLonger(text: string, tail: string, p: string)
    requires Contains(text, p)
    ensures Contains(text + tail, p)
  {
    ContainsShift("", text, tail, p);
    assert "" + text + tail == text + tail;
  }

  /** Where the collector finds a key: some placeholder token of that key has it written out, with no
      backslash inside. */
  ghost predicate WrittenOut(ts: seq<Token>, key: string) {
    exists k :: 0 <= k < |ts| && TokenKey(ts[k], key) && Contains(ts[k].raw, Braced(key))
  }

  lemma OccurrenceIsWrittenOut(template: string, key: string)
    requires forall k :: 0 <= k < |Tokenize(template)| ==> GrammarError(Tokenize(template)[k]).None?
    requires Occurs(template, key)
    ensures WrittenOut(Tokenize(template), key)
  {
    var tail := JoinTokenize(template);
    var ts := Tokenize(template);
    OccursIsContains(template, key);
    BracedIsOrdinary(key);
    NotInTail(ts, tail, Braced(key));
    ContainedInSomeToken(ts, Braced(key));
    var k :| 0 <= k < |ts| && Contains(ts[k].raw, Braced(key));
    assert Genuine(ts[k], true && k == |ts| - 1);
    OccurrenceMakesTokenKey(ts[k], key);
  }

  lemma {:induction false} ContainsWithin(text: string, part: string, p: string)
    requires Contains(text, part) && Contains(part, p)
    ensures Contains(text, p)
  {
    var a, b :| text == a + part + b;
    ContainsShift(a, part, b, p);
  }

  /** For a template the grammar check accepts, a key is collected exactly when one of its placeholder
      tokens has it written out.  A key that is resolved, but only behind backslashes, is missed. */
  lemma CollectedIffWrittenOut(template: string, key: string)
    requires forall k :: 0 <= k < |Tokenize(template)| ==> GrammarError(Tokenize(template)[k]).None?
    ensures Occurs(template, key) <==> WrittenOut(Tokenize(template), key)
  {
    var ts := Tokenize(template);
    if Occurs(template, key) {
      OccurrenceIsWrittenOut(template, key);
    }
    if WrittenOut(ts, key) {
      var k :| 0 <= k < |ts| && TokenKey(ts[k], key) && Contains(ts[k].raw, Braced(key));
      WrittenOutOccurs(template, key, k);
    }
  }

  lemma WrittenOutOccurs(template: string, key: string, k: nat)
    requires k < |Tokenize(template)|
    requires TokenKey(Tokenize(template)[k], key) && Contains(Tokenize(template)[k].raw, Braced(key))
    ensures Occurs(template, key)
  {
    var ts := Tokenize(template);
    var tail := JoinTokenize(template);
    TokenInTemplate(template, ts, tail, k);
    ContainsWithin(template, ts[k].raw, Braced(key));
    TokenKeyValid(ts[k], key);
    OccursIsContains(template, key);
  }

  lemma TokenKeyValid(t: Token, key: string)
    requires PlaceholderKey(t) == Some(key)
    ensures ValidKey(key)
  {
    var text := t.segments[0].text;
    assert PlaceholderAt(text, 0, |text|) && key == text[2..|text| - 2];
    assert forall k :: 0 <= k < |key| ==> key[k] == text[k + 2];
  }

  lemma BackslashFreeRaw(template: string, k: nat)
    requires '\\' !in template && k < |Tokenize(template)|
    ensures '\\' !in Tokenize(template)[k].raw && Genuine(Tokenize(template)[k], true)
  {
    var tail := JoinTokenize(template);
    var ts := Tokenize(template);
    assert Genuine(ts[k], true && k == |ts| - 1);
    TokenInTemplate(template, ts, tail, k);
    SubstringChars(template, ts[k].raw);
  }

  /** Without backslashes the collected keys are exactly the ones resolution will look up. */
  lemma CollectedKeysAreTokenKeys(template: string, key: string)
    requires '\\' !in template
    requires forall k :: 0 <= k < |Tokenize(template)| ==> GrammarError(Tokenize(template)[k]).None?
    ensures Occurs(template, key) <==>
      exists k :: 0 <= k < |Tokenize(template)| && TokenKey(Tokenize(template)[k], key)
  {
    var ts := Tokenize(template);
    CollectedIffWrittenOut(template, key);
    if k :| 0 <= k < |ts| && TokenKey(ts[k], key) {
      BackslashFreeRaw(template, k);
      TokenKeyRaw(ts[k], key);
      assert ts[k].raw == "" + Braced(key) + "";
      assert Contains(ts[k].raw, Braced(key));
    }
  }

  // ---------------------------------------------------------------- a stripped prompt behind an escaped space

  lemma {:induction false} OrdinaryRuns(text: string)
    requires AllOrdinary(text)
    ensures Run(START, text) == START.(part := Partial([], text, false, text, Bare))
  {
    if text != "" {
      OrdinaryRuns(text[..|text| - 1]);
      assert text == text[..|text| - 1] + [text[|text| - 1]];
    }
  }

  function BracedToken(sep: string, key: string): Token {
    Token(sep, Braced(key), [Segment(false, Braced(key))])
  }

  lemma BracedIsGenuine(sep: string, key: string)
    requires ValidKey(key)
    ensures Genuine(BracedToken(sep, key), false)
  {
    BracedIsOrdinary(key);
    OrdinaryRuns(Braced(key));
  }

  lemma BracedHasKey(sep: string, key: string)
    requires ValidKey(key)
    ensures TokenKey(BracedToken(sep, key), key)
  {
    var text := Braced(key);
    BracedIsPlaceholder("", key, "");
    assert "" + text + "" == text;
    assert OccursAt(text, key, 0, |text|);
    assert ContainsPlaceholder(BracedToken(sep, key).segments[0].text);
  }

  lemma BracedTokenKey(sep: string, key: string)
    requires ValidKey(key)
    ensures Genuine(BracedToken(sep, key), false) && TokenKey(BracedToken(sep, key), key)
  {
    BracedIsGenuine(sep, key);
    BracedHasKey(sep, key);
  }

  lemma PairWellFormed(a: Token, b: Token)
    requires Genuine(a, false) && Genuine(b, false) && WellSeparated(a, true) && WellSeparated(b, false)
    ensures WellFormed([a, b], true)
  {
  }

  /** A word that ends in an escaped space. */
  const SPACED := Token("", ['a', '\\', ' '], [Segment(false, ['a', ' '])])

  lemma SpacedTokenizes()
    ensures Genuine(SPACED, false)
  {
    RunFirstChar('a');
    RunOneMore(START, ['a'], '\\');
    RunOneMore(START, ['a'] + ['\\'], ' ');
    assert SPACED.raw == ['a'] + ['\\'] + [' '];
    assert Run(START, SPACED.raw).part.current == "" + ['a'] + [' '] == ['a', ' '];
  }

  const SPACED_TEMPLATE: seq<Token> := [SPACED, BracedToken(" ", "prompt")]

  lemma PromptIsStripped(bindings: Bindings, options: Options)
    requires options.stripPrompt
    ensures Emitted(SPACED_TEMPLATE[1], bindings, options) == Strip
  {
    BracedTokenKey(" ", "prompt");
  }

  lemma PromptStripped(bindings: Bindings, options: Options)
    requires options.stripPrompt
    ensures Substituted(SPACED_TEMPLATE, bindings, options) == Ok(([SPACED], true))
  {
    PromptIsStripped(bindings, options);
    SpacedKept(bindings, options);
    SubstitutedNext(SPACED_TEMPLATE, 1, bindings, options);
    assert SPACED_TEMPLATE[..1] == [SPACED] && SPACED_TEMPLATE[..2] == SPACED_TEMPLATE;
  }

  lemma SpacedKept(bindings: Bindings, options: Options)
    ensures Substituted([SPACED], bindings, options) == Ok(([SPACED], false))
  {
    assert !HasPlaceholder(SPACED);
    assert [SPACED][..0] == [] && [] + [SPACED] == [SPACED];
  }

  lemma SpacedTrims()
    ensures Join([SPACED]) == SPACED.raw && Trim(SPACED.raw) == ['a', '\\']
  {
    JoinAppend([], SPACED);
    assert [] + [SPACED] == [SPACED];
    assert TrimStart(SPACED.raw) == SPACED.raw;
    assert SPACED.raw[..2] == ['a', '\\'];
    assert TrimEnd(['a', '\\']) == ['a', '\\'];
  }

  lemma SpacedTemplateTokenizes()
    ensures Tokenize(Join(SPACED_TEMPLATE)) == SPACED_TEMPLATE
  {
    SpacedTokenizes();
    BracedIsGenuine(" ", "prompt");
    PairWellFormed(SPACED, BracedToken(" ", "prompt"));
    TokenizeJoin(SPACED_TEMPLATE);
  }

  lemma SpacedScriptDiffers()
    ensures Tokenize(Trim(Join([SPACED]))) != [SPACED]
  {
    SpacedTokenizes();
    assert WellFormed([SPACED], true);
    TrimmedJoin([SPACED]);
    assert WithoutLeadingSep([SPACED]) == [SPACED];
  }

  /** A word that ends in an escaped space, with a prompt behind it: when the prompt is stripped,
      trimming takes the escaped space too, and the script is no longer the kept token. */
  lemma StrippingLosesEscapedSpace(bindings: Bindings, options: Options)
    requires options.stripPrompt
    ensures Substituted(Tokenize(Join(SPACED_TEMPLATE)), bindings, options) == Ok(([SPACED], true))
    ensures Trim(Join([SPACED])) == ['a', '\\'] && Tokenize(Trim(Join([SPACED]))) != [SPACED]
  {
    SpacedTemplateTokenizes();
    PromptStripped(bindings, options);
    SpacedTrims();
    SpacedScriptDiffers();
  }
}
