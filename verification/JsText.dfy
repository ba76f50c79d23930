/** The two string facilities of the host language that several components lean on:
    the whitespace class of its regular expressions and `trim`. */
module JsText {

  /** The characters matched by `\s` (and removed by `trim`). */
  predicate IsSpace(c: char) {
    || '\t' <= c <= '\r'
    || c == ' ' || c == '\U{A0}' || c == '\U{1680}'
    || '\U{2000}' <= c <= '\U{200A}'
    || c == '\U{2028}' || c == '\U{2029}' || c == '\U{202F}' || c == '\U{205F}'
    || c == '\U{3000}' || c == '\U{FEFF}'
  }

  predicate AllSpace(s: string) {
    forall i :: 0 <= i < |s| ==> IsSpace(s[i])
  }

  predicate EndsInSpace(s: string) {
    s != "" && IsSpace(s[|s| - 1])
  }

  function TrimStart(s: string): string {
    if s != "" && IsSpace(s[0]) then TrimStart(s[1..]) else s
  }

  function TrimEnd(s: string): string {
    if EndsInSpace(s) then TrimEnd(s[..|s| - 1]) else s
  }

  function Trim(s: string): string {
    TrimEnd(TrimStart(s))
  }

  lemma {:induction false} TrimStartOfPadded(w: string, s: string)
    requires AllSpace(w)
    requires s != "" ==> !IsSpace(s[0])
    ensures TrimStart(w + s) == s
  {
    if w == "" {
      assert w + s == s;
    } else {
      assert (w + s)[1..] == w[1..] + s;
      TrimStartOfPadded(w[1..], s);
    }
  }

  lemma {:induction false} TrimEndSplit(s: string) returns (w: string)
    ensures AllSpace(w) && s == TrimEnd(s) + w
    ensures !EndsInSpace(TrimEnd(s))
    ensures w == "" <==> !EndsInSpace(s)
  {
    if EndsInSpace(s) {
      var u := TrimEndSplit(s[..|s| - 1]);
      w := u + [s[|s| - 1]];
      assert s == s[..|s| - 1] + [s[|s| - 1]];
    } else {
      w := "";
    }
  }

  lemma {:induction false} TrimStartSplit(s: string) returns (w: string)
    ensures AllSpace(w) && s == w + TrimStart(s)
    ensures TrimStart(s) != "" ==> !IsSpace(TrimStart(s)[0])
  {
    if s != "" && IsSpace(s[0]) {
      var u := TrimStartSplit(s[1..]);
      w := [s[0]] + u;
      assert s == [s[0]] + s[1..];
    } else {
      w := "";
    }
  }

  /** Trimming is idempotent: what `trim` returned has no white space at either end. */
  lemma TrimmedHasNoEdges(s: string)
    ensures !EndsInSpace(Trim(s)) && (Trim(s) != "" ==> !IsSpace(Trim(s)[0]))
    ensures TrimEnd(Trim(s)) == Trim(s) && Trim(Trim(s)) == Trim(s)
  {
    var u := TrimStartSplit(s);
    var w := TrimEndSplit(TrimStart(s));
    var v := TrimEndSplit(Trim(s));
    if Trim(s) != "" {
      assert TrimStart(s)[0] == Trim(s)[0];
    }
  }

  lemma {:induction false} TrimStartOfSpace(text: string)
    requires AllSpace(text)
    ensures TrimStart(text) == ""
  {
    if text != "" {
      TrimStartOfSpace(text[1..]);
    }
  }

  lemma {:induction false} TrimEndOfPadded(value: string, behind: string)
    requires value != "" && !IsSpace(value[|value| - 1]) && AllSpace(behind)
    ensures TrimEnd(value + behind) == value
  {
    if behind == "" {
      assert value + behind == value;
    } else {
      var n := |behind| - 1;
      assert (value + behind)[..|value + behind| - 1] == value + behind[..n];
      assert (value + behind)[|value + behind| - 1] == behind[n];
      TrimEndOfPadded(value, behind[..n]);
    }
  }

  // ---------------------------------------------------------------- what trimming is

  /** `text` is `core` with white space around it, and `core` has none at its ends. */
  ghost predicate IsTrimmed(text: string, core: string) {
    && (exists a, b :: AllSpace(a) && AllSpace(b) && text == a + (core + b))
    && (core != "" ==> !IsSpace(core[0]) && !IsSpace(core[|core| - 1]))
  }

  lemma TrimIs(text: string)
    ensures IsTrimmed(text, Trim(text))
  {
    var a := TrimStartSplit(text);
    var b := TrimEndSplit(TrimStart(text));
    TrimmedHasNoEdges(text);
    assert text == a + (Trim(text) + b);
  }

  /** There is only one such core, and it is what trimming leaves. */
  lemma TrimIff(text: string, core: string)
    ensures IsTrimmed(text, core) <==> core == Trim(text)
  {
    TrimIs(text);
    if IsTrimmed(text, core) {
      var a, b :| AllSpace(a) && AllSpace(b) && text == a + (core + b);
      if core == "" {
        TrimStartOfSpace(text);
      } else {
        assert (core + b)[0] == core[0];
        TrimStartOfPadded(a, core + b);
        TrimEndOfPadded(core, b);
      }
    }
  }

  /** The white space of the host language, by its codes: tab to carriage return, space, the no-break
      spaces, the spaces of general punctuation, and the byte-order mark. */
  lemma IsSpaceIff(c: char)
    ensures IsSpace(c) <==>
      || 9 <= c as int <= 13 || c as int == 32 || c as int == 160 || c as int == 5760
      || 8192 <= c as int <= 8202 || c as int == 8232 || c as int == 8233 || c as int == 8239
      || c as int == 8287 || c as int == 12288 || c as int == 65279
  {
  }
}
