/** Slot names inside the paths of contract errors (`packages/contracts/src/branch-validation.ts`). */
module JsonPointer {

  function ReplaceAll(s: string, c: char, text: string): string {
    if s == "" then "" else (if s[0] == c then text else [s[0]]) + ReplaceAll(s[1..], c, text)
  }

  function EscapeJsonPointer(value: string): string {
    ReplaceAll(ReplaceAll(value, '~', "~0"), '/', "~1")
  }

  /** How a reader of RFC 6901 (section 4) decodes a reference token. */
  function Unescape(s: string): string {
    if s == "" then ""
    else if "~1" <= s then "/" + Unescape(s[2..])
    else if "~0" <= s then "~" + Unescape(s[2..])
    else [s[0]] + Unescape(s[1..])
  }

  function EscapedChar(c: char): string {
    if c == '~' then "~0" else if c == '/' then "~1" else [c]
  }

  lemma {:induction false} ReplaceConcat(a: string, b: string, c: char, text: string)
    ensures ReplaceAll(a + b, c, text) == ReplaceAll(a, c, text) + ReplaceAll(b, c, text)
  {
    if a == "" {
      assert a + b == b;
    } else {
      assert (a + b)[1..] == a[1..] + b;
      ReplaceConcat(a[1..], b, c, text);
      var first := if a[0] == c then text else [a[0]];
      assert first + (ReplaceAll(a[1..], c, text) + ReplaceAll(b, c, text))
          == first + ReplaceAll(a[1..], c, text) + ReplaceAll(b, c, text);
    }
  }

  lemma CharEscapes(c: char)
    ensures ReplaceAll(if c == '~' then "~0" else [c], '/', "~1") == EscapedChar(c)
  {
    if c == '~' {
      assert "~0"[1..] == "0" && "0"[1..] == "";
      assert ReplaceAll("0", '/', "~1") == "0";
    } else {
      assert [c][1..] == "";
    }
  }

  /** The two passes escape character by character. */
  lemma EscapeNext(value: string)
    requires value != ""
    ensures EscapeJsonPointer(value) == EscapedChar(value[0]) + EscapeJsonPointer(value[1..])
  {
    var first := if value[0] == '~' then "~0" else [value[0]];
    ReplaceConcat(first, ReplaceAll(value[1..], '~', "~0"), '/', "~1");
    CharEscapes(value[0]);
  }

  lemma UnescapeNext(c: char, rest: string)
    ensures Unescape(EscapedChar(c) + rest) == [c] + Unescape(rest)
  {
    var s := EscapedChar(c) + rest;
    assert s[|EscapedChar(c)|..] == rest && s[0] == EscapedChar(c)[0];
    if c == '~' || c == '/' {
      assert s[1] == EscapedChar(c)[1];
      assert c == '/' ==> "~1" <= s;
      assert c == '~' ==> "~0" <= s;
    }
  }

  /** A slot's name can be read back from the path, and never adds a step to it. */
  lemma {:induction false} EscapeRoundTrips(value: string)
    ensures Unescape(EscapeJsonPointer(value)) == value
    ensures '/' !in EscapeJsonPointer(value)
  {
    if value != "" {
      EscapeNext(value);
      EscapeRoundTrips(value[1..]);
      UnescapeNext(value[0], EscapeJsonPointer(value[1..]));
      assert [value[0]] + value[1..] == value;
    }
  }
}
