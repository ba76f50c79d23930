/** Space ids come with or without their prefix (`packages/hub-daemon/src/space-id.ts`). */
module SpaceIds {

  function Bare(space: string): string {
    if space == "bootstrap" then space
    else if "spc_" <= space then space[4..]
    else space
  }

  function Prefixed(space: string): string {
    if "spc_" <= space then space else "spc_" + space
  }

  /** An id without the prefix, which stripping leaves alone. */
  predicate IsBare(space: string) {
    Bare(space) == space
  }

  /** Stripping the prefix once is enough: the prefix does not come twice. */
  predicate PrefixedOnce(space: string) {
    IsBare(Bare(space))
  }

  /** A character of `[0-9A-HJKMNP-TV-Z]`. */
  predicate UlidChar(c: char) {
    '0' <= c <= '9' || 'A' <= c <= 'H' || c == 'J' || c == 'K' || c == 'M' || c == 'N' || 'P' <= c <= 'T' || 'V' <= c <= 'Z'
  }

  predicate IsUlid(s: string) {
    |s| == 26 && forall k :: 0 <= k < |s| ==> UlidChar(s[k])
  }

  /** What the schema of space ids accepts (`packages/contracts/src/ids.ts`). */
  predicate IsSpaceId(s: string) {
    "spc_" <= s && IsUlid(s[4..])
  }

  /** An id of that form, with or without its prefix, carries it once at most. */
  lemma SchemaIdsPrefixedOnce(s: string)
    requires IsUlid(s) || IsSpaceId(s)
    ensures PrefixedOnce(s) && IsUlid(Bare(s))
  {
    var ulid := if IsUlid(s) then s else s[4..];
    assert UlidChar(ulid[0]) && ulid[0] != 's' && ulid[0] != 'b';
    assert !("spc_" <= ulid);
  }

  lemma BareIs(a: string)
    ensures if "spc_" <= a then a == "spc_" + Bare(a) else Bare(a) == a
  {
    if a == "bootstrap" {
      assert a[0] == 'b';
    }
  }

  /** The two ids are one, or one is the other with the prefix before it. */
  predicate NameSameSpace(a: string, b: string) {
    a == b || (a == "spc_" + b && !("spc_" <= b)) || (b == "spc_" + a && !("spc_" <= a))
  }

  /** Ids are compared without their prefix: they name the same space with or without it. */
  lemma BareAgreeIff(a: string, b: string)
    ensures Bare(a) == Bare(b) <==> NameSameSpace(a, b)
  {
    BareIs(a);
    BareIs(b);
    assert ("spc_" + a)[4..] == a && ("spc_" + b)[4..] == b;
  }

  /** Adding the prefix gives an id that has it and names the same space. */
  lemma PrefixedIs(a: string)
    ensures "spc_" <= Prefixed(a) && NameSameSpace(Prefixed(a), a)
    ensures forall b :: "spc_" <= b && NameSameSpace(b, a) ==> b == Prefixed(a)
  {
    assert "spc_" <= "spc_" + a;
  }
}
