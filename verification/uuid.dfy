/** The order-id shape check of `validateUUID`: the anchored, case-insensitive
    pattern `[0-9a-f]{8}-[0-9a-f]{4}-[0-5][0-9a-f]{3}-[089ab][0-9a-f]{3}-[0-9a-f]{12}`,
    written as a sequence of character classes and a matcher. */
module Uuid {

  /** One position of the pattern. */
  datatype CharClass =
    | Hex      // [0-9a-f]
    | Dash     // -
    | Version  // [0-5]
    | Variant  // [089ab]

  function Repeat(k: CharClass, n: nat): (r: seq<CharClass>)
    ensures |r| == n
    ensures forall i :: 0 <= i < n ==> r[i] == k
  {
    if n == 0 then [] else [k] + Repeat(k, n - 1)
  }

  const Pattern: seq<CharClass> :=
    Repeat(Hex, 8) + [Dash] + Repeat(Hex, 4) + [Dash, Version] + Repeat(Hex, 3)
    + [Dash, Variant] + Repeat(Hex, 3) + [Dash] + Repeat(Hex, 12)

  /** ASCII lower-casing: the case folding the `i` flag performs on the
      characters this pattern can match (no non-ASCII character folds onto
      an ASCII one). */
  function Fold(c: char): char {
    if 'A' <= c <= 'Z' then (c as int + 32) as char else c
  }

  function Unfold(c: char): char {
    if 'a' <= c <= 'z' then (c as int - 32) as char else c
  }

  predicate IsHexDigit(c: char) {
    Fold(c) in "0123456789abcdef"
  }

  predicate InClass(c: char, k: CharClass) {
    match k
    case Hex => IsHexDigit(c)
    case Dash => c == '-'
    case Version => '0' <= c <= '5'
    case Variant => Fold(c) in "089ab"
  }

  /** Anchored match of a fixed-width pattern, position by position. */
  predicate Matches(p: seq<CharClass>, s: string) {
    if p == [] then s == []
    else s != [] && InClass(s[0], p[0]) && Matches(p[1..], s[1..])
  }

  predicate ValidUUID(id: string) {
    Matches(Pattern, id)
  }

  /** The pattern, position by position. */
  function ClassAt(i: int): CharClass {
    if i == 8 || i == 13 || i == 18 || i == 23 then Dash
    else if i == 14 then Version
    else if i == 19 then Variant
    else Hex
  }

  /** The shape an accepted id has, stated index by index. */
  predicate UuidShape(id: string) {
    && |id| == 36
    && id[8] == '-' && id[13] == '-' && id[18] == '-' && id[23] == '-'
    && '0' <= id[14] <= '5'
    && Fold(id[19]) in "089ab"
    && forall i :: 0 <= i < 36 && ClassAt(i) == Hex ==> IsHexDigit(id[i])
  }

  lemma PatternAt()
    ensures |Pattern| == 36
    ensures forall i :: 0 <= i < 36 ==> Pattern[i] == ClassAt(i)
  {
    var a := Repeat(Hex, 8);
    var b := Repeat(Hex, 4);
    var c := Repeat(Hex, 3);
    var d := Repeat(Hex, 12);
    assert Pattern == a + [Dash] + b + [Dash, Version] + c + [Dash, Variant] + c + [Dash] + d;
    forall i | 0 <= i < 36
      ensures Pattern[i] == ClassAt(i)
    {
      if i < 8 { assert Pattern[i] == a[i]; }
      else if i == 8 { }
      else if i < 13 { assert Pattern[i] == b[i - 9]; }
      else if i < 15 { }
      else if i < 18 { assert Pattern[i] == c[i - 15]; }
      else if i < 20 { }
      else if i < 23 { assert Pattern[i] == c[i - 20]; }
      else if i == 23 { }
      else { assert Pattern[i] == d[i - 24]; }
    }
  }

  /** The matcher accepts exactly the strings of the pattern's length whose
      every character is in the class at its position. */
  lemma {:induction false} MatchesPositionwise(p: seq<CharClass>, s: string)
    ensures Matches(p, s) <==> |p| == |s| && forall i :: 0 <= i < |s| ==> InClass(s[i], p[i])
  {
    if p != [] && s != [] {
      MatchesPositionwise(p[1..], s[1..]);
      if |p| == |s| && forall i :: 0 <= i < |s| ==> InClass(s[i], p[i]) {
        forall i | 0 <= i < |s[1..]|
          ensures InClass(s[1..][i], p[1..][i])
        {
          assert InClass(s[i + 1], p[i + 1]);
        }
      }
      if Matches(p, s) {
        forall i | 0 <= i < |s|
          ensures InClass(s[i], p[i])
        {
          if i > 0 { assert InClass(s[1..][i - 1], p[1..][i - 1]); }
        }
      }
    }
  }

  /** An id is accepted exactly when it has length 36, dashes at 8, 13, 18
      and 23, a version digit 0-5 at 14, a variant 0/8/9/a/b at 19 (either
      case) and hex digits (either case) everywhere else. */
  lemma ValidUUIDShape(id: string)
    ensures ValidUUID(id) <==> UuidShape(id)
  {
    PatternAt();
    MatchesPositionwise(Pattern, id);
    if UuidShape(id) {
      forall i | 0 <= i < |id|
        ensures InClass(id[i], Pattern[i])
      {
        assert Pattern[i] == ClassAt(i);
      }
    }
    if ValidUUID(id) {
      assert InClass(id[8], Pattern[8]) && InClass(id[13], Pattern[13]);
      assert InClass(id[18], Pattern[18]) && InClass(id[23], Pattern[23]);
      assert InClass(id[14], Pattern[14]) && InClass(id[19], Pattern[19]);
    }
  }

  /** An accepted id has exactly 36 characters. */
  lemma ValidUUIDLength(id: string)
    requires ValidUUID(id)
    ensures |id| == 36
  {
    ValidUUIDShape(id);
  }

  function LowerCase(s: string): (r: string)
    ensures |r| == |s|
    ensures forall i :: 0 <= i < |s| ==> r[i] == Fold(s[i])
  {
    seq(|s|, i requires 0 <= i < |s| => Fold(s[i]))
  }

  function UpperCase(s: string): (r: string)
    ensures |r| == |s|
    ensures forall i :: 0 <= i < |s| ==> r[i] == Unfold(s[i])
  {
    seq(|s|, i requires 0 <= i < |s| => Unfold(s[i]))
  }

  lemma ClassIgnoresCase(c: char, k: CharClass)
    ensures InClass(Fold(c), k) <==> InClass(c, k)
    ensures InClass(Unfold(c), k) <==> InClass(c, k)
  {
  }

  /** Acceptance does not depend on letter case. */
  lemma {:induction false} ValidUUIDCaseInsensitive(id: string)
    ensures ValidUUID(LowerCase(id)) <==> ValidUUID(id)
    ensures ValidUUID(UpperCase(id)) <==> ValidUUID(id)
  {
    MatchesPositionwise(Pattern, id);
    MatchesPositionwise(Pattern, LowerCase(id));
    MatchesPositionwise(Pattern, UpperCase(id));
    forall i | 0 <= i < |id| && i < |Pattern|
      ensures InClass(LowerCase(id)[i], Pattern[i]) <==> InClass(id[i], Pattern[i])
      ensures InClass(UpperCase(id)[i], Pattern[i]) <==> InClass(id[i], Pattern[i])
    {
      ClassIgnoresCase(id[i], Pattern[i]);
    }
  }
}
