/** UTF-8 as section 4 of RFC 3629 defines it, and Go's `range` over a string. A char above 255 is not a byte and
    fits no rule. */
module Utf8 {

  predicate Between(lo: int, c: char, hi: int) {
    lo <= c as int <= hi
  }

  predicate Tail(c: char) {
    Between(0x80, c, 0xBF)
  }

  /** The number of bytes of the well-formed character at the front of `s`, 0 when there is none. */
  function CharLength(s: string): (n: nat)
    ensures n <= 4 && n <= |s|
  {
    if |s| >= 1 && Between(0x00, s[0], 0x7F) then 1
    else if |s| >= 2 && Between(0xC2, s[0], 0xDF) && Tail(s[1]) then 2
    else if |s| >= 3 && Tail(s[2]) && (
              || (Between(0xE0, s[0], 0xE0) && Between(0xA0, s[1], 0xBF))
              || (Between(0xE1, s[0], 0xEC) && Tail(s[1]))
              || (Between(0xED, s[0], 0xED) && Between(0x80, s[1], 0x9F))
              || (Between(0xEE, s[0], 0xEF) && Tail(s[1]))) then 3
    else if |s| >= 4 && Tail(s[2]) && Tail(s[3]) && (
              || (Between(0xF0, s[0], 0xF0) && Between(0x90, s[1], 0xBF))
              || (Between(0xF1, s[0], 0xF3) && Tail(s[1]))
              || (Between(0xF4, s[0], 0xF4) && Between(0x80, s[1], 0x8F))) then 4
    else 0
  }

  predicate Valid(s: string) {
    s == "" || (CharLength(s) > 0 && Valid(s[CharLength(s)..]))
  }

  lemma CharLengthIsLocal(s: string, t: string)
    requires CharLength(s) > 0 && s <= t
    ensures CharLength(t) == CharLength(s)
  {
  }

  lemma {:induction false} ValidConcat(a: string, b: string)
    requires Valid(a) && Valid(b)
    ensures Valid(a + b)
    decreases |a|
  {
    if a == "" {
      assert a + b == b;
    } else {
      FrontOfConcat(a, b);
      ValidConcat(a[CharLength(a)..], b);
    }
  }

  lemma FrontOfConcat(a: string, b: string)
    requires CharLength(a) > 0
    ensures CharLength(a + b) == CharLength(a)
    ensures (a + b)[CharLength(a)..] == a[CharLength(a)..] + b
  {
    CharLengthIsLocal(a, a + b);
  }

  lemma {:induction false} AsciiIsValid(s: string)
    requires forall i | 0 <= i < |s| :: s[i] as int <= 0x7F
    ensures Valid(s)
    decreases |s|
  {
    if s != "" {
      AsciiIsValid(s[1..]);
    }
  }

  /** What follows a valid prefix of a valid string is valid. */
  lemma {:induction false} ValidRest(s: string, k: nat)
    requires k <= |s| && Valid(s) && Valid(s[..k])
    ensures Valid(s[k..])
    decreases |s|
  {
    if k > 0 {
      var n := CharLength(s[..k]);
      CharLengthIsLocal(s[..k], s);
      assert s[..k][n..] == s[n..][..k - n];
      assert s[k..] == s[n..][k - n..];
      ValidRest(s[n..], k - n);
    } else {
      assert s[k..] == s;
    }
  }

  predicate Ascii(c: char) {
    c as int <= 0x7F
  }

  /** A byte below 128 never sits inside a longer character, so it splits validity in two. */
  lemma {:induction false} AsciiSeparates(a: string, c: char, b: string)
    requires Ascii(c)
    ensures Valid(a + [c] + b) <==> Valid(a) && Valid(b)
    decreases |a|
  {
    var s := a + [c] + b;
    if a == "" {
      assert s[1..] == b;
    } else {
      FrontBeforeAscii(a, c, b);
      if CharLength(a) > 0 {
        AsciiSeparates(a[CharLength(a)..], c, b);
      }
    }
  }

  lemma FrontBeforeAscii(a: string, c: char, b: string)
    requires Ascii(c) && a != ""
    ensures CharLength(a + [c] + b) == CharLength(a)
    ensures (a + [c] + b)[CharLength(a)..] == a[CharLength(a)..] + [c] + b
  {
    var s := a + [c] + b;
    assert s[|a|] == c;
    if CharLength(a) > 0 {
      CharLengthIsLocal(a, s);
    }
    if CharLength(s) > 0 {
      assert CharLength(s) <= |a|;
      assert s[..|a|] == a;
      CharLengthStays(s, |a|);
    }
  }

  lemma CharLengthStays(s: string, k: nat)
    requires 0 < CharLength(s) <= k <= |s|
    ensures CharLength(s[..k]) == CharLength(s)
  {
  }

  /** How far Go's `range` moves at the front of `s`: an ill-formed byte is taken alone. */
  function RangeStep(s: string): nat {
    if CharLength(s) > 0 then CharLength(s) else 1
  }

  /** utf8.RuneLen of the rune `range` yields: an ill-formed byte yields U+FFFD, which takes three. */
  function RuneLen(s: string): nat {
    if CharLength(s) > 0 then CharLength(s) else 3
  }
}
