/** The pieces of Go's strings and strconv packages the contract parser and the account index use.
    White space is ASCII. */
module Text {

  predicate IsSpace(c: char) {
    c == ' ' || 9 <= c as int <= 13
  }

  function TrimLeft(s: string): string {
    if s != "" && IsSpace(s[0]) then TrimLeft(s[1..]) else s
  }

  function TrimRight(s: string): string {
    if s != "" && IsSpace(s[|s| - 1]) then TrimRight(s[..|s| - 1]) else s
  }

  function TrimSpace(s: string): string {
    TrimRight(TrimLeft(s))
  }

  /** No white space at either end. */
  predicate Trimmed(s: string) {
    s != "" ==> !IsSpace(s[0]) && !IsSpace(s[|s| - 1])
  }

  lemma TrimmedIsFixed(s: string)
    requires Trimmed(s)
    ensures TrimSpace(s) == s
  {
  }

  lemma {:induction false} TrimLeftDropsFront(s: string)
    ensures TrimLeft(s) != "" ==> !IsSpace(TrimLeft(s)[0])
    ensures |TrimLeft(s)| <= |s|
  {
    if s != "" && IsSpace(s[0]) {
      TrimLeftDropsFront(s[1..]);
    }
  }

  lemma {:induction false} TrimRightDropsBack(s: string)
    ensures TrimRight(s) <= s
    ensures TrimRight(s) != "" ==> !IsSpace(TrimRight(s)[|TrimRight(s)| - 1])
  {
    if s != "" && IsSpace(s[|s| - 1]) {
      TrimRightDropsBack(s[..|s| - 1]);
    }
  }

  lemma TrimSpaceTrims(s: string)
    ensures Trimmed(TrimSpace(s))
  {
    TrimLeftDropsFront(s);
    TrimRightDropsBack(TrimLeft(s));
  }

  predicate HasPrefix(s: string, prefix: string) {
    prefix <= s
  }

  function TrimSuffixByte(s: string, c: char): string {
    if s != "" && s[|s| - 1] == c then s[..|s| - 1] else s
  }

  /** strings.Split with a one-byte separator. */
  function Split(s: string, separator: char): (parts: seq<string>)
    ensures |parts| >= 1
  {
    if s == "" then [""]
    else if s[0] == separator then [""] + Split(s[1..], separator)
    else
      var rest := Split(s[1..], separator);
      [[s[0]] + rest[0]] + rest[1..]
  }

  lemma {:induction false} SplitAtSeparator(a: string, separator: char, b: string)
    requires separator !in a
    ensures Split(a + [separator] + b, separator) == [a] + Split(b, separator)
  {
    var s := a + [separator] + b;
    if a == "" {
      assert s[1..] == b;
    } else {
      assert s[1..] == a[1..] + [separator] + b;
      SplitAtSeparator(a[1..], separator, b);
      assert [s[0]] + a[1..] == a;
    }
  }

  /** The bytes of `s` before its leading run of `c` ends. */
  function CountLeading(s: string, c: char): (n: nat)
    ensures n <= |s|
  {
    if s != "" && s[0] == c then 1 + CountLeading(s[1..], c) else 0
  }

  // ---- decimal numbers ----

  predicate IsDigit(c: char) {
    '0' <= c <= '9'
  }

  predicate AllDigits(s: string) {
    forall i | 0 <= i < |s| :: IsDigit(s[i])
  }

  function DigitsValue(s: string): nat
    requires AllDigits(s)
  {
    if s == "" then 0 else DigitsValue(s[..|s| - 1]) * 10 + (s[|s| - 1] as int - '0' as int)
  }

  function Decimal(n: nat): (s: string)
    ensures s != "" && AllDigits(s)
  {
    if n < 10 then [('0' as int + n) as char]
    else Decimal(n / 10) + [('0' as int + n % 10) as char]
  }

  datatype Number = NotANumber | Number(value: int)

  const MAX_INT64 := 0x7FFF_FFFF_FFFF_FFFF
  const MAX_UINT32 := 0xFFFF_FFFF

  predicate IsInt64(n: int) {
    -MAX_INT64 - 1 <= n <= MAX_INT64
  }

  /** strconv.Atoi where int has 64 bits. */
  function Atoi(s: string): Number {
    var signed := s != "" && (s[0] == '-' || s[0] == '+');
    var digits := if signed then s[1..] else s;
    if digits == "" || !AllDigits(digits) then NotANumber
    else
      var magnitude: int := DigitsValue(digits);
      var value := if signed && s[0] == '-' then -magnitude else magnitude;
      if IsInt64(value) then Number(value) else NotANumber
  }

  /** strconv.ParseUint(s, 10, 32). */
  function ParseUint32(s: string): (n: Number)
    ensures n.Number? ==> 0 <= n.value <= MAX_UINT32
  {
    if s == "" || !AllDigits(s) || DigitsValue(s) > MAX_UINT32 then NotANumber
    else Number(DigitsValue(s))
  }

  function Itoa(n: int): string {
    if n < 0 then "-" + Decimal(-n) else Decimal(n)
  }

  lemma {:induction false} DecimalHasValue(n: nat)
    ensures DigitsValue(Decimal(n)) == n
  {
    if n >= 10 {
      DecimalHasValue(n / 10);
      assert Decimal(n)[..|Decimal(n)| - 1] == Decimal(n / 10);
    } else {
      assert Decimal(n)[..0] == "";
    }
  }

  lemma AtoiOfItoa(n: int)
    requires IsInt64(n)
    ensures Atoi(Itoa(n)) == Number(n)
  {
    hide DigitsValue, Decimal;
    if n < 0 {
      DecimalHasValue(-n);
      assert Itoa(n)[1..] == Decimal(-n);
    } else {
      DecimalHasValue(n);
      assert IsDigit(Itoa(n)[0]);
    }
  }

  // ---- what is accepted ----

  /** The text is the sign, if any, and the digits of the number. */
  ghost predicate Spells(s: string, sign: string, digits: string, n: int) {
    && sign in {"", "+", "-"} && digits != "" && AllDigits(digits) && s == sign + digits
    && (sign == "-" ==> n + DigitsValue(digits) == 0) && (sign != "-" ==> n == DigitsValue(digits))
  }

  /** A decimal number of Go: an optional sign and at least one digit, within 64 bits. */
  lemma AtoiMeans(s: string, n: int)
    ensures Atoi(s) == Number(n) <==> IsInt64(n) && exists sign, digits :: Spells(s, sign, digits, n)
  {
    hide DigitsValue;
    if Atoi(s) == Number(n) {
      var signed := s[0] == '-' || s[0] == '+';
      var sign, digits := if signed then s[..1] else "", if signed then s[1..] else s;
      assert s == sign + digits;
      assert signed ==> sign == [s[0]] && sign in {"+", "-"};
      assert sign == "-" <==> s[0] == '-';
      assert Spells(s, sign, digits, n);
    }
    if sign, digits :| Spells(s, sign, digits, n) {
      assert IsDigit(digits[0]);
      assert if sign == "" then digits == s else s[0] == sign[0] && digits == s[1..];
    }
  }

  /** An unsigned 32-bit number: the digits of some number within the range, leading zeros or not. */
  lemma ParseUint32Means(s: string, n: nat)
    ensures ParseUint32(s) == Number(n) <==> s != "" && AllDigits(s) && n == DigitsValue(s) <= MAX_UINT32
    ensures ParseUint32(Decimal(n)) == if n <= MAX_UINT32 then Number(n) else NotANumber
  {
    DecimalHasValue(n);
  }

  predicate AllSpace(s: string) {
    forall i | 0 <= i < |s| :: IsSpace(s[i])
  }

  lemma {:induction false} TrimLeftOfSpaces(lead: string, rest: string)
    requires AllSpace(lead) && (rest == "" || !IsSpace(rest[0]))
    ensures TrimLeft(lead + rest) == rest
  {
    if lead == "" {
      assert lead + rest == rest;
    } else {
      assert (lead + rest)[1..] == lead[1..] + rest;
      TrimLeftOfSpaces(lead[1..], rest);
    }
  }

  lemma {:induction false} TrimRightOfSpaces(front: string, tail: string)
    requires AllSpace(tail) && (front == "" || !IsSpace(front[|front| - 1]))
    ensures TrimRight(front + tail) == front
  {
    if tail == "" {
      assert front + tail == front;
    } else {
      var n := |front + tail| - 1;
      assert (front + tail)[..n] == front + tail[..|tail| - 1];
      TrimRightOfSpaces(front, tail[..|tail| - 1]);
    }
  }

  /** Trimming takes off all the white space at the ends and nothing else. */
  lemma TrimSpaceMeans(lead: string, core: string, tail: string)
    requires AllSpace(lead) && AllSpace(tail) && Trimmed(core)
    ensures TrimSpace(lead + core + tail) == core
  {
    assert lead + core + tail == lead + (core + tail);
    if core != "" {
      TrimLeftOfSpaces(lead, core + tail);
      TrimRightOfSpaces(core, tail);
    } else {
      assert lead + core + tail == (lead + tail) + "";
      TrimLeftOfSpaces(lead + tail, "");
    }
  }
}
