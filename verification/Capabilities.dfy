/** Linux capability names and the comparison of an expected list with an observed mask. */
module Capabilities {
  import opened ByteOrder
  import opened Text

  const LINUX_CAPABILITY_NAMES: seq<string> := [
    "CAP_CHOWN", "CAP_DAC_OVERRIDE", "CAP_DAC_READ_SEARCH", "CAP_FOWNER", "CAP_FSETID", "CAP_KILL", "CAP_SETGID",
    "CAP_SETUID", "CAP_SETPCAP", "CAP_LINUX_IMMUTABLE", "CAP_NET_BIND_SERVICE", "CAP_NET_BROADCAST",
    "CAP_NET_ADMIN", "CAP_NET_RAW", "CAP_IPC_LOCK", "CAP_IPC_OWNER", "CAP_SYS_MODULE", "CAP_SYS_RAWIO",
    "CAP_SYS_CHROOT", "CAP_SYS_PTRACE", "CAP_SYS_PACCT", "CAP_SYS_ADMIN", "CAP_SYS_BOOT", "CAP_SYS_NICE",
    "CAP_SYS_RESOURCE", "CAP_SYS_TIME", "CAP_SYS_TTY_CONFIG", "CAP_MKNOD", "CAP_LEASE", "CAP_AUDIT_WRITE",
    "CAP_AUDIT_CONTROL", "CAP_SETFCAP", "CAP_MAC_OVERRIDE", "CAP_MAC_ADMIN", "CAP_SYSLOG", "CAP_WAKE_ALARM",
    "CAP_BLOCK_SUSPEND", "CAP_AUDIT_READ", "CAP_PERFMON", "CAP_BPF", "CAP_CHECKPOINT_RESTORE"
  ]

  function LinuxCapabilityName(bit: int): string {
    if 0 <= bit < |LINUX_CAPABILITY_NAMES| then LINUX_CAPABILITY_NAMES[bit] else ""
  }

  /** The name of a mask bit, known to the table or not. */
  function BitName(bit: nat): string {
    var name := LinuxCapabilityName(bit);
    if name != "" then name else "CAP_UNKNOWN_" + Itoa(bit)
  }

  function Pow2(n: nat): (p: nat)
    ensures p >= 1
  {
    if n == 0 then 1 else 2 * Pow2(n - 1)
  }

  predicate HasBit(mask: nat, bit: nat) {
    (mask / Pow2(bit)) % 2 == 1
  }

  /** The names of the set bits below `bits`, lowest bit first. */
  function NamesBelow(mask: nat, bits: nat): seq<string> {
    if bits == 0 then []
    else NamesBelow(mask, bits - 1) + (if HasBit(mask, bits - 1) then [BitName(bits - 1)] else [])
  }

  function MaskNames(mask: nat): seq<string> {
    SortStrings(NamesBelow(mask, 64))
  }

  function HexDigit(c: char): int {
    if '0' <= c <= '9' then c as int - '0' as int
    else if 'a' <= c <= 'f' then c as int - 'a' as int + 10
    else if 'A' <= c <= 'F' then c as int - 'A' as int + 10
    else -1
  }

  function HexValue(s: string): nat
    requires forall i | 0 <= i < |s| :: HexDigit(s[i]) >= 0
  {
    if s == "" then 0 else HexValue(s[..|s| - 1]) * 16 + HexDigit(s[|s| - 1])
  }

  /** strconv.ParseUint(s, 16, 64). */
  function ParseHex64(s: string): Number {
    if s == "" || exists i | 0 <= i < |s| :: HexDigit(s[i]) < 0 then NotANumber
    else if HexValue(s) >= Pow2(64) then NotANumber
    else Number(HexValue(s))
  }

  datatype MaskResult = MaskError | MaskOk(names: seq<string>)

  function ParsedCapabilityMask(value: string): MaskResult {
    var mask := ParseHex64(TrimSpace(value));
    if mask.Number? && mask.value >= 0 then MaskOk(MaskNames(mask.value)) else MaskError
  }

  method ParseCapabilityMask(value: string) returns (r: MaskResult)
    ensures r == ParsedCapabilityMask(value)
  {
    hide HexValue, BitName, HasBit, Pow2;
    var trimmed := TrimSpace(value);
    if trimmed == "" { return MaskError; }
    var parsed := ParseHex64(trimmed);
    if parsed.NotANumber? { return MaskError; }
    var mask: nat := parsed.value;
    var capabilities: seq<string> := [];
    var bit := 0;
    while bit < 64
      invariant 0 <= bit <= 64
      invariant capabilities == NamesBelow(mask, bit)
    {
      if HasBit(mask, bit) {
        capabilities := capabilities + [BitName(bit)];
      }
      bit := bit + 1;
    }
    return MaskOk(SortStrings(capabilities));
  }

  function SortCanonical(values: seq<string>): seq<string> {
    if |values| == 0 then [] else SortStrings(values)
  }

  method EqualStrings(left: seq<string>, right: seq<string>) returns (equal: bool)
    ensures equal <==> left == right
  {
    if |left| != |right| { return false; }
    var i := 0;
    while i < |left|
      invariant 0 <= i <= |left| == |right|
      invariant left[..i] == right[..i]
    {
      if left[i] != right[i] { return false; }
      i := i + 1;
    }
    assert left[..i] == left && right[..i] == right;
    return true;
  }

  /** runCapabilities of an identity check: does the expected list match the observed one? */
  predicate CapabilitiesMatch(expected: seq<string>, actual: seq<string>) {
    SortCanonical(expected) == actual
  }

  // ---- names tell bits apart ----

  lemma TableHas41Names()
    ensures |LINUX_CAPABILITY_NAMES| == 41
  {
  }

  lemma TableIsDistinctFirst()
    ensures forall i, j | 0 <= i < j < 41 && i < 1 :: LINUX_CAPABILITY_NAMES[i] != LINUX_CAPABILITY_NAMES[j]
  {
  }

  lemma TableIsDistinctSecond()
    ensures forall i, j | 1 <= i < j < 41 && i < 12 :: LINUX_CAPABILITY_NAMES[i] != LINUX_CAPABILITY_NAMES[j]
  {
  }

  lemma TableIsDistinctThird()
    ensures forall i, j | 12 <= i < j < 41 && i < 21 :: LINUX_CAPABILITY_NAMES[i] != LINUX_CAPABILITY_NAMES[j]
  {
  }

  lemma TableIsDistinctLast()
    ensures forall i, j | 21 <= i < j < 41 :: LINUX_CAPABILITY_NAMES[i] != LINUX_CAPABILITY_NAMES[j]
  {
  }

  lemma TableIsDistinct()
    ensures |LINUX_CAPABILITY_NAMES| == 41 && NoDuplicates(LINUX_CAPABILITY_NAMES)
  {
    TableHas41Names();
    TableIsDistinctFirst();
    TableIsDistinctSecond();
    TableIsDistinctThird();
    TableIsDistinctLast();
  }

  lemma KnownNamesLookKnown(bit: nat)
    requires bit < 41
    ensures |LINUX_CAPABILITY_NAMES[bit]| > 4 && LINUX_CAPABILITY_NAMES[bit][4] != 'U'
  {
  }

  lemma BitNamesDiffer(a: nat, b: nat)
    requires a != b
    ensures BitName(a) != BitName(b)
  {
    hide Itoa;
    TableIsDistinct();
    if a < 41 { KnownNamesLookKnown(a); }
    if b < 41 { KnownNamesLookKnown(b); }
    if a < 41 && b < 41 {
    } else if a >= 41 && b >= 41 {
      UnknownNamesDiffer(a, b);
    } else {
      assert ("CAP_UNKNOWN_" + Itoa(a))[4] == 'U' && ("CAP_UNKNOWN_" + Itoa(b))[4] == 'U';
    }
  }

  lemma UnknownNamesDiffer(a: nat, b: nat)
    requires a != b
    ensures "CAP_UNKNOWN_" + Itoa(a) != "CAP_UNKNOWN_" + Itoa(b)
  {
    DecimalHasValue(a);
    DecimalHasValue(b);
    assert ("CAP_UNKNOWN_" + Itoa(a))[12..] == Itoa(a);
    assert ("CAP_UNKNOWN_" + Itoa(b))[12..] == Itoa(b);
  }

  /** NamesBelow lists every set bit's name once and nothing else. */
  lemma {:induction false} NamesBelowAreBits(mask: nat, bits: nat)
    ensures NoDuplicates(NamesBelow(mask, bits))
    ensures forall x :: x in NamesBelow(mask, bits) <==> exists b: nat | b < bits :: HasBit(mask, b) && x == BitName(b)
  {
    hide HasBit, BitName;
    if bits > 0 {
      NamesBelowAreBits(mask, bits - 1);
      forall b: nat | b < bits - 1 ensures BitName(b) != BitName(bits - 1) { BitNamesDiffer(b, bits - 1); }
      assert BitName(bits - 1) !in NamesBelow(mask, bits - 1);
    }
  }

  /** The list has the name of every set bit once and no other name. */
  ghost predicate NamesBits(names: seq<string>, mask: nat) {
    && NoDuplicates(names)
    && forall x :: x in names <==> exists b: nat | b < 64 :: HasBit(mask, b) && x == BitName(b)
  }

  lemma MaskNamesItsBits(expected: seq<string>, mask: nat)
    ensures NoDuplicates(NamesBelow(mask, 64))
    ensures NamesBits(expected, mask) <==> NoDuplicates(expected) && forall x :: x in expected <==> x in NamesBelow(mask, 64)
  {
    hide HasBit, BitName;
    NamesBelowAreBits(mask, 64);
  }

  /** The comparison passes exactly when the expected list holds the name of every set bit once and no other name. */
  lemma CapabilitiesMatchExactly(expected: seq<string>, mask: nat)
    ensures CapabilitiesMatch(expected, MaskNames(mask)) <==> NamesBits(expected, mask)
  {
    hide NamesBits, NamesBelow;
    var names := NamesBelow(mask, 64);
    MaskNamesItsBits(expected, mask);
    if CapabilitiesMatch(expected, MaskNames(mask)) {
      assert multiset(expected) == multiset(names);
      SameElements(names, expected);
    } else if NoDuplicates(expected) && NoDuplicates(names) && forall x :: x in expected <==> x in names {
      DistinctSequencesPermute(expected, names);
      SortStringsIgnoresOrder(expected, names);
    }
  }

  // ---- a mask is its bits ----

  lemma {:induction false} HalvingShiftsBits(mask: nat, bit: nat)
    ensures HasBit(mask / 2, bit) <==> HasBit(mask, bit + 1)
  {
    DivDiv(mask, Pow2(bit));
  }

  lemma DivDiv(a: nat, p: nat)
    requires p > 0
    ensures a / (2 * p) == (a / 2) / p
  {
    var q, r := (a / 2) / p, (a / 2) % p;
    assert a / 2 == q * p + r;
    var s := 2 * r + a % 2;
    assert a == q * (2 * p) + s && 0 <= s < 2 * p;
    DivUnique(a, 2 * p, q, s);
  }

  lemma DivUnique(a: nat, d: nat, q: nat, r: nat)
    requires d > 0 && r < d && a == q * d + r
    ensures a / d == q
  {
    var k := a / d - q;
    assert a == (a / d) * d + a % d;
    assert k * d == r - a % d;
    MultipleIsFar(k, d);
  }

  lemma MultipleIsFar(k: int, d: int)
    requires d > 0
    ensures k >= 1 ==> k * d >= d
    ensures k <= -1 ==> k * d <= -d
  {
    if k >= 1 {
      assert (k - 1) * d >= 0;
    } else if k <= -1 {
      assert (-1 - k) * d >= 0;
    }
  }

  lemma {:induction false} BitsDetermineMask(a: nat, b: nat, bits: nat)
    requires a < Pow2(bits) && b < Pow2(bits)
    requires forall k: nat | k < bits :: HasBit(a, k) <==> HasBit(b, k)
    ensures a == b
    decreases bits
  {
    if bits > 0 {
      assert HasBit(a, 0) <==> HasBit(b, 0);
      forall k: nat | k < bits - 1 ensures HasBit(a / 2, k) <==> HasBit(b / 2, k) {
        HalvingShiftsBits(a, k);
        HalvingShiftsBits(b, k);
      }
      BitsDetermineMask(a / 2, b / 2, bits - 1);
    }
  }

  /** Two 64-bit masks are reported alike only if they are the same mask. */
  lemma MaskNamesAreInjective(a: nat, b: nat)
    requires a < Pow2(64) && b < Pow2(64)
    ensures MaskNames(a) == MaskNames(b) <==> a == b
  {
    hide HasBit, BitName;
    if MaskNames(a) == MaskNames(b) {
      var left, right := NamesBelow(a, 64), NamesBelow(b, 64);
      NamesBelowAreBits(a, 64);
      NamesBelowAreBits(b, 64);
      assert multiset(left) == multiset(right);
      SameElements(left, right);
      forall k: nat | k < 64 ensures HasBit(a, k) <==> HasBit(b, k) {
        BitSurvives(a, b, k);
        BitSurvives(b, a, k);
      }
      BitsDetermineMask(a, b, 64);
    }
  }

  lemma BitSurvives(a: nat, b: nat, k: nat)
    requires k < 64 && forall x | x in NamesBelow(a, 64) :: x in NamesBelow(b, 64)
    ensures HasBit(a, k) ==> HasBit(b, k)
  {
    hide HasBit, BitName;
    NamesBelowAreBits(a, 64);
    NamesBelowAreBits(b, 64);
    if HasBit(a, k) {
      assert BitName(k) in NamesBelow(b, 64);
      var m: nat :| m < 64 && HasBit(b, m) && BitName(k) == BitName(m);
      if m != k { BitNamesDiffer(k, m); }
    }
  }

  // ---- masks as text ----

  lemma LowestBit(mask: nat)
    ensures HasBit(mask, 0) <==> mask % 2 == 1
  {
  }

  function HexChar(d: nat, upper: bool): char
    requires d < 16
  {
    if d < 10 then ('0' as int + d) as char
    else if upper then ('A' as int + d - 10) as char
    else ('a' as int + d - 10) as char
  }

  /** The mask in `width` hexadecimal digits, as the kernel prints it. */
  function HexText(mask: nat, width: nat, upper: bool): (s: string)
    ensures |s| == width
  {
    if width == 0 then "" else HexText(mask / 16, width - 1, upper) + [HexChar(mask % 16, upper)]
  }

  function Pow16(n: nat): (p: nat)
    ensures p >= 1
  {
    if n == 0 then 1 else 16 * Pow16(n - 1)
  }

  lemma HexCharReads(d: nat, upper: bool)
    requires d < 16
    ensures HexDigit(HexChar(d, upper)) == d
  {
  }

  lemma {:induction false} HexTextReads(mask: nat, width: nat, upper: bool)
    requires mask < Pow16(width)
    ensures var s := HexText(mask, width, upper);
            (forall i | 0 <= i < |s| :: HexDigit(s[i]) >= 0) && HexValue(s) == mask
    decreases width
  {
    if width > 0 {
      HexTextReads(mask / 16, width - 1, upper);
      HexCharReads(mask % 16, upper);
      var s := HexText(mask, width, upper);
      assert s[..width - 1] == HexText(mask / 16, width - 1, upper);
    }
  }

  /** Any mask printed in hexadecimal, with leading zeros and in either case, is read back if it has 64 bits. */
  lemma HexIsReadBack(mask: nat, width: nat, upper: bool)
    requires width > 0 && mask < Pow16(width)
    ensures ParseHex64(HexText(mask, width, upper)) == if mask < Pow2(64) then Number(mask) else NotANumber
  {
    hide Pow2, Pow16, HexValue, HexText;
    HexTextReads(mask, width, upper);
  }
}
