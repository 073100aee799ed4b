/** Redaction of evidence: a list of replacements, each tried on what the ones before it left. */
module Redaction {

  /** One pattern with its replacement, as the function it computes. */
  type Replacement = string -> string

  function RedactedBy(patterns: seq<Replacement>, raw: string): (string, bool) {
    if patterns == [] then (raw, false)
    else
      var (sanitized, redacted) := RedactedBy(patterns[..|patterns| - 1], raw);
      var replaced := patterns[|patterns| - 1](sanitized);
      if replaced != sanitized then (replaced, true) else (sanitized, redacted)
  }

  method RedactEvidenceRaw(patterns: seq<Replacement>, raw: string) returns (sanitized: string, redacted: bool)
    ensures (sanitized, redacted) == RedactedBy(patterns, raw)
  {
    sanitized, redacted := raw, false;
    var i := 0;
    while i < |patterns|
      invariant 0 <= i <= |patterns|
      invariant (sanitized, redacted) == RedactedBy(patterns[..i], raw)
    {
      assert patterns[..i + 1][..i] == patterns[..i];
      var replaced := patterns[i](sanitized);
      if replaced != sanitized {
        redacted := true;
        sanitized := replaced;
      }
      i := i + 1;
    }
    assert patterns[..i] == patterns;
  }

  /** The text after all patterns is each pattern's replacement of what the ones before it left. */
  lemma RedactedIsComposition(patterns: seq<Replacement>, last: Replacement, raw: string)
    ensures RedactedBy([], raw).0 == raw
    ensures RedactedBy(patterns + [last], raw).0 == last(RedactedBy(patterns, raw).0)
  {
    assert (patterns + [last])[..|patterns|] == patterns;
  }

  /** Evidence is flagged exactly when some pattern has something to replace in it, and otherwise left alone. */
  lemma {:induction false} FlaggedIffSomePatternApplies(patterns: seq<Replacement>, raw: string)
    ensures RedactedBy(patterns, raw).1 <==> exists p | p in patterns :: p(raw) != raw
    ensures !RedactedBy(patterns, raw).1 ==> RedactedBy(patterns, raw).0 == raw
  {
    if patterns != [] {
      var init, last := patterns[..|patterns| - 1], patterns[|patterns| - 1];
      FlaggedIffSomePatternApplies(init, raw);
      assert patterns == init + [last];
      assert last in patterns;
      if p :| p in patterns && p(raw) != raw {
        assert p in init || p == last;
      }
    }
  }
}
