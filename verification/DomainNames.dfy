/**
 * Domain syntax of the list parser. A text that parses as an IP address needs no branch of its own:
 * an IPv4 address ends in a label of digits and an IPv6 address has a colon in a label.
 */
module DomainNames {

  import opened Text
  import opened Wrappers

  const MAX_DOMAIN_BYTES := 253
  const MAX_LABEL_BYTES := 63

  function LowerChar(c: char): char {
    if 'A' <= c <= 'Z' then (c as int + 32) as char else c
  }

  function Lower(s: string): string {
    seq(|s|, i requires 0 <= i < |s| => LowerChar(s[i]))
  }

  function TrimDots(s: string): string {
    if s != "" && s[|s| - 1] == '.' then TrimDots(s[..|s| - 1]) else s
  }

  predicate IsAscii(s: string) {
    forall i | 0 <= i < |s| :: s[i] as int < 0x80
  }

  predicate LabelChar(c: char) {
    'a' <= c <= 'z' || 'A' <= c <= 'Z' || IsDigit(c) || c == '-'
  }

  predicate ValidLabel(part: string) {
    && 1 <= |part| <= MAX_LABEL_BYTES
    && part[0] != '-' && part[|part| - 1] != '-'
    && (forall c | c in part :: LabelChar(c))
    && !("xn--" <= part && |part| <= 4)
  }

  function Labels(domain: string): seq<string> {
    Split(domain, {'.'})
  }

  predicate WellFormed(domain: string) {
    var labels := Labels(domain);
    && domain != "" && Bytes(domain) <= MAX_DOMAIN_BYTES && IsAscii(domain)
    && |labels| >= 2
    && (forall i | 0 <= i < |labels| :: ValidLabel(labels[i]))
    && !AllDigits(labels[|labels| - 1])
  }

  /** The normal form of a domain, or None where the source reports invalid input. */
  function ParseDomain(text: string): Option<string> {
    var domain := Lower(TrimDots(Trim(text)));
    if WellFormed(domain) then Some(domain) else None
  }

  /** A normal form: well-formed and without upper-case letters. */
  predicate Canonical(domain: string) {
    WellFormed(domain) && Lower(domain) == domain
  }

  /** Letters, digits, hyphens and dots only, with a label character at both ends. */
  lemma DomainChars(domain: string)
    requires WellFormed(domain)
    ensures forall c | c in domain :: LabelChar(c) || c == '.'
    ensures LabelChar(domain[0]) && LabelChar(domain[|domain| - 1])
    ensures NoSpaces(domain) && '\n' !in domain
  {
    var labels := Labels(domain);
    forall c | c in domain && c != '.' ensures LabelChar(c) {
      SplitHolds(domain, '.', c);
      var i :| 0 <= i < |labels| && c in labels[i];
      assert ValidLabel(labels[i]);
    }
    SplitEnds(domain, '.');
    assert ValidLabel(labels[0]) && ValidLabel(labels[|labels| - 1]);
  }

  lemma LowerIsIdempotent(s: string)
    ensures Lower(Lower(s)) == Lower(s)
  {
  }

  /** Every parsed domain is in normal form, and a normal form parses to itself. */
  lemma ParsesToCanonical(text: string, domain: string)
    ensures ParseDomain(text) == Some(domain) ==> Canonical(domain)
    ensures Canonical(domain) ==> ParseDomain(domain) == Some(domain)
  {
    LowerIsIdempotent(TrimDots(Trim(text)));
    if Canonical(domain) {
      DomainChars(domain);
      TrimNoSpaces(domain);
      assert TrimDots(domain) == domain;
    }
  }
}
