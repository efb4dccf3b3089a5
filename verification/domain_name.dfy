/** The one canonical spelling of a domain, shared by the configuration, the
    Fake DNS server, the address pool and the rules engine. */
module DomainName {
  import opened Wrappers
  import opened Splitting

  const MAX_DOMAIN := 253
  const MAX_LABEL := 63

  /** The white space that Go's unicode package recognises. */
  predicate IsSpace(c: char) {
    c in "\t\n\U{000B}\U{000C}\r \U{0085}\U{00A0}\U{1680}\U{2028}\U{2029}\U{202F}\U{205F}\U{3000}"
    || '\U{2000}' <= c <= '\U{200A}'
  }

  /** Lower case. Two non-ASCII letters have an ASCII lower case; every other
      non-ASCII letter lowers to something non-ASCII, which no label accepts,
      so it may stand for itself here. */
  function LowerChar(c: char): char {
    if 'A' <= c <= 'Z' then (c as int - 'A' as int + 'a' as int) as char
    else if c == '\U{0130}' then 'i'
    else if c == '\U{212A}' then 'k'
    else c
  }

  function ToLower(s: string): (r: string)
    ensures |r| == |s|
  {
    seq(|s|, i requires 0 <= i < |s| => LowerChar(s[i]))
  }

  function TrimLeft(s: string): string {
    if s != "" && IsSpace(s[0]) then TrimLeft(s[1..]) else s
  }

  function TrimRight(s: string): string {
    if s != "" && IsSpace(s[|s| - 1]) then TrimRight(s[..|s| - 1]) else s
  }

  function TrimSpace(s: string): string {
    TrimRight(TrimLeft(s))
  }

  /** At most one trailing dot is removed. */
  function TrimDot(s: string): string {
    if s != "" && s[|s| - 1] == '.' then s[..|s| - 1] else s
  }

  /** The dot-separated labels; there is always at least one. */
  function Labels(s: string): seq<string> {
    Split(s, '.')
  }

  predicate IsLabelChar(c: char) {
    'a' <= c <= 'z' || '0' <= c <= '9' || c == '-' || c == '_'
  }

  predicate ValidLabel(piece: string) {
    && 0 < |piece| <= MAX_LABEL
    && piece[0] != '-' && piece[|piece| - 1] != '-'
    && forall c :: c in piece ==> IsLabelChar(c)
  }

  predicate IsDigit(c: char) { '0' <= c <= '9' }

  function Decimal(s: string): nat
    requires forall c :: c in s ==> IsDigit(c)
  {
    if s == "" then 0
    else
      assert IsDigit(s[|s| - 1]);
      10 * Decimal(s[..|s| - 1]) + (s[|s| - 1] as int - '0' as int)
  }

  /** One field of a dotted IPv4 literal: no sign, no leading zero, at most 255. */
  predicate IsOctet(s: string) {
    && 0 < |s| <= 3
    && (forall c :: c in s ==> IsDigit(c))
    && (|s| > 1 ==> s[0] != '0')
    && Decimal(s) <= 255
  }

  /** IPv6 literals contain a colon and fail the label check with the same
      outcome, so only the dotted form needs a test of its own. */
  predicate IsIPv4Literal(s: string) {
    |Labels(s)| == 4 && forall field :: field in Labels(s) ==> IsOctet(field)
  }

  function Normalize(value: string): Option<string> {
    var domain := TrimDot(ToLower(TrimSpace(value)));
    if domain == "" || |domain| > MAX_DOMAIN then None
    else if IsIPv4Literal(domain) then None
    else if exists piece :: piece in Labels(domain) && !ValidLabel(piece) then None
    else Some(domain)
  }

  /** The outputs of Normalize. Everything that is persisted is one of these. */
  predicate Canonical(domain: string) {
    Normalize(domain) == Some(domain)
  }

  datatype Pattern = Pattern(suffix: bool, domain: string) {
    predicate Matches(domain: string) {
      if suffix then domain == this.domain || HasSuffix(domain, "." + this.domain)
      else domain == this.domain
    }
  }

  predicate HasSuffix(s: string, suffix: string) {
    |suffix| <= |s| && s[|s| - |suffix|..] == suffix
  }

  /** "*.x" selects x and everything below it, any other text only itself. */
  function ParsePattern(value: string): Option<Pattern> {
    var text := TrimSpace(ToLower(value));
    var suffix := |text| >= 2 && text[..2] == "*.";
    match Normalize(if suffix then text[2..] else text)
    case None => None
    case Some(domain) => Some(Pattern(suffix, domain))
  }

  // ---------------------------------------------------------------------
  // The canonical form is a fixed point

  lemma CanonicalChars(domain: string, c: char)
    requires forall piece :: piece in Labels(domain) ==> ValidLabel(piece)
    requires c in domain
    ensures c == '.' || IsLabelChar(c)
  {
    if c != '.' {
      var i := ElementSurvives(domain, '.', c);
      assert ValidLabel(Labels(domain)[i]);
    }
  }

  /** The text after the last dot is a label, so a text whose labels are all
      non-empty does not end with a dot. */
  lemma LastIsNotDot(domain: string)
    requires domain != ""
    requires "" !in Labels(domain)
    ensures domain[|domain| - 1] != '.'
  {
    if domain[|domain| - 1] == '.' {
      EndsWithSeparator(domain, '.');
    }
  }

  /** Replaying a journal normalizes every domain again; because the output of
      Normalize is a fixed point, what was written is what is restored. */
  lemma NormalizeIsIdempotent(value: string)
    requires Normalize(value).Some?
    ensures Canonical(Normalize(value).value)
  {
    var domain := Normalize(value).value;
    assert forall piece :: piece in Labels(domain) ==> ValidLabel(piece);
    forall c | c in domain
      ensures !IsSpace(c) && LowerChar(c) == c
    {
      CanonicalChars(domain, c);
    }
    assert TrimSpace(domain) == domain;
    assert ToLower(domain) == domain;
    LastIsNotDot(domain);
    assert TrimDot(domain) == domain;
  }

  /** Letter case and one trailing dot never make two domains out of one. */
  lemma SpellingsAgree(domain: string, spelling: string)
    requires Canonical(domain)
    requires ToLower(spelling) == domain
    requires forall c :: c in spelling ==> !IsSpace(c)
    ensures Normalize(spelling) == Some(domain)
    ensures Normalize(spelling + ".") == Some(domain)
  {
    assert TrimSpace(spelling) == spelling;
    CanonicalEndsInLabel(domain);
    assert spelling != "" by { assert |ToLower(spelling)| == |spelling|; }
    var dotted := spelling + ".";
    assert TrimSpace(dotted) == dotted;
    assert ToLower(dotted) == domain + ".";
    assert TrimDot(domain + ".") == domain;
  }

  lemma CanonicalEndsInLabel(domain: string)
    requires Canonical(domain)
    ensures domain != "" && TrimDot(domain) == domain
    ensures forall piece :: piece in Labels(domain) ==> ValidLabel(piece)
  {
    var trimmed := TrimDot(ToLower(TrimSpace(domain)));
    assert trimmed == domain;
    LastIsNotDot(domain);
  }

  lemma LetterIsCanonical(letter: string)
    requires |letter| == 1 && 'a' <= letter[0] <= 'z'
    ensures Canonical(letter)
  {
    SplitOne(letter, '.');
    assert ToLower(letter) == letter;
    assert TrimLeft(letter) == letter;
  }

  // ---------------------------------------------------------------------
  // Patterns as text

  function PatternText(pattern: Pattern): string {
    if pattern.suffix then "*." + pattern.domain else pattern.domain
  }

  lemma CanonicalStaysItself(domain: string)
    requires Canonical(domain)
    ensures domain != "" && domain[0] != '*' && !IsSpace(domain[0]) && !IsSpace(domain[|domain| - 1])
    ensures ToLower(domain) == domain
  {
    CanonicalEndsInLabel(domain);
    forall c | c in domain
      ensures c != '*' && !IsSpace(c) && LowerChar(c) == c
    {
      CanonicalChars(domain, c);
    }
    assert domain[0] in domain && domain[|domain| - 1] in domain;
  }

  lemma TrimmedStays(text: string)
    requires text != "" && !IsSpace(text[0]) && !IsSpace(text[|text| - 1])
    ensures TrimSpace(text) == text
  {
    hide IsSpace;
  }

  lemma StarredStays(domain: string)
    requires Canonical(domain)
    ensures TrimSpace(ToLower("*." + domain)) == "*." + domain
  {
    CanonicalStaysItself(domain);
    hide Normalize, TrimSpace;
    var text := "*." + domain;
    assert ToLower(text) == text by {
      assert forall i :: 2 <= i < |text| ==> text[i] == domain[i - 2];
      assert forall i :: 0 <= i < |domain| ==> ToLower(domain)[i] == domain[i];
    }
    TrimmedStays(text);
  }

  lemma TextParsesBack(pattern: Pattern)
    requires Canonical(pattern.domain)
    ensures ParsePattern(PatternText(pattern)) == Some(pattern)
  {
    hide Normalize, TrimSpace, ToLower, IsSpace;
    var domain := pattern.domain;
    CanonicalStaysItself(domain);
    if pattern.suffix {
      StarredStays(domain);
      assert ("*." + domain)[..2] == "*." && ("*." + domain)[2..] == domain;
    } else {
      TrimmedStays(domain);
      assert |domain| >= 2 ==> domain[..2][0] == domain[0];
    }
  }

  /** A configured pattern becomes one with a canonical domain, and writing it
      out and parsing it again gives the same pattern. */
  lemma PatternsRoundTrip(value: string)
    requires ParsePattern(value).Some?
    ensures Canonical(ParsePattern(value).value.domain)
    ensures ParsePattern(PatternText(ParsePattern(value).value)) == ParsePattern(value)
  {
    hide Normalize;
    var text := TrimSpace(ToLower(value));
    NormalizeIsIdempotent(if |text| >= 2 && text[..2] == "*." then text[2..] else text);
    TextParsesBack(ParsePattern(value).value);
  }

  // ---------------------------------------------------------------------
  // Suffix patterns respect label boundaries

  predicate LabelSuffix(labels: seq<string>, tail: seq<string>) {
    |tail| <= |labels| && labels[|labels| - |tail|..] == tail
  }

  /** A suffix pattern selects exactly the domains whose trailing labels are
      the labels of the pattern: "*.a.b" selects "x.a.b" but never "xa.b". */
  lemma SuffixMatchesWholeLabels(pattern: Pattern, domain: string)
    requires pattern.suffix
    ensures pattern.Matches(domain) <==> LabelSuffix(Labels(domain), Labels(pattern.domain))
  {
    if HasSuffix(domain, "." + pattern.domain) {
      SplitOfSuffix(domain, pattern.domain);
    }
    if LabelSuffix(Labels(domain), Labels(pattern.domain)) {
      SuffixOfSplit(domain, pattern.domain);
    }
  }

  lemma SplitOfSuffix(domain: string, tail: string)
    requires HasSuffix(domain, "." + tail)
    ensures LabelSuffix(Labels(domain), Labels(tail))
  {
    var front := domain[..|domain| - |tail| - 1];
    assert domain == front + "." + tail;
    SplitAt(front, '.', tail);
  }

  lemma SuffixOfSplit(domain: string, tail: string)
    requires LabelSuffix(Labels(domain), Labels(tail))
    ensures domain == tail || HasSuffix(domain, "." + tail)
  {
    hide Split, Join;
    var labels := Labels(domain);
    JoinSplit(domain, '.');
    JoinSplit(tail, '.');
    var front := labels[..|labels| - |Labels(tail)|];
    assert labels == front + Labels(tail);
    if front != [] {
      JoinAppend(front, Labels(tail), '.');
      assert domain == Join(front, '.') + ("." + tail);
    }
  }
}
