/** Ordered rules. A rule without address prefixes is conclusive; a rule with
    prefixes is decided only when the addresses of the flow are known. */
module Rules {
  import opened Wrappers
  import DomainName

  datatype Address = Invalid | Address(value: nat, v6: bool)

  datatype Prefix = Prefix(first: nat, last: nat, v6: bool) {
    predicate Contains(a: Address) {
      a.Address? && a.v6 == v6 && first <= a.value <= last
    }
  }

  datatype Rule = Rule(id: nat, domains: set<string>, suffixes: seq<string>, cidrs: seq<Prefix>, outbound: string)

  datatype Decision = Decision(ruleID: nat, outbound: string)

  function DecisionOf(rule: Rule): Decision {
    Decision(rule.id, rule.outbound)
  }

  predicate DefaultRule(rule: Rule) {
    rule.domains == {} && rule.suffixes == [] && rule.cidrs == []
  }

  predicate MatchesAnySuffix(domain: string, suffixes: seq<string>) {
    exists suffix :: suffix in suffixes && DomainName.Pattern(true, suffix).Matches(domain)
  }

  predicate MatchesAnyCIDR(addresses: seq<Address>, cidrs: seq<Prefix>) {
    exists prefix, a :: prefix in cidrs && a in addresses && prefix.Contains(a)
  }

  /** The predicates that do not need an address. */
  predicate MatchesBase(rule: Rule, domain: string) {
    && (rule.domains != {} ==> domain in rule.domains)
    && (rule.suffixes != [] ==> domain != "" && MatchesAnySuffix(domain, rule.suffixes))
  }

  predicate Applies(rule: Rule, domain: string, addresses: seq<Address>) {
    && (rule.cidrs != [] ==> MatchesAnyCIDR(addresses, rule.cidrs))
    && MatchesBase(rule, domain)
  }

  predicate Conclusive(rule: Rule, domain: string) {
    rule.cidrs == [] && MatchesBase(rule, domain)
  }

  /** Rules as the engine accepts them: the last one is the default. */
  predicate WithDefault(rules: seq<Rule>) {
    rules != [] && DefaultRule(rules[|rules| - 1])
  }

  /** First-match semantics: the index of the first rule that applies. */
  function Winner(rules: seq<Rule>, domain: string, addresses: seq<Address>): (i: nat)
    requires WithDefault(rules)
    ensures i < |rules| && Applies(rules[i], domain, addresses)
    ensures forall j :: 0 <= j < i ==> !Applies(rules[j], domain, addresses)
  {
    WinnerFrom(rules, domain, addresses, 0)
  }

  function WinnerFrom(rules: seq<Rule>, domain: string, addresses: seq<Address>, from: nat): (i: nat)
    requires WithDefault(rules) && from < |rules|
    ensures from <= i < |rules| && Applies(rules[i], domain, addresses)
    ensures forall j :: from <= j < i ==> !Applies(rules[j], domain, addresses)
    decreases |rules| - from
  {
    if Applies(rules[from], domain, addresses) then from
    else
      assert !DefaultRule(rules[from]);
      WinnerFrom(rules, domain, addresses, from + 1)
  }

  function FirstConclusive(rules: seq<Rule>, domain: string): (i: nat)
    requires WithDefault(rules)
    ensures i < |rules| && Conclusive(rules[i], domain)
    ensures forall j :: 0 <= j < i ==> !Conclusive(rules[j], domain)
  {
    ConclusiveFrom(rules, domain, 0)
  }

  function ConclusiveFrom(rules: seq<Rule>, domain: string, from: nat): (i: nat)
    requires WithDefault(rules) && from < |rules|
    ensures from <= i < |rules| && Conclusive(rules[i], domain)
    ensures forall j :: from <= j < i ==> !Conclusive(rules[j], domain)
    decreases |rules| - from
  {
    if Conclusive(rules[from], domain) then from
    else
      assert !DefaultRule(rules[from]);
      ConclusiveFrom(rules, domain, from + 1)
  }

  /** The rules whose base predicates match, in order. */
  function Matching(rules: seq<Rule>, domain: string): seq<Rule> {
    if rules == [] then []
    else
      var front, last := Matching(rules[..|rules| - 1], domain), rules[|rules| - 1];
      if MatchesBase(last, domain) then front + [last] else front
  }

  function Decisions(rules: seq<Rule>): (ds: seq<Decision>)
    ensures |ds| == |rules|
  {
    seq(|rules|, i requires 0 <= i < |rules| => DecisionOf(rules[i]))
  }

  /** A flow without a domain is a flow to a literal address. */
  function NormalizeMetadata(domain: string): Option<string> {
    if domain == "" then Some("") else DomainName.Normalize(domain)
  }

  // ---------------------------------------------------------------------
  // First match

  lemma {:induction false} MatchingKeeps(rules: seq<Rule>, domain: string, i: nat)
    requires i < |rules| && MatchesBase(rules[i], domain)
    ensures rules[i] in Matching(rules, domain)
  {
    hide MatchesBase;
    if i < |rules| - 1 {
      MatchingKeeps(rules[..|rules| - 1], domain, i);
    }
  }

  /** Whatever a name resolves to, the rule that wins is one of the candidates. */
  lemma WinnerIsACandidate(rules: seq<Rule>, domain: string, addresses: seq<Address>)
    requires WithDefault(rules)
    ensures var w, c := Winner(rules, domain, addresses), FirstConclusive(rules, domain);
            && w <= c && MatchesBase(rules[w], domain)
            && rules[w] in Matching(rules[..c + 1], domain)
  {
    var w, c := Winner(rules, domain, addresses), FirstConclusive(rules, domain);
    assert Applies(rules[c], domain, addresses);
    MatchingKeeps(rules[..c + 1], domain, w);
  }

  /** More addresses let earlier rules win: the winner for a union of answers is
      the earlier of the two winners. */
  lemma WinnerOfUnion(rules: seq<Rule>, domain: string, a: seq<Address>, b: seq<Address>)
    requires WithDefault(rules)
    ensures var wa, wb := Winner(rules, domain, a), Winner(rules, domain, b);
            Winner(rules, domain, a + b) == if wa < wb then wa else wb
  {
    forall rule: Rule
      ensures Applies(rule, domain, a + b) <==> Applies(rule, domain, a) || Applies(rule, domain, b)
    {
      if MatchesAnyCIDR(a, rule.cidrs) {
        var prefix, x :| prefix in rule.cidrs && x in a && prefix.Contains(x);
        assert prefix in rule.cidrs && x in a + b && prefix.Contains(x);
      }
      if MatchesAnyCIDR(b, rule.cidrs) {
        var prefix, x :| prefix in rule.cidrs && x in b && prefix.Contains(x);
        assert prefix in rule.cidrs && x in a + b && prefix.Contains(x);
      }
    }
    hide Applies;
  }

  // ---------------------------------------------------------------------
  // The engine

  method New(rules: seq<Rule>) returns (engine: Option<seq<Rule>>)
    ensures engine == if WithDefault(rules) then Some(rules) else None
  {
    if rules == [] || !DefaultRule(rules[|rules| - 1]) {
      return None;
    }
    var compiled := [];
    for i := 0 to |rules|
      invariant compiled == rules[..i]
    {
      compiled := compiled + [rules[i]];
    }
    assert rules[..|rules|] == rules;
    engine := Some(compiled);
  }

  /** The base-matching rules up to the first conclusive one. */
  method Candidates(rules: seq<Rule>, metadata: string) returns (candidates: Option<seq<Decision>>)
    requires WithDefault(rules)
    ensures match NormalizeMetadata(metadata)
            case None => candidates.None?
            case Some(domain) =>
              candidates == Some(Decisions(Matching(rules[..FirstConclusive(rules, domain) + 1], domain)))
  {
    var normalized := NormalizeMetadata(metadata);
    if normalized.None? {
      return None;
    }
    var domain := normalized.value;
    var found: seq<Decision> := [];
    assert Conclusive(rules[|rules| - 1], domain);
    for i := 0 to |rules|
      invariant found == Decisions(Matching(rules[..i], domain))
      invariant forall j :: 0 <= j < i ==> !Conclusive(rules[j], domain)
    {
      assert rules[..i + 1][..i] == rules[..i];
      if MatchesBase(rules[i], domain) {
        found := found + [DecisionOf(rules[i])];
        assert found == Decisions(Matching(rules[..i + 1], domain));
        if rules[i].cidrs == [] {
          assert FirstConclusive(rules, domain) == i;
          return Some(found);
        }
      }
    }
    assert false;
  }

  /** The ordered match over the addresses of a flow. */
  method MatchResolved(rules: seq<Rule>, metadata: string, addresses: seq<Address>) returns (decision: Option<Decision>)
    requires WithDefault(rules)
    ensures if Invalid in addresses || NormalizeMetadata(metadata).None? then decision.None?
            else decision == Some(DecisionOf(rules[Winner(rules, NormalizeMetadata(metadata).value, addresses)]))
  {
    if Invalid in addresses {
      return None;
    }
    var normalized := NormalizeMetadata(metadata);
    if normalized.None? {
      return None;
    }
    var domain := normalized.value;
    hide DomainName.Normalize;
    assert Applies(rules[|rules| - 1], domain, addresses);
    for i := 0 to |rules|
      invariant forall j :: 0 <= j < i ==> !Applies(rules[j], domain, addresses)
    {
      if rules[i].cidrs == [] || MatchesAnyCIDR(addresses, rules[i].cidrs) {
        if MatchesBase(rules[i], domain) {
          assert Winner(rules, domain, addresses) == i;
          return Some(DecisionOf(rules[i]));
        }
      }
    }
    assert false;
  }

  /** The domain predicates of a rule select the name. */
  predicate Selects(rule: Rule, domain: string) {
    && !(rule.domains == {} && rule.suffixes == [])
    && (rule.domains != {} ==> domain in rule.domains)
    && (rule.suffixes != [] ==> MatchesAnySuffix(domain, rule.suffixes))
  }

  method RequiresFakeIP(rules: seq<Rule>, domain: string) returns (required: bool)
    ensures required <==> var n := DomainName.Normalize(domain);
                          n.Some? && exists i :: 0 <= i < |rules| && Selects(rules[i], n.value)
  {
    var normalized := DomainName.Normalize(domain);
    if normalized.None? {
      return false;
    }
    hide DomainName.Normalize;
    for i := 0 to |rules|
      invariant forall j :: 0 <= j < i ==> !Selects(rules[j], normalized.value)
    {
      if rules[i].domains == {} && rules[i].suffixes == [] {
        continue;
      }
      if rules[i].domains != {} && normalized.value !in rules[i].domains {
        continue;
      }
      if rules[i].suffixes != [] && !MatchesAnySuffix(normalized.value, rules[i].suffixes) {
        continue;
      }
      return true;
    }
    required := false;
  }

  /** If no rule selects a name, then for every set of addresses the decision
      with the name is the decision for the bare addresses: answering with real
      addresses loses no policy. */
  lemma RealAddressesLoseNothing(rules: seq<Rule>, domain: string, addresses: seq<Address>)
    requires WithDefault(rules) && domain != "" && forall i :: 0 <= i < |rules| ==> "" !in rules[i].domains
    requires forall i :: 0 <= i < |rules| ==> !Selects(rules[i], domain)
    ensures Winner(rules, domain, addresses) == Winner(rules, "", addresses)
  {
    hide MatchesAnySuffix, MatchesAnyCIDR;
    forall i | 0 <= i < |rules|
      ensures Applies(rules[i], domain, addresses) <==> Applies(rules[i], "", addresses)
    {
      assert !Selects(rules[i], domain);
    }
    hide Applies;
  }
}
