/** From a flow to a connection: the policy decision, resolution through the
    decided outbound, and dialling along its fallback chain. Resolvers and
    dialers are arbitrary: what they answer may depend on everything asked of
    them before. */
module Session {
  import opened Wrappers
  import opened Fallbacks
  import opened Rules

  datatype Route = Route(reject: bool, fallback: string)

  type Routes = map<string, Route>

  function Links(routes: Routes): Fallbacks.Links {
    map name | name in routes :: routes[name].fallback
  }

  /** What NewTCP and NewUDP accept. */
  ghost predicate ValidRoutes(routes: Routes) {
    && NONE !in routes
    && (forall name :: name in routes && routes[name].reject ==> routes[name].fallback == NONE)
    && Closed(Links(routes)) && Acyclic(Links(routes))
  }

  datatype Lookup = Found(addresses: seq<Address>) | LookupFailed(business: bool, recoverable: bool)

  /** For UDP a try also sends the first datagram. */
  datatype Dial = Connected | DialFailed(recoverable: bool)

  datatype Event = Asked(outbound: string, answer: Lookup) | Tried(outbound: string, address: Address, result: Dial)

  datatype Resolution = Resolution(outbound: string, addresses: seq<Address>)

  datatype Error = NotConfigured | RejectedByPolicy | Failed

  class Network {
    const resolve: (seq<Event>, string) -> Lookup
    const dial: (seq<Event>, string, Address) -> Dial
    var trace: seq<Event>

    constructor (resolve: (seq<Event>, string) -> Lookup, dial: (seq<Event>, string, Address) -> Dial)
      ensures trace == [] && this.resolve == resolve && this.dial == dial
    {
      this.resolve := resolve;
      this.dial := dial;
      trace := [];
    }

    method LookupAddresses(outbound: string) returns (answer: Lookup)
      modifies this
      ensures trace == old(trace) + [Asked(outbound, answer)]
    {
      answer := resolve(trace, outbound);
      trace := trace + [Asked(outbound, answer)];
    }

    method DialAddress(outbound: string, address: Address) returns (result: Dial)
      modifies this
      ensures trace == old(trace) + [Tried(outbound, address, result)]
    {
      result := dial(trace, outbound, address);
      trace := trace + [Tried(outbound, address, result)];
    }
  }

  // ---------------------------------------------------------------------
  // What a trace shows

  /** The address was the flow's literal destination, or it came from the
      outbound's own resolver before. */
  ghost predicate OwnAddress(trace: seq<Event>, outbound: string, address: Address, literal: Option<Address>) {
    || literal == Some(address)
    || exists i :: 0 <= i < |trace| && trace[i].Asked? && trace[i].outbound == outbound
                   && trace[i].answer.Found? && address in trace[i].answer.addresses
  }

  ghost predicate Sourced(trace: seq<Event>, literal: Option<Address>) {
    forall k :: 0 <= k < |trace| && trace[k].Tried? ==> OwnAddress(trace[..k], trace[k].outbound, trace[k].address, literal)
  }

  ghost predicate Known(trace: seq<Event>, r: Resolution) {
    exists i :: 0 <= i < |trace| && trace[i] == Asked(r.outbound, Found(r.addresses))
  }

  lemma KnownLater(trace: seq<Event>, more: seq<Event>, r: Resolution)
    requires Known(trace, r)
    ensures Known(trace + more, r)
  {
    var i :| 0 <= i < |trace| && trace[i] == Asked(r.outbound, Found(r.addresses));
    assert (trace + more)[i] == trace[i];
  }

  lemma SourcedWith(trace: seq<Event>, e: Event, literal: Option<Address>)
    requires Sourced(trace, literal)
    requires e.Tried? ==> OwnAddress(trace, e.outbound, e.address, literal)
    ensures Sourced(trace + [e], literal)
  {
    var longer := trace + [e];
    forall k | 0 <= k < |longer| && longer[k].Tried?
      ensures OwnAddress(longer[..k], longer[k].outbound, longer[k].address, literal)
    {
      if k < |trace| {
        assert longer[..k] == trace[..k] && longer[k] == trace[k];
      } else {
        assert longer[..k] == trace;
      }
    }
  }

  /** The lookups of one resolution follow the fallback chain from start, one
      outbound after the other. */
  ghost predicate FollowsChain(links: Fallbacks.Links, start: string, asked: seq<Event>) {
    forall i :: 0 <= i < |asked| ==> asked[i].Asked? && asked[i].outbound == Walk(links, start, i)
  }

  lemma ChainGrows(links: Fallbacks.Links, start: string, asked: seq<Event>, e: Event)
    requires FollowsChain(links, start, asked)
    requires e.Asked? && e.outbound == Walk(links, start, |asked|)
    ensures FollowsChain(links, start, asked + [e])
  {
  }

  /** A valid chain asks every outbound at most once. */
  lemma AskedOnce(links: Fallbacks.Links, start: string, asked: seq<Event>, i: nat, j: nat)
    requires Acyclic(links) && FollowsChain(links, start, asked)
    requires i < j < |asked| && asked[i].outbound in links
    ensures asked[i].outbound != asked[j].outbound
  {
    VisitsOnce(links, start, i, j);
  }

  /** A position on the chain from start: n hops down, with at least as many
      outbounds left as the chain still visits. */
  ghost predicate At(routes: Routes, start: string, n: nat, name: string) {
    && Walk(Links(routes), start, n) == name
    && (n > 0 ==> name in routes || name == NONE)
    && (name in routes ==> n <= |routes| && Ends(Links(routes), name, |routes| - n))
  }

  lemma AtStart(routes: Routes, start: string)
    requires ValidRoutes(routes)
    ensures At(routes, start, 0, start)
  {
    var links := Links(routes);
    assert links.Keys == routes.Keys;
    assert |links| == |links.Keys| && |routes| == |routes.Keys|;
    ValidIffChainsEnd(links);
  }

  lemma OneHop(routes: Routes, start: string, n: nat, name: string)
    requires ValidRoutes(routes) && At(routes, start, n, name) && name in routes
    ensures n < |routes| && Reaches(Links(routes), start, name)
    ensures At(routes, start, n + 1, routes[name].fallback)
  {
    var links := Links(routes);
    WalkNext(links, start, n);
    assert links[name] == routes[name].fallback;
    assert Ends(links, links[name], |routes| - n - 1);
  }

  // ---------------------------------------------------------------------
  // Resolving for a decision

  predicate Retryable(e: Event) {
    e.Asked? && e.answer.LookupFailed? && !e.answer.business && e.answer.recoverable
  }

  /** What the lookups of one resolution decide. Only a recoverable failure goes
      on to the fallback; an empty answer does not. */
  ghost predicate ResolvedBy(routes: Routes, start: string, asked: seq<Event>, r: Result<Resolution, Error>) {
    && (forall i :: 0 <= i < |asked| - 1 ==> Retryable(asked[i]))
    && match r
       case Ok(v) => asked != [] && v.addresses != [] && asked[|asked| - 1] == Asked(v.outbound, Found(v.addresses))
       case Err(NotConfigured) => asked == [] && start !in routes
       case Err(RejectedByPolicy) =>
         && (asked != [] ==> Retryable(asked[|asked| - 1]))
         && var next := Walk(Links(routes), start, |asked|);
            next in routes && routes[next].reject
       case Err(Failed) =>
         && asked != [] && var last := asked[|asked| - 1];
            && last.Asked? && (last.answer.Found? ==> last.answer.addresses == [])
            && (!Retryable(last) || (last.outbound in routes && routes[last.outbound].fallback == NONE))
  }

  /** resolveForDecision: asks along the chain until a resolver answers. */
  method ResolveForDecision(network: Network, routes: Routes, start: string) returns (r: Result<Resolution, Error>)
    requires ValidRoutes(routes) && start != NONE
    modifies network
    ensures old(network.trace) <= network.trace
    ensures FollowsChain(Links(routes), start, network.trace[|old(network.trace)|..])
    ensures |network.trace| - |old(network.trace)| <= |routes|
    ensures ResolvedBy(routes, start, network.trace[|old(network.trace)|..], r)
    ensures r.Ok? ==>
              && r.value.outbound in routes && r.value.outbound != NONE
              && !routes[r.value.outbound].reject && r.value.addresses != []
              && Reaches(Links(routes), start, r.value.outbound) && Known(network.trace, r.value)
    ensures start in routes ==> r != Err(NotConfigured)
    ensures start in routes && routes[start].reject ==> r == Err(RejectedByPolicy)
  {
    hide ValidRoutes, Reaches, At, Known, FollowsChain, Walk, Fallbacks.Ends;
    var links := Links(routes);
    var current := start;
    ghost var before := network.trace;
    ghost var asked: seq<Event> := [];
    ghost var n: nat := 0;
    AtStart(routes, start);
    NothingAsked(links, start);
    while current != NONE
      invariant network.trace == before + asked && |asked| == n <= |routes|
      invariant FollowsChain(links, start, asked) && At(routes, start, n, current)
      invariant start in routes ==> current in routes || current == NONE
      invariant current != NONE
      invariant n == 0 ==> current == start
      invariant n > 0 ==> start in routes && !routes[start].reject
      invariant forall i :: 0 <= i < n ==> Retryable(asked[i])
      decreases |routes| - n
    {
      assert network.trace[|before|..] == asked;
      WalkOf(routes, start, n, current);
      if current !in routes {
        return Err(NotConfigured);
      }
      var route := routes[current];
      if route.reject {
        return Err(RejectedByPolicy);
      }
      OneHop(routes, start, n, current);
      WalkOf(routes, start, n + 1, route.fallback);
      var answer := network.LookupAddresses(current);
      ChainGrows(links, start, asked, Asked(current, answer));
      asked := asked + [Asked(current, answer)];
      n := n + 1;
      assert network.trace == before + asked;
      assert network.trace[|before|..] == asked;
      if answer.Found? && answer.addresses != [] {
        KnownLast(network.trace, Resolution(current, answer.addresses));
        return Ok(Resolution(current, answer.addresses));
      }
      // An empty answer is an error that no fallback recovers from.
      if answer.Found? || answer.business || !answer.recoverable || route.fallback == NONE {
        return Err(Failed);
      }
      current := route.fallback;
    }
    assert false;
  }

  lemma NothingAsked(links: Fallbacks.Links, start: string)
    ensures FollowsChain(links, start, [])
  {
  }

  lemma WalkOf(routes: Routes, start: string, n: nat, name: string)
    requires At(routes, start, n, name)
    ensures Walk(Links(routes), start, n) == name
    ensures n > 0 ==> name in routes || name == NONE
  {
  }

  lemma KnownLast(trace: seq<Event>, r: Resolution)
    requires trace != [] && trace[|trace| - 1] == Asked(r.outbound, Found(r.addresses))
    ensures Known(trace, r)
  {
  }

  // ---------------------------------------------------------------------
  // The decision

  /** Every rule that can win rejects. */
  ghost predicate AllReject(rules: seq<Rule>, domain: string, routes: Routes)
    requires WithDefault(rules)
  {
    forall rule :: rule in Matching(rules[..FirstConclusive(rules, domain) + 1], domain) ==>
      rule.outbound in routes && routes[rule.outbound].reject
  }

  /** When all candidates reject, resolving could not change the verdict. */
  lemma SkippingIsSafe(rules: seq<Rule>, domain: string, routes: Routes, addresses: seq<Address>)
    requires WithDefault(rules) && AllReject(rules, domain, routes)
    ensures var outbound := rules[Winner(rules, domain, addresses)].outbound; outbound in routes && routes[outbound].reject
  {
    WinnerIsACandidate(rules, domain, addresses);
  }

  lemma LastCandidate(rules: seq<Rule>, domain: string)
    requires WithDefault(rules)
    ensures var c, matching := FirstConclusive(rules, domain), Matching(rules[..FirstConclusive(rules, domain) + 1], domain);
            matching != [] && matching[|matching| - 1] == rules[c]
  {
    var c := FirstConclusive(rules, domain);
    assert rules[..c + 1][|rules[..c + 1]| - 1] == rules[c];
  }

  /** The rule whose outbound resolves: the conclusive candidate, or, if that
      one rejects, the first candidate that does not. */
  method ResolutionCandidate(candidates: seq<Decision>, routes: Routes) returns (r: Result<Option<Decision>, Error>)
    requires candidates != []
    ensures r.Ok? && r.value.Some? ==>
              r.value.value in candidates && r.value.value.outbound in routes && !routes[r.value.value.outbound].reject
    ensures r.Ok? && r.value.None? ==>
              forall d :: d in candidates ==> d.outbound in routes && routes[d.outbound].reject
    ensures (forall d :: d in candidates ==> d.outbound in routes) ==> r.Ok?
  {
    var candidate := candidates[|candidates| - 1];
    if candidate.outbound !in routes {
      return Err(NotConfigured);
    }
    if !routes[candidate.outbound].reject {
      return Ok(Some(candidate));
    }
    for i := 0 to |candidates| - 1
      invariant forall j :: 0 <= j < i ==> candidates[j].outbound in routes && routes[candidates[j].outbound].reject
    {
      var deferred := candidates[i];
      if deferred.outbound !in routes {
        return Err(NotConfigured);
      }
      if !routes[deferred.outbound].reject {
        return Ok(Some(deferred));
      }
    }
    r := Ok(None);
  }

  /** How a flow to a name was decided: by the first answer, or without one
      because no answer could have mattered. */
  ghost predicate DecidedBy(rules: seq<Rule>, domain: string, routes: Routes, first: Option<Resolution>, decision: Decision)
    requires WithDefault(rules)
  {
    match first
    case Some(answer) => decision == DecisionOf(rules[Winner(rules, domain, answer.addresses)])
    case None => AllReject(rules, domain, routes) && decision == DecisionOf(rules[FirstConclusive(rules, domain)])
  }

  /** Every lookup brought addresses, and only valid ones. */
  predicate AllAnswered(asked: seq<Event>) {
    forall e :: e in asked ==> e.Asked? && e.answer.Found? && e.answer.addresses != [] && Invalid !in e.answer.addresses
  }

  lemma AnsweredMeansResolved(routes: Routes, start: string, asked: seq<Event>, r: Result<Resolution, Error>)
    requires ResolvedBy(routes, start, asked, r) && start in routes && !routes[start].reject
    ensures AllAnswered(asked) ==> r.Ok? && Invalid !in r.value.addresses
  {
    if AllAnswered(asked) && asked != [] {
      assert asked[|asked| - 1] in asked;
    }
  }

  lemma MatchingIsSubset(rules: seq<Rule>, domain: string)
    ensures forall rule :: rule in Matching(rules, domain) ==> rule in rules
  {
    if rules != [] {
      MatchingIsSubset(rules[..|rules| - 1], domain);
    }
  }

  lemma CandidatesAreConfigured(rules: seq<Rule>, n: nat, domain: string, routes: Routes)
    requires n <= |rules| && Configured(rules, routes)
    ensures forall d :: d in Decisions(Matching(rules[..n], domain)) ==> d.outbound in routes
  {
    hide MatchesBase;
    MatchingIsSubset(rules[..n], domain);
    CandidatesReject(Matching(rules[..n], domain), routes);
  }

  ghost predicate Configured(rules: seq<Rule>, routes: Routes) {
    forall rule :: rule in rules ==> rule.outbound in routes
  }

  /** The first half of decideFlow: the conclusive decision, and the outbound to
      resolve through unless every candidate rejects. */
  method Choose(routes: Routes, rules: seq<Rule>, metadata: string) returns (r: Result<(Decision, Option<string>), Error>)
    requires ValidRoutes(routes) && WithDefault(rules)
    ensures r.Ok? ==>
              && NormalizeMetadata(metadata).Some?
              && r.value.0 == DecisionOf(rules[FirstConclusive(rules, NormalizeMetadata(metadata).value)])
              && (r.value.1.None? <==> AllReject(rules, NormalizeMetadata(metadata).value, routes))
              && (r.value.1.Some? ==> r.value.1.value in routes && !routes[r.value.1.value].reject && r.value.1.value != NONE)
    ensures NormalizeMetadata(metadata).Some? ==>
              (Configured(rules, routes) || AllReject(rules, NormalizeMetadata(metadata).value, routes) ==> r.Ok?)
  {
    hide ValidRoutes, FirstConclusive, Matching;
    var candidates := Candidates(rules, metadata);
    if candidates.None? {
      return Err(Failed);
    }
    ghost var domain := NormalizeMetadata(metadata).value;
    ghost var n := FirstConclusive(rules, domain) + 1;
    LastCandidate(rules, domain);
    var candidate := candidates.value[|candidates.value| - 1];
    assert candidate == DecisionOf(rules[n - 1]);
    CandidatesReject(Matching(rules[..n], domain), routes);
    if Configured(rules, routes) {
      CandidatesAreConfigured(rules, n, domain, routes);
    }
    var chosen := ResolutionCandidate(candidates.value, routes);
    if chosen.Err? {
      return Err(chosen.error);
    }
    if chosen.value.None? {
      return Ok((candidate, None));
    }
    NamesAreNotEmpty(routes, chosen.value.value.outbound);
    r := Ok((candidate, Some(chosen.value.value.outbound)));
  }

  /** The second half: resolves through start, matches again, and resolves once
      more if another outbound was decided. */
  method Decide(network: Network, routes: Routes, rules: seq<Rule>, metadata: string, start: string)
    returns (r: Result<(Decision, Option<Resolution>), Error>, ghost first: Option<Resolution>)
    requires ValidRoutes(routes) && WithDefault(rules) && NormalizeMetadata(metadata).Some?
    requires start in routes && !routes[start].reject && start != NONE
    modifies network
    ensures old(network.trace) <= network.trace
    ensures forall i :: |old(network.trace)| <= i < |network.trace| ==> network.trace[i].Asked?
    ensures Configured(rules, routes) ==> (AllAnswered(network.trace[|old(network.trace)|..]) ==> r.Ok?)
    ensures r.Ok? ==>
              && first.Some? && Known(network.trace, first.value)
              && r.value.0 == DecisionOf(rules[Winner(rules, NormalizeMetadata(metadata).value, first.value.addresses)])
              && match r.value.1
                 case Some(prepared) =>
                   && prepared.outbound != NONE && Known(network.trace, prepared)
                   && Reaches(Links(routes), r.value.0.outbound, prepared.outbound)
                 case None => r.value.0.outbound in routes && routes[r.value.0.outbound].reject
  {
    hide ValidRoutes, Reaches, Known, Winner, ResolvedBy, FollowsChain, AllAnswered;
    first := None;
    ghost var before := network.trace;
    var answer := ResolveForDecision(network, routes, start);
    AllAsked(Links(routes), start, before, network.trace);
    AnsweredMeansResolved(routes, start, network.trace[|before|..], answer);
    if answer.Err? {
      return Err(answer.error), None;
    }
    first := Some(answer.value);
    var matched := MatchResolved(rules, metadata, answer.value.addresses);
    if matched.None? {
      return Err(Failed), first;
    }
    var final := matched.value;
    if final.outbound == start || final.outbound == answer.value.outbound {
      ReachesSelf(Links(routes), answer.value.outbound);
      return Ok((final, Some(answer.value))), first;
    }
    if final.outbound !in routes {
      return Err(NotConfigured), first;
    }
    if routes[final.outbound].reject {
      return Ok((final, None)), first;
    }
    NamesAreNotEmpty(routes, final.outbound);
    ghost var middle := network.trace;
    var second := ResolveForDecision(network, routes, final.outbound);
    ghost var later := network.trace[|middle|..];
    AllAsked(Links(routes), final.outbound, middle, network.trace);
    AnsweredMeansResolved(routes, final.outbound, later, second);
    KnownLater(middle, later, first.value);
    assert middle + later == network.trace;
    BothAnswered(middle[|before|..], later);
    assert network.trace[|before|..] == middle[|before|..] + later;
    r := if second.Ok? then Ok((final, Some(second.value))) else Err(second.error);
  }

  lemma BothAnswered(a: seq<Event>, b: seq<Event>)
    ensures AllAnswered(a + b) ==> AllAnswered(b)
  {
    if AllAnswered(a + b) {
      forall e | e in b
        ensures e in a + b
      {
      }
    }
  }

  /** decideFlow for a name. prepared, if any, was resolved along the fallback
      chain of the decided outbound. */
  method DecideByName(network: Network, routes: Routes, rules: seq<Rule>, metadata: string)
    returns (r: Result<(Decision, Option<Resolution>), Error>, ghost first: Option<Resolution>)
    requires ValidRoutes(routes) && WithDefault(rules)
    modifies network
    ensures old(network.trace) <= network.trace
    ensures forall i :: |old(network.trace)| <= i < |network.trace| ==> network.trace[i].Asked?
    ensures NormalizeMetadata(metadata).Some? ==>
              && (AllReject(rules, NormalizeMetadata(metadata).value, routes) ==>
                    r.Ok? && first.None? && network.trace == old(network.trace))
              && (Configured(rules, routes) && AllAnswered(network.trace[|old(network.trace)|..]) ==> r.Ok?)
    ensures r.Ok? ==>
              && NormalizeMetadata(metadata).Some?
              && DecidedBy(rules, NormalizeMetadata(metadata).value, routes, first, r.value.0)
              && (first.Some? ==> Known(network.trace, first.value))
              && match r.value.1
                 case Some(prepared) =>
                   && prepared.outbound != NONE && Known(network.trace, prepared)
                   && Reaches(Links(routes), r.value.0.outbound, prepared.outbound)
                 case None => r.value.0.outbound in routes && routes[r.value.0.outbound].reject
  {
    hide ValidRoutes, Reaches, Known, Winner, FirstConclusive, AllAnswered, AllReject, Configured;
    var choice := Choose(routes, rules, metadata);
    if choice.Err? {
      return Err(choice.error), None;
    }
    match choice.value.1 {
      case None =>
        ConclusiveRejects(rules, NormalizeMetadata(metadata).value, routes);
        r, first := Ok((choice.value.0, None)), None;
      case Some(start) =>
        r, first := Decide(network, routes, rules, metadata, start);
    }
  }

  lemma ConclusiveRejects(rules: seq<Rule>, domain: string, routes: Routes)
    requires WithDefault(rules) && AllReject(rules, domain, routes)
    ensures var outbound := rules[FirstConclusive(rules, domain)].outbound; outbound in routes && routes[outbound].reject
  {
    LastCandidate(rules, domain);
    var matching := Matching(rules[..FirstConclusive(rules, domain) + 1], domain);
    assert matching[|matching| - 1] in matching;
  }

  lemma CandidatesReject(matching: seq<Rule>, routes: Routes)
    ensures (forall d :: d in Decisions(matching) ==> d.outbound in routes && routes[d.outbound].reject)
       <==> (forall rule :: rule in matching ==> rule.outbound in routes && routes[rule.outbound].reject)
    ensures (forall rule :: rule in matching ==> rule.outbound in routes)
       ==> (forall d :: d in Decisions(matching) ==> d.outbound in routes)
  {
    forall rule | rule in matching
      ensures DecisionOf(rule) in Decisions(matching)
    {
      var i :| 0 <= i < |matching| && matching[i] == rule;
      assert Decisions(matching)[i] == DecisionOf(rule);
    }
    forall d | d in Decisions(matching)
      ensures exists rule :: rule in matching && d == DecisionOf(rule)
    {
      var i :| 0 <= i < |matching| && Decisions(matching)[i] == d;
      assert matching[i] in matching;
    }
  }

  lemma NamesAreNotEmpty(routes: Routes, name: string)
    requires ValidRoutes(routes) && name in routes
    ensures name != NONE
  {
  }

  lemma AllAsked(links: Fallbacks.Links, start: string, before: seq<Event>, after: seq<Event>)
    requires before <= after && FollowsChain(links, start, after[|before|..])
    ensures forall i :: |before| <= i < |after| ==> after[i].Asked?
  {
    forall i | |before| <= i < |after|
      ensures after[i].Asked?
    {
      assert after[|before|..][i - |before|] == after[i];
    }
  }

  // ---------------------------------------------------------------------
  // Connecting

  predicate AllRecoverable(tries: seq<Event>) {
    forall e :: e in tries ==> e.Tried? && e.result.DialFailed? && e.result.recoverable
  }

  /** Tries the addresses in order until one connects. */
  method TryAll(network: Network, outbound: string, addresses: seq<Address>, ghost literal: Option<Address>)
    returns (connected: bool, allRecoverable: bool)
    requires Sourced(network.trace, literal)
    requires forall a :: a in addresses ==> OwnAddress(network.trace, outbound, a, literal)
    modifies network
    ensures old(network.trace) <= network.trace && Sourced(network.trace, literal)
    ensures connected ==>
              && |network.trace| > |old(network.trace)|
              && var last := network.trace[|network.trace| - 1];
                 last.Tried? && last.outbound == outbound && last.result.Connected?
    ensures !connected ==>
              && |network.trace| == |old(network.trace)| + |addresses|
              && (allRecoverable <==> AllRecoverable(network.trace[|old(network.trace)|..]))
              && forall e :: e in network.trace[|old(network.trace)|..] ==> e.Tried? && e.result.DialFailed?
  {
    hide OwnAddress, Sourced;
    connected, allRecoverable := false, true;
    ghost var before := network.trace;
    for i := 0 to |addresses|
      invariant before <= network.trace && Sourced(network.trace, literal)
      invariant |network.trace| == |before| + i
      invariant forall a :: a in addresses ==> OwnAddress(network.trace, outbound, a, literal)
      invariant allRecoverable <==> AllRecoverable(network.trace[|before|..])
      invariant forall e :: e in network.trace[|before|..] ==> e.Tried? && e.result.DialFailed?
    {
      ghost var trace := network.trace;
      var result := network.DialAddress(outbound, addresses[i]);
      SourcedWith(trace, Tried(outbound, addresses[i], result), literal);
      OwnLater(trace, network.trace, outbound, addresses, literal);
      if result.Connected? {
        return true, allRecoverable;
      }
      allRecoverable := allRecoverable && result.recoverable;
      assert network.trace[|before|..] == trace[|before|..] + [Tried(outbound, addresses[i], result)];
    }
  }

  lemma OwnLater(trace: seq<Event>, longer: seq<Event>, outbound: string, addresses: seq<Address>, literal: Option<Address>)
    requires trace <= longer
    requires forall a :: a in addresses ==> OwnAddress(trace, outbound, a, literal)
    ensures forall a :: a in addresses ==> OwnAddress(longer, outbound, a, literal)
  {
    forall a | a in addresses
      ensures OwnAddress(longer, outbound, a, literal)
    {
      assert OwnAddress(trace, outbound, a, literal);
      if literal != Some(a) {
        var i :| 0 <= i < |trace| && trace[i].Asked? && trace[i].outbound == outbound
                 && trace[i].answer.Found? && a in trace[i].answer.addresses;
        assert longer[i] == trace[i];
      }
    }
  }

  lemma OwnAnswer(trace: seq<Event>, outbound: string, addresses: seq<Address>, literal: Option<Address>)
    requires Known(trace, Resolution(outbound, addresses))
    ensures forall a :: a in addresses ==> OwnAddress(trace, outbound, a, literal)
  {
    var i :| 0 <= i < |trace| && trace[i] == Asked(outbound, Found(addresses));
  }

  lemma OwnLiteral(trace: seq<Event>, outbound: string, literal: Address)
    ensures forall a :: a in [literal] ==> OwnAddress(trace, outbound, a, Some(literal))
  {
  }

  /** The addresses for one outbound: prepared ones, the literal one, or what its
      own resolver says now. */
  method AddressesFor(network: Network, outbound: string, literal: Option<Address>, prepared: Option<Resolution>)
    returns (answer: Lookup)
    requires Sourced(network.trace, literal) && (prepared.Some? ==> Known(network.trace, prepared.value))
    modifies network
    ensures old(network.trace) <= network.trace && Sourced(network.trace, literal)
    ensures answer.Found? ==> forall a :: a in answer.addresses ==> OwnAddress(network.trace, outbound, a, literal)
    ensures var asked := network.trace[|old(network.trace)|..];
            if answer.Found? then forall e :: e in asked ==> e.Asked? && e.answer.Found?
            else asked == [Asked(outbound, answer)]
  {
    hide OwnAddress, Sourced, Known;
    if prepared.Some? && prepared.value.outbound == outbound {
      OwnAnswer(network.trace, outbound, prepared.value.addresses, literal);
      answer := Found(prepared.value.addresses);
    } else if literal.Some? {
      OwnLiteral(network.trace, outbound, literal.value);
      answer := Found([literal.value]);
    } else {
      ghost var trace := network.trace;
      answer := network.LookupAddresses(outbound);
      SourcedWith(trace, Asked(outbound, answer), literal);
      if answer.Found? {
        KnownLast(network.trace, Resolution(outbound, answer.addresses));
        OwnAnswer(network.trace, outbound, answer.addresses, literal);
      }
    }
  }

  /** What happened at one outbound. */
  datatype Attempt = Attempt(outbound: string, events: seq<Event>)

  function Flatten(attempts: seq<Attempt>): seq<Event> {
    if attempts == [] then [] else Flatten(attempts[..|attempts| - 1]) + attempts[|attempts| - 1].events
  }

  /** Nothing connected, and nothing failed for good. */
  predicate MayFallBack(events: seq<Event>) {
    forall e :: e in events ==>
      if e.Asked? then e.answer.Found? || Retryable(e)
      else e.result.DialFailed? && e.result.recoverable
  }

  /** What the attempts at the outbounds of a chain decide. */
  ghost predicate ConnectedBy(routes: Routes, start: string, attempts: seq<Attempt>, r: Result<string, Error>) {
    && (forall i :: 0 <= i < |attempts| ==>
          && attempts[i].outbound == Walk(Links(routes), start, i)
          && attempts[i].outbound in routes && !routes[attempts[i].outbound].reject)
    && (forall i :: 0 <= i < |attempts| - 1 ==> MayFallBack(attempts[i].events))
    && match r
       case Ok(selected) =>
         && attempts != [] && var last := attempts[|attempts| - 1];
            && last.outbound == selected && last.events != []
            && var e := last.events[|last.events| - 1]; e.Tried? && e.outbound == selected && e.result.Connected?
       case Err(NotConfigured) => attempts == [] && start !in routes
       case Err(RejectedByPolicy) =>
         && (attempts != [] ==> MayFallBack(attempts[|attempts| - 1].events))
         && var next := Walk(Links(routes), start, |attempts|);
            next in routes && routes[next].reject
       case Err(Failed) =>
         && attempts != [] && var last := attempts[|attempts| - 1];
            && (forall e :: e in last.events ==> e.Tried? ==> e.result.DialFailed?)
            && (!MayFallBack(last.events) || routes[last.outbound].fallback == NONE)
  }

  /** The attempts so far, all of which may fall back. */
  ghost predicate SoFar(routes: Routes, start: string, attempts: seq<Attempt>) {
    forall i :: 0 <= i < |attempts| ==>
      && attempts[i].outbound == Walk(Links(routes), start, i)
      && attempts[i].outbound in routes && !routes[attempts[i].outbound].reject
      && MayFallBack(attempts[i].events)
  }

  lemma FlattenGrows(attempts: seq<Attempt>, a: Attempt)
    ensures Flatten(attempts + [a]) == Flatten(attempts) + a.events
  {
    assert (attempts + [a])[..|attempts + [a]| - 1] == attempts;
  }

  lemma NoAttempts(routes: Routes, start: string)
    ensures SoFar(routes, start, []) && Flatten([]) == []
  {
  }

  lemma StopsBefore(routes: Routes, start: string, attempts: seq<Attempt>, current: string)
    requires SoFar(routes, start, attempts) && Walk(Links(routes), start, |attempts|) == current
    ensures current !in routes && attempts == [] && current == start ==>
              ConnectedBy(routes, start, attempts, Err(NotConfigured))
    ensures current in routes && routes[current].reject ==> ConnectedBy(routes, start, attempts, Err(RejectedByPolicy))
  {
    hide MayFallBack, Walk;
  }

  ghost predicate EndsConnected(events: seq<Event>, outbound: string) {
    events != [] && var e := events[|events| - 1]; e.Tried? && e.outbound == outbound && e.result.Connected?
  }

  lemma StopsAfter(routes: Routes, start: string, attempts: seq<Attempt>, a: Attempt, connected: bool, goOn: bool)
    requires SoFar(routes, start, attempts)
    requires a.outbound == Walk(Links(routes), start, |attempts|) && a.outbound in routes && !routes[a.outbound].reject
    requires if connected then EndsConnected(a.events, a.outbound)
             else (goOn <==> MayFallBack(a.events)) && forall e :: e in a.events ==> e.Tried? ==> e.result.DialFailed?
    ensures connected ==> ConnectedBy(routes, start, attempts + [a], Ok(a.outbound))
    ensures !connected && (!goOn || routes[a.outbound].fallback == NONE) ==>
              ConnectedBy(routes, start, attempts + [a], Err(Failed))
    ensures !connected && goOn ==> SoFar(routes, start, attempts + [a])
  {
    hide MayFallBack, Walk;
  }

  /** One outbound of the chain: addresses, then dials. */
  method TryOutbound(network: Network, outbound: string, literal: Option<Address>, prepared: Option<Resolution>)
    returns (connected: bool, goOn: bool)
    requires Sourced(network.trace, literal) && (prepared.Some? ==> Known(network.trace, prepared.value))
    modifies network
    ensures old(network.trace) <= network.trace && Sourced(network.trace, literal)
    ensures var events := network.trace[|old(network.trace)|..];
            if connected then EndsConnected(events, outbound)
            else
              && (goOn <==> MayFallBack(events))
              && forall e :: e in events ==> e.Tried? ==> e.result.DialFailed?
  {
    hide OwnAddress, Sourced, Known;
    ghost var before := network.trace;
    var answer := AddressesFor(network, outbound, literal, prepared);
    ghost var asked := network.trace[|before|..];
    assert network.trace == before + asked;
    if answer.LookupFailed? {
      return false, !answer.business && answer.recoverable;
    }
    ghost var middle := network.trace;
    connected, goOn := TryAll(network, outbound, answer.addresses, literal);
    ghost var tried := network.trace[|middle|..];
    assert network.trace[|before|..] == asked + tried;
  }

  /** connectPrepared and connectAndSendPrepared: down the fallback chain until a
      dial succeeds. */
  method ConnectPrepared(network: Network, routes: Routes, outboundName: string, literal: Option<Address>, prepared: Option<Resolution>)
    returns (r: Result<string, Error>, ghost attempts: seq<Attempt>)
    requires ValidRoutes(routes) && Sourced(network.trace, literal) && outboundName != NONE
    requires prepared.Some? ==> Known(network.trace, prepared.value) && prepared.value.outbound != NONE
    modifies network
    ensures network.trace == old(network.trace) + Flatten(attempts) && Sourced(network.trace, literal)
    ensures ConnectedBy(routes, if prepared.Some? then prepared.value.outbound else outboundName, attempts, r)
    ensures |attempts| <= |routes|
    ensures r.Ok? ==> Reaches(Links(routes), if prepared.Some? then prepared.value.outbound else outboundName, r.value)
  {
    hide ValidRoutes, Reaches, At, Known, OwnAddress, Sourced, MayFallBack, ConnectedBy, SoFar, Walk, Flatten;
    var start := if prepared.Some? then prepared.value.outbound else outboundName;
    var current, left := start, prepared;
    attempts := [];
    ghost var before := network.trace;
    AtStart(routes, start);
    NoAttempts(routes, start);
    while current != NONE
      invariant current != NONE
      invariant |attempts| <= |routes| && At(routes, start, |attempts|, current) && SoFar(routes, start, attempts)
      invariant attempts == [] ==> current == start
      invariant network.trace == before + Flatten(attempts) && Sourced(network.trace, literal)
      invariant left.Some? ==> Known(network.trace, left.value)
      decreases |routes| - |attempts|
    {
      WalkOf(routes, start, |attempts|, current);
      StopsBefore(routes, start, attempts, current);
      if current !in routes {
        return Err(NotConfigured), attempts;
      }
      var route := routes[current];
      if route.reject {
        return Err(RejectedByPolicy), attempts;
      }
      OneHop(routes, start, |attempts|, current);
      ghost var trace := network.trace;
      var connected, goOn := TryOutbound(network, current, literal, left);
      left := None;
      ghost var attempt := Attempt(current, network.trace[|trace|..]);
      FlattenGrows(attempts, attempt);
      ghost var longer := attempts + [attempt];
      assert network.trace == before + Flatten(longer);
      StopsAfter(routes, start, attempts, attempt, connected, goOn);
      if connected {
        return Ok(current), longer;
      }
      if !goOn || route.fallback == NONE {
        return Err(Failed), longer;
      }
      attempts := longer;
      current := route.fallback;
    }
    assert false;
  }

  /** One flow, from decision to connection. Every address that is dialled is the
      literal destination or came from the very outbound that dials it, and the
      outbound that connects is on the fallback chain of the rule that won. */
  method Handle(network: Network, routes: Routes, rules: seq<Rule>, metadata: string, literal: Option<Address>)
    returns (r: Result<(Decision, string), Error>, ghost first: Option<Resolution>, ghost attempts: seq<Attempt>)
    requires ValidRoutes(routes) && WithDefault(rules) && network.trace == []
    requires forall i :: 0 <= i < |rules| ==> rules[i].outbound != NONE
    modifies network
    ensures Sourced(network.trace, literal)
    ensures r.Ok? ==>
              && NormalizeMetadata(metadata).Some?
              && Reaches(Links(routes), r.value.0.outbound, r.value.1)
              && r.value.1 in routes && !routes[r.value.1].reject
              && match literal
                 case Some(address) =>
                   r.value.0 == DecisionOf(rules[Winner(rules, NormalizeMetadata(metadata).value, [address])])
                 case None => DecidedBy(rules, NormalizeMetadata(metadata).value, routes, first, r.value.0)
    ensures literal.Some? && !literal.value.Invalid? && NormalizeMetadata(metadata).Some? ==>
              ConnectedBy(routes, rules[Winner(rules, NormalizeMetadata(metadata).value, [literal.value])].outbound, attempts,
                          if r.Ok? then Ok(r.value.1) else Err(r.error))
  {
    hide ValidRoutes, Reaches, Known, Sourced, DecidedBy, Winner, ConnectedBy;
    var decision: Decision, prepared: Option<Resolution> := Decision(0, ""), None;
    first, attempts := None, [];
    if literal.Some? {
      var matched := MatchResolved(rules, metadata, [literal.value]);
      if matched.None? {
        NothingTried(network.trace, literal);
        return Err(Failed), None, [];
      }
      decision := matched.value;
    } else {
      var decided;
      decided, first := DecideByName(network, routes, rules, metadata);
      if decided.Err? {
        NothingTried(network.trace, literal);
        return Err(decided.error), first, [];
      }
      decision, prepared := decided.value.0, decided.value.1;
    }
    NothingTried(network.trace, literal);
    DecidedByARule(rules, metadata, routes, first, decision, literal);
    var selected;
    selected, attempts := ConnectPrepared(network, routes, decision.outbound, literal, prepared);
    SelectedIsUsable(routes, if prepared.Some? then prepared.value.outbound else decision.outbound, attempts, selected);
    if selected.Err? {
      return Err(selected.error), first, attempts;
    }
    if prepared.Some? {
      ReachesFurther(Links(routes), decision.outbound, prepared.value.outbound, selected.value);
    }
    r := Ok((decision, selected.value));
  }

  lemma DecidedByARule(rules: seq<Rule>, metadata: string, routes: Routes, first: Option<Resolution>, decision: Decision,
                       literal: Option<Address>)
    requires WithDefault(rules) && NormalizeMetadata(metadata).Some?
    requires forall i :: 0 <= i < |rules| ==> rules[i].outbound != NONE
    requires match literal
             case Some(address) => decision == DecisionOf(rules[Winner(rules, NormalizeMetadata(metadata).value, [address])])
             case None => DecidedBy(rules, NormalizeMetadata(metadata).value, routes, first, decision)
    ensures decision.outbound != NONE
  {
    hide Winner, FirstConclusive;
  }

  lemma SelectedIsUsable(routes: Routes, start: string, attempts: seq<Attempt>, r: Result<string, Error>)
    requires ConnectedBy(routes, start, attempts, r)
    ensures r.Ok? ==> r.value in routes && !routes[r.value].reject
  {
  }

  lemma NothingTried(trace: seq<Event>, literal: Option<Address>)
    requires forall i :: 0 <= i < |trace| ==> trace[i].Asked?
    ensures Sourced(trace, literal)
  {
  }
}
