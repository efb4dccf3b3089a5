/** Changes to the host's routes and DNS settings, and the state file that
    records each of them before it is made. The result of every host operation
    is drawn from an arbitrary sequence. Every operation requires and keeps
    Covered, so whatever the host still owes is on file at every step, and a
    crash may fall between any two of them. */
module HostState {
  import opened Wrappers

  datatype Route = Route(prefix: string, interface: string, gateway: string, scope: string)

  datatype DNSState = DNSState(service: string, previous: seq<string>, applied: seq<string>)

  datatype State = State(phase: string, tun: string, statusSocket: string, controlSocket: string,
                         route: Option<Route>, routes: seq<Route>, dns: seq<DNSState>)

  /** FailedLate reports an error although the operation took effect. */
  datatype Fate = Done | Failed | FailedLate

  datatype Removal = Removal(route: Route, ok: bool)

  predicate Recorded(s: State, r: Route) {
    r in s.routes || s.route == Some(r)
  }

  // ---------------------------------------------------------------------
  // Planning DNS changes

  predicate Planned(e: DNSState, replacement: string) {
    e.applied == [replacement] && replacement !in e.previous
  }

  predicate AllPlanned(states: seq<DNSState>, replacement: string) {
    forall e :: e in states ==> Planned(e, replacement)
  }

  /** PlanDNS: refuses a service that already uses the replacement. */
  function PlanDNS(states: seq<DNSState>, replacement: string): Option<seq<DNSState>> {
    if states == [] then Some([])
    else match PlanDNS(states[..|states| - 1], replacement)
      case None => None
      case Some(front) =>
        var last := states[|states| - 1];
        if replacement in last.previous then None else Some(front + [last.(applied := [replacement])])
  }

  lemma {:induction false} PlanFailsFrom(states: seq<DNSState>, replacement: string, n: nat)
    requires n <= |states| && PlanDNS(states[..n], replacement).None?
    ensures PlanDNS(states, replacement).None?
    decreases |states| - n
  {
    if n == |states| {
      assert states[..n] == states;
    } else {
      assert states[..n + 1][..n] == states[..n];
      PlanFailsFrom(states, replacement, n + 1);
    }
  }

  method Plan(states: seq<DNSState>, replacement: string) returns (planned: Option<seq<DNSState>>)
    ensures planned == PlanDNS(states, replacement)
  {
    var result := [];
    for i := 0 to |states|
      invariant PlanDNS(states[..i], replacement) == Some(result)
    {
      assert states[..i + 1][..i] == states[..i];
      if replacement in states[i].previous {
        PlanFailsFrom(states, replacement, i + 1);
        return None;
      }
      result := result + [states[i].(applied := [replacement])];
    }
    assert states[..|states|] == states;
    planned := Some(result);
  }

  lemma {:induction false} PlanSucceedsIff(states: seq<DNSState>, replacement: string)
    ensures PlanDNS(states, replacement).Some? <==> forall e :: e in states ==> replacement !in e.previous
  {
    if states != [] {
      var front, last := states[..|states| - 1], states[|states| - 1];
      PlanSucceedsIff(front, replacement);
      assert states == front + [last];
    }
  }

  /** A plan keeps services and previous servers, in order. */
  lemma {:induction false} PlanKeepsEntries(states: seq<DNSState>, replacement: string)
    requires PlanDNS(states, replacement).Some?
    ensures |PlanDNS(states, replacement).value| == |states|
    ensures forall i :: 0 <= i < |states| ==> PlanDNS(states, replacement).value[i] == states[i].(applied := [replacement])
  {
    if states != [] {
      PlanKeepsEntries(states[..|states| - 1], replacement);
    }
  }

  lemma PlanIsPlanned(states: seq<DNSState>, replacement: string)
    requires PlanDNS(states, replacement).Some?
    ensures AllPlanned(PlanDNS(states, replacement).value, replacement)
  {
    PlanSucceedsIff(states, replacement);
    PlanKeepsEntries(states, replacement);
    hide PlanDNS;
    assert forall i :: 0 <= i < |states| ==> states[i] in states;
  }

  /** A plan that is planned again is accepted unchanged. */
  lemma {:induction false} PlanTwice(states: seq<DNSState>, replacement: string)
    requires AllPlanned(states, replacement)
    ensures PlanDNS(states, replacement) == Some(states)
  {
    PlanSucceedsIff(states, replacement);
    PlanKeepsEntries(states, replacement);
    hide PlanDNS;
    forall i | 0 <= i < |states|
      ensures states[i].(applied := [replacement]) == states[i]
    {
      assert states[i] in states;
    }
    assert PlanDNS(states, replacement).value == states;
  }

  // ---------------------------------------------------------------------
  // The host

  class Host {
    const fates: nat -> Fate
    const replacement: string
    var step: nat
    var file: Option<State>
    var dns: map<string, seq<string>>
    var removals: seq<Removal>
    /** Routes the program has added and not removed. */
    ghost var owned: set<Route>
    /** The last DNS change the program made to each service. */
    ghost var touched: map<string, DNSState>

    constructor (fates: nat -> Fate, replacement: string, dns: map<string, seq<string>>)
      ensures this.fates == fates && this.replacement == replacement && this.dns == dns
      ensures step == 0 && file.None? && removals == [] && owned == {} && touched == map[]
      ensures Covered()
    {
      this.fates := fates;
      this.replacement := replacement;
      this.dns := dns;
      step, file, removals, owned, touched := 0, None, [], {}, map[];
    }

    /** The service still uses the servers that the program put there. */
    ghost predicate Owes(service: string)
      reads this
    {
      service in touched && service in dns && dns[service] == touched[service].applied
    }

    ghost predicate Settled()
      reads this
    {
      owned == {} && forall service :: service in touched ==> !Owes(service)
    }

    /** The record is enough to undo everything that is outstanding. */
    ghost predicate Covers(s: State)
      reads this
    {
      && AllPlanned(s.dns, replacement)
      && (forall r :: r in owned ==> Recorded(s, r))
      && forall service :: service in touched && Owes(service) ==> touched[service] in s.dns
    }

    ghost predicate Covered()
      reads this
    {
      && (forall service :: service in touched ==> touched[service].service == service && Planned(touched[service], replacement))
      && match file
         case Some(s) => Covers(s)
         case None => Settled()
    }

    method Draw() returns (fate: Fate)
      modifies this`step
      ensures fate == fates(old(step)) && step == old(step) + 1
    {
      fate := fates(step);
      step := step + 1;
    }

    method WriteState(s: State) returns (ok: bool)
      requires Covered() && Covers(s)
      modifies this`step, this`file
      ensures Covered() && (file == old(file) || file == Some(s))
      ensures ok <==> fates(old(step)).Done?
      ensures ok ==> file == Some(s)
      ensures step == old(step) + 1
    {
      var fate := Draw();
      if !fate.Failed? {
        file := Some(s);
      }
      ok := fate.Done?;
    }

    /** Only when nothing is outstanding. */
    method RemoveState() returns (ok: bool)
      requires Covered() && Settled()
      modifies this`step, this`file
      ensures Covered() && (file == old(file) || file == None)
      ensures ok ==> file == None
      ensures ok <==> fates(old(step)).Done?
    {
      var fate := Draw();
      if !fate.Failed? {
        file := None;
      }
      ok := fate.Done?;
    }

    /** The route must be on file before it is added. */
    method AddRoute(r: Route) returns (ok: bool)
      requires Covered() && file.Some? && Recorded(file.value, r)
      modifies this`step, this`owned
      ensures Covered() && old(owned) <= owned <= old(owned) + {r}
      ensures ok ==> r in owned
      ensures ok <==> fates(old(step)).Done?
    {
      var fate := Draw();
      if !fate.Failed? {
        owned := owned + {r};
      }
      ok := fate.Done?;
    }

    method RemoveRoute(r: Route) returns (ok: bool)
      requires Covered()
      modifies this`step, this`owned, this`removals
      ensures Covered() && old(owned) - {r} <= owned <= old(owned)
      ensures ok ==> owned == old(owned) - {r}
      ensures removals == old(removals) + [Removal(r, ok)]
      ensures ok <==> fates(old(step)).Done?
      ensures step == old(step) + 1
    {
      var fate := Draw();
      if !fate.Failed? {
        owned := owned - {r};
      }
      ok := fate.Done?;
      removals := removals + [Removal(r, ok)];
    }

    method GetDNS(service: string) returns (servers: Option<seq<string>>)
      modifies this`step
      ensures step == old(step) + 1
      ensures servers == if fates(old(step)).Done? && service in dns then Some(dns[service]) else None
    {
      var fate := Draw();
      servers := if fate.Done? && service in dns then Some(dns[service]) else None;
    }

    /** The change must be on file before it is made. */
    method ApplyOne(e: DNSState) returns (ok: bool)
      requires Covered() && file.Some? && e in file.value.dns
      modifies this`step, this`dns, this`touched
      ensures Covered() && (touched == old(touched) || touched == old(touched)[e.service := e])
      ensures dns == old(dns) || dns == old(dns)[e.service := e.applied]
      ensures dns.Keys == old(dns).Keys
      ensures ok ==> dns == old(dns)[e.service := e.applied]
      ensures ok <==> fates(old(step)).Done? && e.service in old(dns)
    {
      var fate := Draw();
      if !fate.Failed? && e.service in dns {
        dns := dns[e.service := e.applied];
        touched := touched[e.service := e];
        assert dns.Keys == old(dns).Keys;
        assert forall s :: s in touched && s != e.service && Owes(s) ==> old(Owes(s));
      }
      ok := fate.Done? && e.service in dns;
      assert ok ==> dns == old(dns)[e.service := e.applied];
    }

    /** Puts the previous servers back; no service uses the replacement after. */
    method RestoreOne(e: DNSState) returns (ok: bool)
      requires Covered() && Planned(e, replacement)
      modifies this`step, this`dns
      ensures Covered()
      ensures dns == old(dns) || dns == old(dns)[e.service := e.previous]
      ensures dns.Keys == old(dns).Keys
      ensures ok ==> e.service in dns && dns == old(dns)[e.service := e.previous]
      ensures ok <==> fates(old(step)).Done? && e.service in old(dns)
      ensures step == old(step) + 1
    {
      var fate := Draw();
      if !fate.Failed? && e.service in dns {
        dns := dns[e.service := e.previous];
        assert dns.Keys == old(dns).Keys;
        assert !Owes(e.service);
        assert forall s :: s in touched && s != e.service && Owes(s) ==> old(Owes(s));
      }
      ok := fate.Done? && e.service in dns;
    }
  }

  // ---------------------------------------------------------------------
  // Removing recorded routes

  /** The routes whose removal failed, in order. */
  function Kept(routes: seq<Route>, ok: seq<bool>): (kept: seq<Route>)
    requires |ok| == |routes|
    ensures forall r :: r in kept ==> r in routes
  {
    if routes == [] then []
    else (if ok[0] then [] else [routes[0]]) + Kept(routes[1..], ok[1..])
  }

  lemma {:induction false} KeptIsExact(routes: seq<Route>, ok: seq<bool>, i: nat)
    requires |ok| == |routes| && i < |routes| && !ok[i]
    ensures routes[i] in Kept(routes, ok)
  {
    if i > 0 {
      KeptIsExact(routes[1..], ok[1..], i - 1);
    }
  }

  lemma {:induction false} NothingKept(routes: seq<Route>, ok: seq<bool>)
    requires |ok| == |routes| && forall i :: 0 <= i < |ok| ==> ok[i]
    ensures Kept(routes, ok) == []
  {
    if routes != [] {
      NothingKept(routes[1..], ok[1..]);
    }
  }

  /** The removals that one pass over routes makes: last route first. */
  ghost predicate Reversed(routes: seq<Route>, ok: seq<bool>, removals: seq<Removal>) {
    && |ok| == |routes| == |removals|
    && forall i :: 0 <= i < |routes| ==> removals[|routes| - 1 - i] == Removal(routes[i], ok[i])
  }

  // ---------------------------------------------------------------------
  // Restoring DNS

  /** The services that neither kept our servers nor went back to their own. */
  function Foreign(states: seq<DNSState>, dns: map<string, seq<string>>): seq<DNSState> {
    if states == [] then []
    else
      var front, last := Foreign(states[..|states| - 1], dns), states[|states| - 1];
      if last.service in dns && (dns[last.service] == last.previous || dns[last.service] == last.applied) then front
      else front + [last]
  }

  ghost predicate DistinctServices(states: seq<DNSState>) {
    forall i, j :: 0 <= i < j < |states| ==> states[i].service != states[j].service
  }

  /** Nothing is overwritten but our own servers, and those only by what was
      there before. */
  ghost predicate OnlyRestores(states: seq<DNSState>, before: map<string, seq<string>>, after: map<string, seq<string>>) {
    && before.Keys == after.Keys
    && forall s :: s in before && after[s] != before[s] ==>
         exists e :: e in states && e.service == s && before[s] == e.applied && after[s] == e.previous
  }

  /** After any part of a plan was applied, nothing is foreign. */
  lemma {:induction false} AppliedIsNotForeign(states: seq<DNSState>, dns: map<string, seq<string>>)
    requires forall e :: e in states ==> e.service in dns && (dns[e.service] == e.previous || dns[e.service] == e.applied)
    ensures Foreign(states, dns) == []
  {
    if states != [] {
      AppliedIsNotForeign(states[..|states| - 1], dns);
      assert states[|states| - 1] in states;
    }
  }

  // ---------------------------------------------------------------------
  // The supervisor

  class Supervisor {
    const host: Host
    var state: State

    /** What is in memory is also enough to undo what is outstanding. */
    ghost predicate Valid()
      reads this, host
    {
      host.Covered() && host.Covers(state)
    }

    constructor (host: Host, state: State)
      requires host.Covered() && host.Covers(state)
      ensures this.host == host && this.state == state && Valid()
    {
      this.host := host;
      this.state := state;
    }

    method Persist() returns (ok: bool)
      requires Valid()
      modifies host`step, host`file
      ensures Valid() && host.step == old(host.step) + 1
      ensures ok <==> host.fates(old(host.step)).Done?
      ensures ok ==> host.file == Some(state)
      ensures host.file == old(host.file) || host.file == Some(state)
    {
      ok := host.WriteState(state);
    }

    /** One route: on file first, then on the host, then verified. */
    method InstallRoute(route: Route, legacy: bool, verified: bool) returns (ok: bool)
      requires Valid() && (legacy ==> state.route.None?)
      modifies this`state, host`step, host`file, host`owned
      ensures Valid()
      ensures state == if legacy then old(state).(route := Some(route)) else old(state).(routes := old(state).routes + [route])
      ensures ok ==> route in host.owned && host.file == Some(state)
      ensures old(host.owned) <= host.owned <= old(host.owned) + {route}
      ensures verified && (forall n :: host.fates(n).Done?) ==> ok
    {
      if legacy {
        state := state.(route := Some(route));
      } else {
        state := state.(routes := state.routes + [route]);
      }
      ok := Persist();
      if ok {
        ok := host.AddRoute(route);
      }
      ok := ok && verified;
    }

    /** installServiceRoutes: stops at the first failure. */
    method InstallServiceRoutes(first: Route, others: seq<Route>, verified: nat -> bool) returns (ok: bool)
      requires Valid() && state.route.None?
      modifies this`state, host`step, host`file, host`owned
      ensures Valid()
      ensures ok ==>
                && state == old(state).(route := Some(first), routes := old(state).routes + others)
                && first in host.owned && (forall r :: r in others ==> r in host.owned)
      ensures host.owned <= old(host.owned) + {first} + (set r | r in others)
      ensures (forall n :: host.fates(n).Done?) && (forall n :: verified(n)) ==> ok
    {
      ok := InstallRoute(first, true, verified(0));
      var i := 0;
      while i < |others| && ok
        invariant 0 <= i <= |others| && Valid()
        invariant ok ==> state == old(state).(route := Some(first), routes := old(state).routes + others[..i])
        invariant ok ==> first in host.owned && forall r :: r in others[..i] ==> r in host.owned
        invariant host.owned <= old(host.owned) + {first} + (set r | r in others)
        invariant (forall n :: host.fates(n).Done?) && (forall n :: verified(n)) ==> ok
      {
        assert others[..i + 1] == others[..i] + [others[i]];
        ok := InstallRoute(others[i], false, verified(i + 1));
        i := i + 1;
      }
      assert ok ==> others[..i] == others;
    }

    /** Plans, records and then applies the DNS replacement. snapshot is what the
        services use now. */
    method ManageDNS(snapshot: seq<DNSState>) returns (ok: bool)
      requires Valid() && state.dns == []
      modifies this`state, host`step, host`file, host`dns, host`touched
      ensures Valid()
      ensures ok ==> PlanDNS(snapshot, host.replacement) == Some(state.dns)
      ensures host.dns.Keys == old(host.dns).Keys
      ensures forall s :: s in host.dns && host.dns[s] != old(host.dns)[s] ==>
                exists e :: e in state.dns && e.service == s && host.dns[s] == e.applied
      ensures ok ==> forall e :: e in state.dns ==> e.service in host.dns && host.dns[e.service] == e.applied
    {
      ghost var before := host.dns;
      NothingOwed();
      var planned := Plan(snapshot, host.replacement);
      if planned.None? {
        return false;
      }
      PlanIsPlanned(snapshot, host.replacement);
      state := state.(dns := planned.value, phase := "dns-planned");
      ok := Persist();
      if ok {
        ok := ApplyDNS(planned.value);
      }
    }

    lemma NothingOwed()
      requires Valid() && state.dns == []
      ensures forall s :: s in host.touched ==> !host.Owes(s)
    {
    }

    /** ApplyDNS: plans again, then changes one service after the other until one
        fails. Whatever the failures, each service has its own servers or ours. */
    method ApplyDNS(states: seq<DNSState>) returns (ok: bool)
      requires Valid() && states == state.dns && host.file == Some(state)
      modifies host`step, host`dns, host`touched
      ensures Valid()
      ensures host.dns.Keys == old(host.dns).Keys
      ensures forall s :: s in host.dns && host.dns[s] != old(host.dns)[s] ==>
                exists e :: e in states && e.service == s && host.dns[s] == e.applied
      ensures (forall n :: host.fates(n).Done?) && (forall e :: e in states ==> e.service in host.dns) ==> ok
      ensures ok ==> forall e :: e in states ==> e.service in host.dns && host.dns[e.service] == e.applied
    {
      PlanTwice(states, host.replacement);
      var planned := Plan(states, host.replacement);
      assert planned == Some(states);
      ok := true;
      var i := 0;
      while i < |states| && ok
        invariant 0 <= i <= |states| && Valid()
        invariant host.file == Some(state)
        invariant host.dns.Keys == old(host.dns).Keys
        invariant forall s :: s in host.dns && host.dns[s] != old(host.dns)[s] ==>
                    exists e :: e in states && e.service == s && host.dns[s] == e.applied
        invariant (forall n :: host.fates(n).Done?) && (forall e :: e in states ==> e.service in host.dns) ==> ok
        invariant ok ==> forall e :: e in states[..i] ==> e.service in host.dns && host.dns[e.service] == e.applied
      {
        var e := states[i];
        assert e in state.dns && states[..i + 1] == states[..i] + [e];
        SameReplacement(states, i);
        ok := host.ApplyOne(e);
        i := i + 1;
      }
      assert ok ==> states[..i] == states;
    }

    /** Everything owed is in the list. */
    ghost predicate Pending(list: seq<DNSState>)
      reads host
    {
      forall s :: s in host.touched && host.Owes(s) ==> host.touched[s] in list
    }

    lemma SameReplacement(states: seq<DNSState>, i: nat)
      requires AllPlanned(states, host.replacement) && i < |states|
      ensures forall e :: e in states ==> e.applied == states[i].applied
    {
      assert Planned(states[i], host.replacement);
    }

    /** One service of RestoreDNS. */
    method RestoreEntry(e: DNSState, ghost front: seq<DNSState>, ghost rest: seq<DNSState>) returns (kept: bool)
      requires host.Covered() && Planned(e, host.replacement) && Pending(front + [e] + rest)
      modifies host`step, host`dns
      ensures host.Covered() && Pending((if kept then front + [e] else front) + rest)
      ensures host.dns == old(host.dns) || (e.service in old(host.dns) && old(host.dns)[e.service] == e.applied
                                            && host.dns == old(host.dns)[e.service := e.previous])
      ensures !kept ==> e.service in host.dns && host.dns[e.service] == e.previous
      ensures kept && (forall n :: host.fates(n).Done?) ==>
                !(e.service in old(host.dns) && (old(host.dns)[e.service] == e.previous || old(host.dns)[e.service] == e.applied))
    {
      var current := host.GetDNS(e.service);
      if current.None? {
        kept := true;
      } else if current.value == e.previous {
        kept := false;
      } else if current.value != e.applied {
        kept := true;
      } else {
        var restored := host.RestoreOne(e);
        kept := !restored;
      }
      assert forall s :: s in host.touched && host.Owes(s) ==> old(host.Owes(s));
    }

    lemma CoversWith(remaining: seq<DNSState>)
      requires host.Covered() && Pending(remaining) && AllPlanned(state.dns, host.replacement)
      requires forall e :: e in remaining ==> e in state.dns
      requires forall r :: r in host.owned ==> Recorded(state, r)
      ensures host.Covers(state.(dns := remaining))
    {
    }

    /** RestoreDNS after i services. */
    ghost predicate Restoring(states: seq<DNSState>, remaining: seq<DNSState>, before: map<string, seq<string>>, i: nat)
      reads host
    {
      && i <= |states| && AllPlanned(states, host.replacement)
      && host.Covered() && Pending(remaining + states[i..])
      && (forall e :: e in remaining ==> e in states)
      && (DistinctServices(states) ==>
            OnlyRestores(states[..i], before, host.dns) && Partly(states, remaining, before, host.dns, i))
      && (DistinctServices(states) && (forall n :: host.fates(n).Done?) ==> remaining == Foreign(states[..i], before))
    }

    method RestoreNext(states: seq<DNSState>, remaining: seq<DNSState>, ghost before: map<string, seq<string>>, i: nat)
      returns (more: seq<DNSState>)
      requires i < |states| && Restoring(states, remaining, before, i)
      modifies host`step, host`dns
      ensures Restoring(states, more, before, i + 1)
    {
      hide Host.Owes, Partly, OnlyRestores, Host.Covered, Pending, DistinctServices;
      var e := states[i];
      ghost var middle := host.dns;
      assert remaining + states[i..] == remaining + [e] + states[i + 1..];
      PartlySame(states, remaining, before, middle, i);
      var kept := RestoreEntry(e, remaining, states[i + 1..]);
      RestoreStep(states, remaining, before, middle, host.dns, i, kept);
      assert states[..i + 1][..i] == states[..i];
      more := if kept then remaining + [e] else remaining;
    }

    lemma RestoringStarts()
      requires Valid()
      ensures Restoring(state.dns, [], host.dns, 0)
    {
      NothingRestored(state.dns, host.dns);
      assert [] + state.dns[0..] == state.dns;
    }

    lemma RestoringEnds(remaining: seq<DNSState>, before: map<string, seq<string>>)
      requires Restoring(state.dns, remaining, before, |state.dns|)
      requires forall r :: r in host.owned ==> Recorded(state, r)
      ensures host.Covers(state.(dns := remaining)) && host.Covered()
      ensures DistinctServices(state.dns) ==>
                && OnlyRestores(state.dns, before, host.dns)
                && forall e :: e in state.dns && e !in remaining ==> e.service in host.dns && host.dns[e.service] == e.previous
      ensures DistinctServices(state.dns) && (forall n :: host.fates(n).Done?) ==> remaining == Foreign(state.dns, before)
    {
      hide Partly, OnlyRestores, DistinctServices, Host.Covered;
      var states := state.dns;
      assert states[..|states|] == states && remaining + states[|states|..] == remaining;
      PartlyDone(states, remaining, before, host.dns);
      CoversWith(remaining);
    }

    /** RestoreDNS: puts back what still carries our servers, keeps what it could
        not, and never overwrites what somebody else has changed. */
    method RestoreDNS() returns (ok: bool)
      requires Valid()
      modifies this`state, host`step, host`dns
      ensures Valid()
      ensures state == old(state).(dns := state.dns)
      ensures ok <==> state.dns == []
      ensures DistinctServices(old(state).dns) ==> OnlyRestores(old(state).dns, old(host.dns), host.dns)
      ensures DistinctServices(old(state).dns) ==>
                forall e :: e in old(state).dns && e !in state.dns ==> e.service in host.dns && host.dns[e.service] == e.previous
      ensures DistinctServices(old(state).dns) && (forall n :: host.fates(n).Done?) ==>
                state.dns == Foreign(old(state).dns, old(host.dns))
    {
      hide Host.Owes, Host.Covered, OnlyRestores, DistinctServices, Recorded;
      var remaining: seq<DNSState> := [];
      RestoringStarts();
      ghost var before := host.dns;
      for i := 0 to |state.dns|
        invariant state == old(state) && host.owned == old(host.owned)
        invariant Restoring(state.dns, remaining, before, i)
      {
        hide Restoring;
        remaining := RestoreNext(state.dns, remaining, before, i);
      }
      RestoringEnds(remaining, before);
      state := state.(dns := remaining);
      ok := remaining == [];
    }

    // -------------------------------------------------------------------
    // Routes

    /** Dropping a route that is no longer owned keeps everything else on record. */
    lemma DroppedRouteIsCovered(i: nat, removed: Route, owned: set<Route>)
      requires i < |state.routes| && state.routes[i] == removed
      requires host.Covered() && AllPlanned(state.dns, host.replacement)
      requires (forall s :: s in host.touched && host.Owes(s) ==> host.touched[s] in state.dns)
      requires host.owned == owned - {removed} && forall r :: r in owned ==> Recorded(state, r)
      ensures host.Covers(state.(routes := state.routes[..i] + state.routes[i + 1..]))
    {
      forall r | r in host.owned
        ensures Recorded(state.(routes := state.routes[..i] + state.routes[i + 1..]), r)
      {
        if r in state.routes {
          var j :| 0 <= j < |state.routes| && state.routes[j] == r;
          assert j != i;
          if j < i {
            assert state.routes[..i][j] == r;
          } else {
            assert state.routes[i + 1..][j - i - 1] == r;
          }
        }
      }
    }

    /** One recorded route: removed from the host, then from the record, then the
        record is persisted. */
    method RemoveAt(i: nat) returns (removed: bool, persisted: bool)
      requires Valid() && i < |state.routes|
      modifies this`state, host`step, host`file, host`owned, host`removals
      ensures Valid()
      ensures host.removals == old(host.removals) + [Removal(old(state).routes[i], removed)]
      ensures state == if removed then old(state).(routes := old(state).routes[..i] + old(state).routes[i + 1..]) else old(state)
      ensures (forall n :: host.fates(n).Done?) ==> removed && persisted
      ensures old(host.file).Some? ==> host.file.Some?
    {
      var route := state.routes[i];
      ghost var owned := host.owned;
      removed := host.RemoveRoute(route);
      persisted := true;
      if removed {
        DroppedRouteIsCovered(i, route, owned);
        state := state.(routes := state.routes[..i] + state.routes[i + 1..]);
        persisted := Persist();
      }
    }

    /** The additional routes, last one first. The index walks down a list that
        shrinks behind it. */
    method RemoveRoutes() returns (ok: bool, ghost results: seq<bool>)
      requires Valid()
      modifies this`state, host`step, host`file, host`owned, host`removals
      ensures Valid()
      ensures |results| == |old(state).routes| && old(host.removals) <= host.removals
      ensures Reversed(old(state).routes, results, host.removals[|old(host.removals)|..])
      ensures state == old(state).(routes := Kept(old(state).routes, results))
      ensures ok ==> state.routes == []
      ensures (forall n :: host.fates(n).Done?) ==> ok
      ensures old(host.file).Some? ==> host.file.Some?
    {
      hide Host.Covered, Host.Covers, Kept;
      var routes := state.routes;
      ghost var before := host.removals;
      var i := |routes|;
      ok, results := true, [];
      NoneRemoved(routes);
      assert host.removals[|before|..] == [];
      while i > 0
        invariant 0 <= i <= |routes| && |results| == |routes| - i
        invariant Valid() && before <= host.removals
        invariant Reversed(routes[i..], results, host.removals[|before|..])
        invariant state == old(state).(routes := routes[..i] + Kept(routes[i..], results))
        invariant ok ==> forall k :: 0 <= k < |results| ==> results[k]
        invariant (forall n :: host.fates(n).Done?) ==> ok
        invariant old(host.file).Some? ==> host.file.Some?
      {
        i := i - 1;
        ghost var log := host.removals;
        assert state.routes[i] == routes[i] && state.routes[i + 1..] == Kept(routes[i + 1..], results);
        assert state.routes[..i] == routes[..i];
        var removed, persisted := RemoveAt(i);
        OneMoreRemoval(routes, i, results, removed, log[|before|..]);
        assert host.removals[|before|..] == log[|before|..] + [Removal(routes[i], removed)];
        ok := ok && removed && persisted;
        results := [removed] + results;
      }
      assert routes[0..] == routes && routes[..0] == [];
      if ok {
        NothingKept(routes, results);
      }
    }

    /** removeRecordedRoutes: the additional routes in reverse order, then the
        first one. What stays on record is exactly what could not be removed. */
    method RemoveRecordedRoutes() returns (ok: bool, ghost results: seq<bool>)
      requires Valid()
      modifies this`state, host`step, host`file, host`owned, host`removals
      ensures Valid()
      ensures |results| == |old(state).routes| && old(host.removals) <= host.removals
      ensures var log := host.removals[|old(host.removals)|..];
              && |log| == |results| + (if old(state).route.Some? then 1 else 0)
              && Reversed(old(state).routes, results, log[..|results|])
              && (old(state).route.Some? ==> log[|results|].route == old(state).route.value)
              && state == old(state).(routes := Kept(old(state).routes, results),
                                      route := if old(state).route.Some? && log[|results|].ok then None else old(state).route)
      ensures ok ==> state.routes == [] && state.route.None? && host.owned == {}
      ensures (forall n :: host.fates(n).Done?) ==> ok
      ensures old(host.file).Some? ==> host.file.Some?
    {
      hide Kept;
      ghost var before := host.removals;
      ok, results := RemoveRoutes();
      ghost var log := host.removals[|before|..];
      if state.route.Some? {
        var route := state.route.value;
        var removed := host.RemoveRoute(route);
        assert host.removals[|before|..] == log + [Removal(route, removed)];
        if removed {
          state := state.(route := None);
          var persisted := Persist();
          ok := ok && persisted;
        } else {
          ok := false;
        }
      }
      assert host.removals[|before|..][..|results|] == log;
    }

    // -------------------------------------------------------------------
    // Stopping

    /** The first half of finish: the host is put back while the worker still
        serves. */
    method FinishHost(controlClosed: bool) returns (ok: bool)
      requires Valid()
      modifies this`state, host`step, host`file, host`dns, host`owned, host`removals
      ensures Valid()
      ensures ok ==> state.dns == [] && state.routes == [] && state.route.None? && controlClosed
      ensures controlClosed && (forall n :: host.fates(n).Done?) && old(state).dns == [] ==> ok
    {
      hide Kept, Reversed, OnlyRestores, Foreign, DistinctServices;
      state := state.(phase := "stopping");
      ok := Persist();
      if controlClosed {
        state := state.(controlSocket := "");
        var persisted := Persist();
        ok := ok && persisted;
      } else {
        ok := false;
      }
      if state.dns != [] {
        var restored := RestoreDNS();
        var persisted := Persist();
        ok := ok && restored && persisted;
      }
      if state.route.Some? || state.routes != [] {
        var removed, results := RemoveRecordedRoutes();
        ok := ok && removed;
      }
    }

    /** The second half: the worker is stopped and the files are removed. By its
        frame it touches no route and no DNS setting. */
    method FinishWorker(ok: bool, workerStopped: bool, statusRemoved: bool, lockReleased: bool) returns (done: bool)
      requires Valid() && (ok ==> state.dns == [] && state.routes == [] && state.route.None?)
      modifies this`state, host`step, host`file
      ensures host.Covered()
      ensures done ==> host.file.None? && host.Settled()
      ensures host.file.None? && old(host.file).Some? ==> ok && workerStopped && statusRemoved && lockReleased && host.Settled()
    {
      done := ok && workerStopped;
      if statusRemoved {
        state := state.(statusSocket := "");
        var persisted := Persist();
        done := done && persisted;
      } else {
        done := false;
      }
      done := done && lockReleased;
      if done {
        done := host.RemoveState();
      }
    }
  }

  lemma NoneRemoved(routes: seq<Route>)
    ensures Kept(routes[|routes|..], []) == [] && routes[..|routes|] + [] == routes
    ensures Reversed(routes[|routes|..], [], [])
  {
  }

  lemma OneMoreRemoval(routes: seq<Route>, i: nat, results: seq<bool>, removed: bool, log: seq<Removal>)
    requires i < |routes| && |results| == |routes| - i - 1
    requires Reversed(routes[i + 1..], results, log)
    ensures Reversed(routes[i..], [removed] + results, log + [Removal(routes[i], removed)])
    ensures Kept(routes[i..], [removed] + results) == (if removed then [] else [routes[i]]) + Kept(routes[i + 1..], results)
  {
    assert routes[i..][1..] == routes[i + 1..];
    assert ([removed] + results)[1..] == results;
    forall k | 0 <= k < |routes| - i
      ensures (log + [Removal(routes[i], removed)])[|routes| - i - 1 - k] == Removal(routes[i..][k], ([removed] + results)[k])
    {
      if k > 0 {
        assert routes[i..][k] == routes[i + 1..][k - 1];
      }
    }
  }

  // ---------------------------------------------------------------------
  // Crash recovery

  /** CleanupWithStatusOwners: takes what a crash left on file and undoes it. The
      file goes away only when nothing is outstanding. */
  method Cleanup(host: Host, lockHeld: bool, processAlive: bool, statusRemoved: bool, tunExists: bool, lockRemoved: bool)
    returns (ok: bool)
    requires host.Covered()
    modifies host`step, host`file, host`dns, host`owned, host`removals
    ensures host.Covered()
    ensures ok ==> host.file.None? && host.Settled()
    ensures old(host.file).None? ==> ok
    ensures old(host.file).Some? && (lockHeld || processAlive) ==>
              !ok && host.file == old(host.file) && host.dns == old(host.dns) && host.owned == old(host.owned)
    ensures old(host.file).Some? && host.file.None? ==> host.Settled() && statusRemoved && lockRemoved
    ensures old(host.file).Some? && DistinctServices(old(host.file).value.dns)
            && Foreign(old(host.file).value.dns, old(host.dns)) == [] && (forall n :: host.fates(n).Done?)
            && !lockHeld && !processAlive && statusRemoved && !tunExists && lockRemoved ==>
              ok
  {
    hide Kept, Reversed, OnlyRestores, Foreign, DistinctServices;
    if host.file.None? {
      return true;
    }
    if lockHeld || processAlive {
      return false;
    }
    var work := new Supervisor(host, host.file.value.(phase := "cleaning"));
    ok := work.Persist();
    if !ok || !statusRemoved {
      return false;
    }
    work.state := work.state.(statusSocket := "");
    ok := work.Persist();
    if !ok {
      return false;
    }
    var restored := work.RestoreDNS();
    ok := work.Persist();
    if !ok || !restored {
      return false;
    }
    var removed, results := work.RemoveRecordedRoutes();
    if !removed || (work.state.tun != "" && tunExists) || !lockRemoved {
      return false;
    }
    ok := host.RemoveState();
  }

  /** Applying any part of a plan and then restoring it completely gives every
      service exactly the servers it had. */
  lemma RestoringUndoesApplying(states: seq<DNSState>, before: map<string, seq<string>>, applied: map<string, seq<string>>,
                                after: map<string, seq<string>>)
    requires DistinctServices(states)
    requires forall e :: e in states ==> e.service in before && before[e.service] == e.previous
    requires applied.Keys == before.Keys
    requires forall s :: s in applied && applied[s] != before[s] ==>
               exists e :: e in states && e.service == s && applied[s] == e.applied
    requires OnlyRestores(states, applied, after)
    requires forall e :: e in states && e !in Foreign(states, applied) ==> e.service in after && after[e.service] == e.previous
    ensures Foreign(states, applied) == [] && after == before
  {
    forall e | e in states
      ensures e.service in applied && (applied[e.service] == e.previous || applied[e.service] == e.applied)
    {
      if applied[e.service] != before[e.service] {
        var x :| x in states && x.service == e.service && applied[e.service] == x.applied;
        SameService(states, x, e);
      }
    }
    AppliedIsNotForeign(states, applied);
    forall s | s in before
      ensures after[s] == before[s]
    {
      if applied[s] != before[s] {
        var e :| e in states && e.service == s && applied[s] == e.applied;
        assert after[e.service] == e.previous;
      }
    }
  }

  lemma SameService(states: seq<DNSState>, a: DNSState, b: DNSState)
    requires DistinctServices(states) && a in states && b in states && a.service == b.service
    ensures a == b
  {
    var i :| 0 <= i < |states| && states[i] == a;
    var j :| 0 <= j < |states| && states[j] == b;
    assert !(i < j) && !(j < i);
  }

  lemma NothingRestored(states: seq<DNSState>, dns: map<string, seq<string>>)
    ensures OnlyRestores(states[..0], dns, dns) && Partly(states, [], dns, dns, 0)
  {
  }

  lemma PartlySame(states: seq<DNSState>, remaining: seq<DNSState>, before: map<string, seq<string>>,
                   dns: map<string, seq<string>>, i: nat)
    requires i < |states|
    ensures DistinctServices(states) && Partly(states, remaining, before, dns, i) ==>
              (states[i].service in dns <==> states[i].service in before)
              && (states[i].service in before ==> dns[states[i].service] == before[states[i].service])
  {
  }

  lemma PartlyDone(states: seq<DNSState>, remaining: seq<DNSState>, before: map<string, seq<string>>, dns: map<string, seq<string>>)
    ensures Partly(states, remaining, before, dns, |states|) ==>
              forall e :: e in states && e !in remaining ==> e.service in dns && dns[e.service] == e.previous
  {
    assert states[..|states|] == states;
  }

  /** The state of RestoreDNS after i services: the later ones are as they were,
      the earlier ones are restored or kept. */
  ghost predicate Partly(states: seq<DNSState>, remaining: seq<DNSState>, before: map<string, seq<string>>,
                         dns: map<string, seq<string>>, i: nat)
    requires i <= |states|
  {
    && dns.Keys == before.Keys
    && (forall k :: i <= k < |states| && states[k].service in before ==> dns[states[k].service] == before[states[k].service])
    && forall e :: e in states[..i] && e !in remaining ==> e.service in dns && dns[e.service] == e.previous
  }

  lemma RestoreStep(states: seq<DNSState>, remaining: seq<DNSState>, before: map<string, seq<string>>,
                    middle: map<string, seq<string>>, dns: map<string, seq<string>>, i: nat, kept: bool)
    requires i < |states|
    requires var e := states[i];
             && (dns == middle || (e.service in middle && middle[e.service] == e.applied && dns == middle[e.service := e.previous]))
             && (!kept ==> e.service in dns && dns[e.service] == e.previous)
    requires DistinctServices(states) ==> OnlyRestores(states[..i], before, middle) && Partly(states, remaining, before, middle, i)
    ensures DistinctServices(states) ==>
              Partly(states, if kept then remaining + [states[i]] else remaining, before, dns, i + 1)
    ensures DistinctServices(states) ==> OnlyRestores(states[..i + 1], before, dns)
  {
    assert states[..i + 1] == states[..i] + [states[i]];
  }
}
