/** Fallback chains between outbounds. Every outbound has at most one fallback;
    the empty name means none. */
module Fallbacks {

  type Links = map<string, string>

  const NONE: string := ""

  function Hop(links: Links, name: string): string {
    if name in links then links[name] else NONE
  }

  /** The outbound reached after n fallbacks. */
  function Walk(links: Links, name: string, n: nat): string
    decreases n
  {
    if n == 0 then name else Walk(links, Hop(links, name), n - 1)
  }

  ghost predicate Reaches(links: Links, from: string, to: string) {
    exists n: nat :: Walk(links, from, n) == to
  }

  /** Like Reaches, after at least one fallback. */
  ghost predicate ComesTo(links: Links, from: string, to: string) {
    exists n: nat :: n > 0 && Walk(links, from, n) == to
  }

  ghost predicate Closed(links: Links) {
    forall name :: name in links && links[name] != NONE ==> links[name] in links
  }

  /** No outbound comes back to itself. */
  ghost predicate Acyclic(links: Links) {
    forall name :: name in links ==> !ComesTo(links, name, name)
  }

  /** The chain from name ends after at most n outbounds, all of them configured. */
  predicate Ends(links: Links, name: string, n: nat)
    decreases n
  {
    name == NONE || (n > 0 && name in links && Ends(links, links[name], n - 1))
  }

  ghost predicate Finite(links: Links, name: string) {
    exists n: nat :: Ends(links, name, n)
  }

  // ---------------------------------------------------------------------
  // Walking

  lemma {:induction false} WalkSplit(links: Links, name: string, a: nat, b: nat)
    ensures Walk(links, name, a + b) == Walk(links, Walk(links, name, a), b)
    decreases a
  {
    if a > 0 {
      WalkSplit(links, Hop(links, name), a - 1, b);
    }
  }

  lemma WalkNext(links: Links, name: string, n: nat)
    ensures Walk(links, name, n + 1) == Hop(links, Walk(links, name, n))
  {
    WalkSplit(links, name, n, 1);
    assert Walk(links, Walk(links, name, n), 1) == Walk(links, Hop(links, Walk(links, name, n)), 0);
  }

  lemma ReachesSelf(links: Links, name: string)
    ensures Reaches(links, name, name)
  {
    assert Walk(links, name, 0) == name;
  }

  lemma ReachesFurther(links: Links, a: string, b: string, c: string)
    requires Reaches(links, a, b) && Reaches(links, b, c)
    ensures Reaches(links, a, c)
  {
    var n: nat :| Walk(links, a, n) == b;
    var m: nat :| Walk(links, b, m) == c;
    WalkSplit(links, a, n, m);
  }

  /** The end of a chain stays the end. */
  lemma {:induction false} NothingAfterEnd(links: Links, n: nat)
    requires NONE !in links
    ensures Walk(links, NONE, n) == NONE
  {
    if n > 0 {
      NothingAfterEnd(links, n - 1);
    }
  }

  /** A chain that ends within n outbounds is over after n hops. */
  lemma {:induction false} EndedChain(links: Links, name: string, n: nat, m: nat)
    requires NONE !in links && Ends(links, name, n) && n <= m
    ensures Walk(links, name, m) == NONE
    decreases n
  {
    if name == NONE {
      NothingAfterEnd(links, m);
    } else {
      EndedChain(links, links[name], n - 1, m - 1);
    }
  }

  // ---------------------------------------------------------------------
  // Two views of a valid configuration

  lemma ComesToNext(links: Links, name: string)
    requires name in links
    ensures ComesTo(links, name, links[name])
  {
    WalkNext(links, name, 0);
    assert Walk(links, name, 1) == links[name];
  }

  lemma ComesFurther(links: Links, s: string, name: string)
    requires ComesTo(links, s, name) && name in links
    ensures ComesTo(links, s, links[name])
  {
    var n: nat :| n > 0 && Walk(links, s, n) == name;
    WalkNext(links, s, n);
    assert Walk(links, s, n + 1) == links[name];
  }

  /** Following a chain without cycles uses up outbounds that were not seen. */
  lemma {:induction false} ChainEnds(links: Links, name: string, seen: set<string>)
    requires NONE !in links && Closed(links) && Acyclic(links)
    requires name == NONE || name in links
    requires seen <= links.Keys && forall s :: s in seen ==> ComesTo(links, s, name)
    ensures Ends(links, name, |links.Keys - seen|)
    decreases |links.Keys - seen|
  {
    hide ComesTo;
    if name != NONE {
      assert name !in seen;
      var more := seen + {name};
      assert links.Keys - more == (links.Keys - seen) - {name};
      forall s | s in more
        ensures ComesTo(links, s, links[name])
      {
        if s == name {
          ComesToNext(links, name);
        } else {
          ComesFurther(links, s, name);
        }
      }
      ChainEnds(links, links[name], more);
    }
  }

  lemma {:induction false} Rounds(links: Links, name: string, n: nat, k: nat)
    requires n > 0 && Walk(links, name, n) == name
    ensures Walk(links, name, k * n) == name
    decreases k
  {
    if k > 0 {
      Rounds(links, name, n, k - 1);
      assert k * n == n + (k - 1) * n;
      WalkSplit(links, name, n, (k - 1) * n);
    }
  }

  lemma EndingIsNoCycle(links: Links, name: string)
    requires NONE !in links && name in links && Finite(links, name)
    ensures !ComesTo(links, name, name)
  {
    if ComesTo(links, name, name) {
      var m: nat :| Ends(links, name, m);
      var n: nat :| n > 0 && Walk(links, name, n) == name;
      Rounds(links, name, n, m);
      assert m * n >= m;
      EndedChain(links, name, m, m * n);
    }
  }

  lemma EndingStaysInside(links: Links, name: string)
    requires NONE !in links && name in links && Finite(links, name) && links[name] != NONE
    ensures links[name] in links
  {
    var n: nat :| Ends(links, name, n);
    assert Ends(links, links[name], n - 1);
  }

  lemma EndingIsValid(links: Links)
    requires NONE !in links && forall name :: name in links ==> Finite(links, name)
    ensures Closed(links) && Acyclic(links)
  {
    hide Finite, ComesTo;
    forall name | name in links
      ensures !ComesTo(links, name, name)
      ensures links[name] != NONE ==> links[name] in links
    {
      EndingIsNoCycle(links, name);
      if links[name] != NONE {
        EndingStaysInside(links, name);
      }
    }
  }

  /** A configuration is closed and acyclic exactly when every chain ends, and
      then it ends within the number of outbounds. */
  lemma ValidIffChainsEnd(links: Links)
    requires NONE !in links
    ensures Closed(links) && Acyclic(links) <==> forall name :: name in links ==> Ends(links, name, |links|)
  {
    hide Closed, Acyclic;
    assert |links| == |links.Keys| && links.Keys - {} == links.Keys;
    if Closed(links) && Acyclic(links) {
      forall name | name in links
        ensures Ends(links, name, |links|)
      {
        ChainEnds(links, name, {});
      }
    }
    if forall name :: name in links ==> Ends(links, name, |links|) {
      EndingIsValid(links);
    }
  }

  /** In a valid configuration a chain visits every outbound at most once. */
  lemma VisitsOnce(links: Links, start: string, i: nat, j: nat)
    requires Acyclic(links) && i < j && Walk(links, start, i) in links
    ensures Walk(links, start, i) != Walk(links, start, j)
  {
    WalkSplit(links, start, i, j - i);
    assert Walk(links, Walk(links, start, i), j - i) == Walk(links, start, j);
  }

  // ---------------------------------------------------------------------
  // The depth-first search

  datatype Color = Visiting | Visited

  type States = map<string, Color>

  /** Visited outbounds are known to end. */
  ghost predicate Sound(links: Links, states: States) {
    && states.Keys <= links.Keys
    && forall name :: name in states && states[name].Visited? ==> Finite(links, name)
  }

  /** The outbounds being visited lie before name. */
  ghost predicate Above(links: Links, states: States, name: string) {
    forall s :: s in states && states[s].Visiting? ==> ComesTo(links, s, name)
  }

  /** The outbounds in after are those of before and some that are visited. */
  ghost predicate Extends(before: States, after: States) {
    && before.Keys <= after.Keys
    && forall s :: s in after ==> if s in before then after[s] == before[s] else after[s].Visited?
  }

  lemma AboveNext(links: Links, states: States, name: string)
    requires name in links && name !in states && Above(links, states, name)
    ensures Above(links, states[name := Visiting], links[name])
  {
    hide ComesTo;
    var more := states[name := Visiting];
    forall s | s in more && more[s].Visiting?
      ensures ComesTo(links, s, links[name])
    {
      if s == name {
        ComesToNext(links, name);
      } else {
        ComesFurther(links, s, name);
      }
    }
  }

  lemma FiniteBefore(links: Links, name: string)
    requires name in links && (links[name] == NONE || Finite(links, links[name]))
    ensures Finite(links, name)
  {
    if links[name] == NONE {
      assert Ends(links, NONE, 0);
      assert Ends(links, name, 1);
    } else {
      var n: nat :| Ends(links, links[name], n);
      assert Ends(links, name, n + 1);
    }
  }

  lemma Finished(links: Links, states: States, after: States, name: string)
    requires name !in states && Extends(states[name := Visiting], after)
    requires Sound(links, after) && Finite(links, name)
    ensures Extends(states, after[name := Visited]) && Sound(links, after[name := Visited])
  {
    hide Finite;
    var all := after[name := Visited];
    forall s | s in all
      ensures if s in states then all[s] == states[s] else all[s].Visited?
      ensures s in links && (all[s].Visited? ==> Finite(links, s))
    {
      if s != name {
        assert all[s] == after[s];
        if s in states {
          assert states[name := Visiting][s] == states[s];
        }
      }
    }
  }

  lemma Entered(links: Links, states: States, name: string)
    requires name in links && name !in states && Sound(links, states)
    ensures Sound(links, states[name := Visiting])
    ensures links.Keys - states[name := Visiting].Keys == (links.Keys - states.Keys) - {name}
    ensures Extends(states[name := Visiting], states[name := Visiting])
  {
  }

  /** visit: fails only if it leaves the configuration or comes back to an
      outbound that is being visited. */
  method Visit(links: Links, states: States, name: string) returns (ok: bool, after: States)
    requires NONE !in links && name in links
    requires Sound(links, states) && Above(links, states, name)
    ensures !ok ==> !(Closed(links) && Acyclic(links))
    ensures ok ==> Sound(links, after) && Extends(states, after) && name in after && after[name].Visited?
    decreases |links.Keys - states.Keys|
  {
    hide Finite, ComesTo;
    ok, after := true, states;
    if name in states {
      ok := states[name].Visited?;
    } else {
      hide Sound, Above, Extends;
      Entered(links, states, name);
      after := after[name := Visiting];
      var next := links[name];
      if next != NONE {
        AboveNext(links, states, name);
        ok := next in links;
        if ok {
          ok, after := Visit(links, after, next);
        }
      }
      if ok {
        FiniteBefore(links, name);
        Finished(links, states, after, name);
        after := after[name := Visited];
      }
    }
  }

  /** validateFallbacks: whatever order the names are visited in, the search
      accepts exactly the closed and acyclic configurations. */
  method ValidateFallbacks(links: Links) returns (ok: bool)
    requires NONE !in links
    ensures ok <==> Closed(links) && Acyclic(links)
  {
    hide Finite, ComesTo;
    var states: States := map[];
    var todo := links.Keys;
    ok := true;
    while todo != {} && ok
      invariant todo <= links.Keys
      invariant !ok ==> !(Closed(links) && Acyclic(links))
      invariant ok ==> Sound(links, states) && forall s :: s in states ==> states[s].Visited?
      invariant ok ==> forall name :: name in links && name !in todo ==> name in states
      decreases todo
    {
      var name :| name in todo;
      ok, states := Visit(links, states, name);
      todo := todo - {name};
    }
    if ok {
      EndingIsValid(links);
    }
  }

  /** The configuration compiler checks closure and self-loops first; it accepts
      the same configurations. */
  method ValidateConfig(links: Links) returns (ok: bool)
    requires NONE !in links
    ensures ok <==> Closed(links) && Acyclic(links)
  {
    var todo := links.Keys;
    while todo != {}
      invariant todo <= links.Keys
      invariant forall name :: name in links && name !in todo && links[name] != NONE ==> links[name] in links
      decreases todo
    {
      var name :| name in todo;
      if links[name] != NONE {
        if links[name] !in links {
          return false;
        }
        if links[name] == name {
          ComesToNext(links, name);
          return false;
        }
      }
      todo := todo - {name};
    }
    ok := ValidateFallbacks(links);
  }
}
