/** Live reload of the data plane. Flows take a generation without a lock;
    commit and stats run under a mutex and fold the counters of generations that
    nobody holds into a base. Every load, store and counter update is one step,
    and the steps of all threads interleave freely. A UDP flow that waits in
    vain for its two copy goroutines leaves them behind; each of them may still
    finish its write and count it. One cumulative counter stands for each of the
    session counters. */
module DataPlane {
  import opened Wrappers

  /** Generations are numbered in the order in which they are installed. */
  datatype Thread =
    | Idle
    | Loaded(generation: nat)
    | Counted(generation: nat)
    | Running(generation: nat)
    | Undo(generation: nat)

  /** Who holds the mutex, and where in commit or stats. Pruning has kept some
      retired generations and has todo still to look at; Folding has seen that
      nobody holds generation. floor and least are the total when stats took the
      mutex. */
  datatype Holder =
    | Nobody
    | Pruning(kept: seq<nat>, todo: seq<nat>, floor: Option<nat>)
    | Folding(generation: nat, kept: seq<nat>, todo: seq<nat>, floor: Option<nat>)
    | Summing(sum: nat, unread: seq<nat>, least: nat)

  /** lingering lists the generations of the goroutines left behind. lost is
      history that no step reads: what was counted where no total looks. */
  datatype Plane = Plane(threads: seq<Thread>, lingering: seq<nat>, refs: seq<int>, counts: seq<nat>, current: nat,
                         retired: seq<nat>, base: nat, holder: Holder, reported: nat, lost: nat)

  datatype Event =
    | Load(thread: nat)
    | AddRef(thread: nat)
    | Recheck(thread: nat)
    | DropRef(thread: nat, left: nat)
    | Count(thread: nat)
    | LateCount(goroutine: nat)
    | Stop(goroutine: nat)
    | Commit
    | StatsBegin
    | CheckRefs
    | Fold
    | EndPrune
    | Read
    | StatsEnd

  predicate Enabled(p: Plane, e: Event) {
    match e
    case Load(t) => t < |p.threads| && p.threads[t].Idle?
    case AddRef(t) => t < |p.threads| && p.threads[t].Loaded? && p.threads[t].generation < |p.refs|
    case Recheck(t) => t < |p.threads| && p.threads[t].Counted?
    case DropRef(t, left) =>
      && t < |p.threads| && (p.threads[t].Running? || p.threads[t].Undo?) && p.threads[t].generation < |p.refs|
      && left <= if p.threads[t].Running? then 2 else 0
    case Count(t) => t < |p.threads| && p.threads[t].Running? && p.threads[t].generation < |p.counts|
    case LateCount(i) => i < |p.lingering| && p.lingering[i] < |p.counts|
    case Stop(i) => i < |p.lingering|
    case Commit => p.holder.Nobody?
    case StatsBegin => p.holder.Nobody?
    case CheckRefs => p.holder.Pruning? && p.holder.todo != [] && p.holder.todo[0] < |p.refs|
    case Fold => p.holder.Folding? && p.holder.generation < |p.counts|
    case EndPrune => p.holder.Pruning? && p.holder.todo == []
    case Read => p.holder.Summing? && p.holder.unread != [] && p.holder.unread[0] < |p.counts|
    case StatsEnd => p.holder.Summing? && p.holder.unread == []
  }

  function Counting(p: Plane, g: nat): Plane
    requires g < |p.counts|
  {
    p.(counts := p.counts[g := p.counts[g] + 1], lost := if Folded(p, g) then p.lost + 1 else p.lost)
  }

  function Stopped(p: Plane, i: nat): Plane
    requires i < |p.lingering|
  {
    p.(lingering := p.lingering[..i] + p.lingering[i + 1..])
  }

  function Next(p: Plane, e: Event): Plane
    requires Enabled(p, e)
  {
    match e
    case Load(t) => p.(threads := p.threads[t := Loaded(p.current)])
    case AddRef(t) =>
      var g := p.threads[t].generation;
      p.(threads := p.threads[t := Counted(g)], refs := p.refs[g := p.refs[g] + 1])
    case Recheck(t) =>
      var g := p.threads[t].generation;
      p.(threads := p.threads[t := if p.current == g then Running(g) else Undo(g)])
    case DropRef(t, left) =>
      // A flow ends; a failed attempt loads again.
      var g := p.threads[t].generation;
      p.(threads := p.threads[t := Idle], refs := p.refs[g := p.refs[g] - 1],
         lingering := p.lingering + seq(left, _ => g))
    case Count(t) => Counting(p, p.threads[t].generation)
    case LateCount(i) =>
      // Both connections are closed, so its next read fails.
      Stopped(Counting(p, p.lingering[i]), i)
    case Stop(i) => Stopped(p, i)
    case Commit =>
      p.(current := |p.counts|, counts := p.counts + [0], refs := p.refs + [0], retired := p.retired + [p.current],
         holder := Pruning([], p.retired + [p.current], None))
    case StatsBegin => p.(holder := Pruning([], p.retired, Some(Visible(p))))
    case CheckRefs =>
      var h := p.holder;
      if p.refs[h.todo[0]] != 0 then p.(holder := Pruning(h.kept + [h.todo[0]], h.todo[1..], h.floor))
      else p.(holder := Folding(h.todo[0], h.kept, h.todo[1..], h.floor))
    case Fold =>
      var h := p.holder;
      p.(base := p.base + p.counts[h.generation], holder := Pruning(h.kept, h.todo, h.floor))
    case EndPrune =>
      var h := p.holder;
      p.(retired := h.kept,
         holder := if h.floor.None? then Nobody else Summing(p.base, [p.current] + h.kept, h.floor.value))
    case Read =>
      var h := p.holder;
      p.(holder := Summing(h.sum + p.counts[h.unread[0]], h.unread[1..], h.least))
    case StatsEnd => p.(reported := p.holder.sum, holder := Nobody)
  }

  /** What base and unfolded generations should add up to. */
  function Visible(p: Plane): nat {
    if p.lost <= Total(p.counts) then Total(p.counts) - p.lost else 0
  }

  // ---------------------------------------------------------------------
  // Sums and reference counts

  function Total(counts: seq<nat>): nat {
    if counts == [] then 0 else Total(counts[..|counts| - 1]) + counts[|counts| - 1]
  }

  function Sum(counts: seq<nat>, ids: seq<nat>): nat {
    if ids == [] then 0
    else (if ids[0] < |counts| then counts[ids[0]] else 0) + Sum(counts, ids[1..])
  }

  predicate Holds(t: Thread, g: nat) {
    (t.Counted? || t.Running? || t.Undo?) && t.generation == g
  }

  function Holders(threads: seq<Thread>, g: nat): nat {
    if threads == [] then 0
    else (if Holds(threads[0], g) then 1 else 0) + Holders(threads[1..], g)
  }

  lemma {:induction false} HoldersUpdate(threads: seq<Thread>, t: nat, v: Thread, g: nat)
    requires t < |threads|
    ensures Holders(threads[t := v], g) ==
            Holders(threads, g) - (if Holds(threads[t], g) then 1 else 0) + (if Holds(v, g) then 1 else 0)
  {
    if t == 0 {
      assert threads[t := v][1..] == threads[1..];
    } else {
      assert threads[t := v][1..] == threads[1..][t - 1 := v];
      HoldersUpdate(threads[1..], t - 1, v, g);
    }
  }

  lemma {:induction false} HolderIsCounted(threads: seq<Thread>, t: nat, g: nat)
    requires t < |threads| && Holds(threads[t], g)
    ensures Holders(threads, g) > 0
  {
    if t > 0 {
      HolderIsCounted(threads[1..], t - 1, g);
    }
  }

  lemma {:induction false} TotalUpdate(counts: seq<nat>, g: nat, v: nat)
    requires g < |counts|
    ensures Total(counts[g := v]) == Total(counts) - counts[g] + v
  {
    var n := |counts| - 1;
    if g == n {
      assert counts[g := v][..n] == counts[..n];
    } else {
      assert counts[g := v][..n] == counts[..n][g := v];
      TotalUpdate(counts[..n], g, v);
    }
  }

  ghost predicate Distinct(ids: seq<nat>) {
    forall i, j :: 0 <= i < j < |ids| ==> ids[i] != ids[j]
  }

  lemma {:induction false} SumUpdate(counts: seq<nat>, ids: seq<nat>, g: nat, v: nat)
    requires g < |counts| && Distinct(ids)
    ensures Sum(counts[g := v], ids) == Sum(counts, ids) + if g in ids then v - counts[g] else 0
  {
    if ids != [] {
      SumUpdate(counts, ids[1..], g, v);
      assert g in ids <==> g == ids[0] || g in ids[1..];
    }
  }

  lemma {:induction false} SumSplit(counts: seq<nat>, a: seq<nat>, b: seq<nat>)
    ensures Sum(counts, a + b) == Sum(counts, a) + Sum(counts, b)
  {
    if a == [] {
      assert a + b == b;
    } else {
      assert (a + b)[1..] == a[1..] + b;
      SumSplit(counts, a[1..], b);
    }
  }

  lemma {:induction false} SumOfMore(counts: seq<nat>, ids: seq<nat>, v: nat)
    requires forall id :: id in ids ==> id < |counts|
    ensures Sum(counts + [v], ids) == Sum(counts, ids)
  {
    if ids != [] {
      assert ids[0] in ids && forall id :: id in ids[1..] ==> id in ids;
      SumOfMore(counts, ids[1..], v);
    }
  }

  // ---------------------------------------------------------------------
  // The invariant

  /** The retired generations whose counters are not yet in the base. */
  function Unfolded(p: Plane): seq<nat> {
    match p.holder
    case Nobody => p.retired
    case Pruning(kept, todo, _) => kept + todo
    case Folding(g, kept, todo, _) => kept + [g] + todo
    case Summing(_, _, _) => p.retired
  }

  predicate Folded(p: Plane, g: nat) {
    g < |p.counts| && g != p.current && g !in Unfolded(p)
  }

  ghost predicate RefsMatch(p: Plane) {
    && |p.refs| == |p.counts|
    && (forall t :: 0 <= t < |p.threads| && !p.threads[t].Idle? ==> p.threads[t].generation < |p.counts|)
    && (forall g :: g in p.lingering ==> g < |p.counts|)
    && forall g :: 0 <= g < |p.refs| ==> p.refs[g] == Holders(p.threads, g)
  }

  /** The newest generation is the current one; each older one is retired at
      most once. */
  ghost predicate Lineage(p: Plane) {
    && p.current + 1 == |p.counts|
    && Distinct(Unfolded(p))
    && forall g :: g in Unfolded(p) ==> g < p.current
  }

  /** Nobody runs on a generation whose counters are in the base or about to be
      added to it. */
  ghost predicate Quiet(p: Plane) {
    forall t :: 0 <= t < |p.threads| && p.threads[t].Running? ==>
      && !Folded(p, p.threads[t].generation)
      && (p.holder.Folding? ==> p.threads[t].generation != p.holder.generation)
  }

  ghost predicate Conserved(p: Plane)
    requires p.current < |p.counts|
  {
    p.base + Sum(p.counts, Unfolded(p)) + p.counts[p.current] + p.lost == Total(p.counts)
  }

  function Floor(p: Plane): nat {
    match p.holder
    case Nobody => p.reported
    case Pruning(_, _, floor) => if floor.Some? then floor.value else p.reported
    case Folding(_, _, _, floor) => if floor.Some? then floor.value else p.reported
    case Summing(_, _, floor) => floor
  }

  ghost predicate Bounded(p: Plane) {
    && p.reported <= Floor(p) <= Visible(p)
    && (p.holder.Summing? ==>
          && Distinct(p.holder.unread)
          && (forall g :: g in p.holder.unread ==> g < |p.counts| && !Folded(p, g))
          && p.holder.least <= p.holder.sum + Sum(p.counts, p.holder.unread) <= Visible(p))
  }

  ghost predicate Invariant(p: Plane) {
    RefsMatch(p) && Lineage(p) && Quiet(p) && Conserved(p) && Bounded(p)
  }

  /** One installed generation, no flows, nothing counted. */
  predicate Initial(p: Plane) {
    && (forall t :: 0 <= t < |p.threads| ==> p.threads[t].Idle?)
    && p.refs == [0] && p.counts == [0] && p.current == 0 && p.retired == []
    && p.base == 0 && p.holder.Nobody? && p.reported == 0 && p.lingering == [] && p.lost == 0
  }

  lemma {:induction false} NoHolders(threads: seq<Thread>, g: nat)
    requires forall t :: 0 <= t < |threads| ==> !Holds(threads[t], g)
    ensures Holders(threads, g) == 0
  {
    if threads != [] {
      NoHolders(threads[1..], g);
    }
  }

  lemma InitialHolds(p: Plane)
    requires Initial(p)
    ensures Invariant(p)
  {
    NoHolders(p.threads, 0);
    assert p.counts[..0] == [];
  }

  // ---------------------------------------------------------------------
  // Steps of flows

  /** A thread moves; the plane's lists, counters and mutex stay. */
  lemma ThreadMoves(p: Plane, t: nat, v: Thread, refs: seq<int>, lingering: seq<nat>)
    requires Invariant(p) && t < |p.threads| && forall g :: g in lingering ==> g < |p.counts|
    requires |refs| == |p.refs| && (!v.Idle? ==> v.generation < |p.counts|)
    requires forall g :: 0 <= g < |refs| ==>
               refs[g] == p.refs[g] - (if Holds(p.threads[t], g) then 1 else 0) + (if Holds(v, g) then 1 else 0)
    requires v.Running? ==> v.generation == p.current
    ensures Invariant(p.(threads := p.threads[t := v], refs := refs, lingering := lingering))
  {
    hide Sum, Total, Distinct, Holders;
    forall g | 0 <= g < |refs|
      ensures refs[g] == Holders(p.threads[t := v], g)
    {
      HoldersUpdate(p.threads, t, v, g);
    }
    if p.holder.Folding? {
      assert Unfolded(p)[|p.holder.kept|] == p.holder.generation;
      assert p.holder.generation in Unfolded(p);
    }
  }

  lemma FlowKeeps(p: Plane, e: Event)
    requires Invariant(p) && Enabled(p, e)
    requires e.Load? || e.AddRef? || e.Recheck? || e.DropRef?
    ensures Invariant(Next(p, e))
  {
    var t := e.thread;
    var q := Next(p, e);
    assert RefsMatch(p) && Lineage(p);
    hide Invariant, Holders;
    ThreadMoves(p, t, q.threads[t], q.refs, q.lingering);
  }

  /** Counting on a generation moves the total and, unless the generation is
      folded, exactly one share of it. */
  lemma CountKeeps(p: Plane, g: nat)
    requires Invariant(p) && g < |p.counts|
    ensures Invariant(Counting(p, g))
  {
    hide Holders, Sum, Total;
    TotalUpdate(p.counts, g, p.counts[g] + 1);
    SumUpdate(p.counts, Unfolded(p), g, p.counts[g] + 1);
    if p.holder.Summing? {
      SumUpdate(p.counts, p.holder.unread, g, p.counts[g] + 1);
    }
  }

  lemma StopKeeps(p: Plane, i: nat)
    requires Invariant(p) && i < |p.lingering|
    ensures Invariant(Stopped(p, i))
  {
    hide Sum, Total, Holders, Distinct;
    var q := Stopped(p, i);
    assert forall g :: g in q.lingering ==> g in p.lingering;
    assert Unfolded(q) == Unfolded(p) && Visible(q) == Visible(p);
    assert Quiet(q) && Bounded(q);
  }

  // ---------------------------------------------------------------------
  // Steps under the mutex

  lemma WithNewest(ids: seq<nat>, newest: nat)
    requires Distinct(ids) && forall id :: id in ids ==> id < newest
    ensures Distinct(ids + [newest]) && forall id :: id in ids + [newest] ==> id <= newest
    ensures Distinct([newest] + ids) && forall id :: id in [newest] + ids ==> id <= newest
  {
    assert forall i :: 0 <= i < |ids| ==> ids[i] in ids;
  }

  lemma CommitKeeps(p: Plane)
    requires Invariant(p) && p.holder.Nobody?
    ensures Invariant(Next(p, Commit))
  {
    hide Holders, Sum, Total, Distinct;
    WithNewest(p.retired, p.current);
    var q := Next(p, Commit);
    var n := |p.counts|;
    NobodyHoldsNew(p);
    NewTotal(p.counts);
    assert Unfolded(q) == p.retired + [p.current];
    SumOfMore(p.counts, p.retired + [p.current], 0);
    SumSplit(p.counts, p.retired, [p.current]);
    SumOfOne(p.counts, p.current);
  }

  lemma NobodyHoldsNew(p: Plane)
    requires RefsMatch(p)
    ensures Holders(p.threads, |p.counts|) == 0
  {
    NoHolders(p.threads, |p.counts|);
  }

  lemma NewTotal(counts: seq<nat>)
    ensures Total(counts + [0]) == Total(counts)
  {
    assert (counts + [0])[..|counts + [0]| - 1] == counts;
  }

  lemma SumOfOne(counts: seq<nat>, g: nat)
    requires g < |counts|
    ensures Sum(counts, [g]) == counts[g]
  {
    assert [g][1..] == [];
  }

  lemma StatsBeginKeeps(p: Plane)
    requires Invariant(p) && p.holder.Nobody?
    ensures Invariant(Next(p, StatsBegin))
  {
    hide Holders, Sum, Total, Distinct;
    assert [] + p.retired == p.retired;
  }

  /** A retired generation that nobody holds stays without flows: whoever still
      counts itself in will find that it is no longer current. */
  lemma CheckRefsKeeps(p: Plane)
    requires Invariant(p) && Enabled(p, CheckRefs)
    ensures Invariant(Next(p, CheckRefs))
  {
    hide Sum, Total, Holders;
    var h := p.holder;
    assert h.kept + h.todo == (h.kept + [h.todo[0]]) + h.todo[1..];
    if p.refs[h.todo[0]] == 0 {
      forall t | 0 <= t < |p.threads| && p.threads[t].Running?
        ensures p.threads[t].generation != h.todo[0]
      {
        if p.threads[t].generation == h.todo[0] {
          HolderIsCounted(p.threads, t, h.todo[0]);
        }
      }
    }
  }

  lemma FoldKeeps(p: Plane)
    requires Invariant(p) && Enabled(p, Fold)
    ensures Invariant(Next(p, Fold))
  {
    hide Sum, Total, Holders;
    var h := p.holder;
    SumSplit(p.counts, h.kept + [h.generation], h.todo);
    SumSplit(p.counts, h.kept, [h.generation]);
    SumSplit(p.counts, h.kept, h.todo);
    SumOfOne(p.counts, h.generation);
    Without(h.kept, h.generation, h.todo);
  }

  lemma Without(kept: seq<nat>, g: nat, todo: seq<nat>)
    requires Distinct(kept + [g] + todo)
    ensures Distinct(kept + todo)
    ensures forall x :: x in kept + todo <==> x in kept + [g] + todo && x != g
  {
    var ids := kept + [g] + todo;
    assert ids[|kept|] == g;
    forall i | 0 <= i < |kept + todo|
      ensures (kept + todo)[i] == ids[if i < |kept| then i else i + 1]
    {
    }
    forall x | x in kept + [g] + todo && x != g
      ensures x in kept + todo
    {
    }
  }

  lemma EndPruneKeeps(p: Plane)
    requires Invariant(p) && Enabled(p, EndPrune)
    ensures Invariant(Next(p, EndPrune))
  {
    hide Sum, Total, Holders, Distinct;
    var h := p.holder;
    assert h.kept + h.todo == h.kept;
    WithNewest(h.kept, p.current);
    if h.floor.Some? {
      SumSplit(p.counts, [p.current], h.kept);
      SumOfOne(p.counts, p.current);
    }
  }

  lemma TailIsDistinct(counts: seq<nat>, ids: seq<nat>)
    requires Distinct(ids) && ids != [] && ids[0] < |counts|
    ensures Distinct(ids[1..]) && forall id :: id in ids[1..] ==> id in ids
    ensures Sum(counts, ids) == counts[ids[0]] + Sum(counts, ids[1..])
  {
  }

  lemma ReadKeeps(p: Plane)
    requires Invariant(p) && Enabled(p, Read)
    ensures Invariant(Next(p, Read))
  {
    hide Total, Holders, Distinct, Sum;
    TailIsDistinct(p.counts, p.holder.unread);
  }

  /** What stats returns was reached by the visible total while stats ran. */
  lemma StatsEndKeeps(p: Plane)
    requires Invariant(p) && p.holder.Summing? && p.holder.unread == []
    ensures Invariant(p.(reported := p.holder.sum, holder := Nobody))
    ensures p.reported <= p.holder.least <= p.holder.sum <= Visible(p)
  {
    hide Total, Holders, Distinct;
  }

  lemma CountStep(p: Plane, g: nat)
    requires Invariant(p) && g < |p.counts|
    ensures Invariant(Counting(p, g)) && Counting(p, g).lingering == p.lingering && Counting(p, g).reported == p.reported
  {
    CountKeeps(p, g);
    hide Invariant;
  }

  lemma StepKeeps(p: Plane, e: Event)
    requires Invariant(p) && Enabled(p, e)
    ensures Invariant(Next(p, e))
    ensures p.reported <= Next(p, e).reported
  {
    hide Invariant, Folded;
    match e
    case Load(_) | AddRef(_) | Recheck(_) | DropRef(_, _) => FlowKeeps(p, e);
    case Count(t) => CountStep(p, p.threads[t].generation);
    case LateCount(i) => CountStep(p, p.lingering[i]); StopKeeps(Counting(p, p.lingering[i]), i);
    case Stop(i) => StopKeeps(p, i);
    case Commit => CommitKeeps(p);
    case StatsBegin => StatsBeginKeeps(p);
    case CheckRefs => CheckRefsKeeps(p);
    case Fold => FoldKeeps(p);
    case EndPrune => EndPruneKeeps(p);
    case Read => ReadKeeps(p);
    case StatsEnd => StatsEndKeeps(p);
  }

  // ---------------------------------------------------------------------
  // Runs

  function Run(start: Plane, events: seq<Event>): Option<Plane> {
    if events == [] then Some(start)
    else match Run(start, events[..|events| - 1])
      case None => None
      case Some(p) => if Enabled(p, events[|events| - 1]) then Some(Next(p, events[|events| - 1])) else None
  }

  lemma RunNone(p: Plane)
    ensures Run(p, []) == Some(p)
  {
  }

  lemma {:induction false} RunKeeps(start: Plane, events: seq<Event>)
    requires Initial(start) && Run(start, events).Some?
    ensures Invariant(Run(start, events).value)
  {
    hide Invariant, Initial, Enabled, Next;
    if events == [] {
      InitialHolds(start);
    } else {
      RunKeeps(start, events[..|events| - 1]);
      StepKeeps(Run(start, events[..|events| - 1]).value, events[|events| - 1]);
    }
  }

  /** How many events of a run counted on a generation after it was folded. */
  function LateHits(start: Plane, events: seq<Event>): nat {
    if events == [] then 0
    else
      var front, e := events[..|events| - 1], events[|events| - 1];
      var before := Run(start, front);
      LateHits(start, front) +
      if before.Some? && e.LateCount? && e.goroutine < |before.value.lingering|
         && Folded(before.value, before.value.lingering[e.goroutine]) then 1 else 0
  }

  lemma LostStep(p: Plane, e: Event)
    requires Invariant(p) && Enabled(p, e)
    ensures Next(p, e).lost == p.lost + if e.LateCount? && Folded(p, p.lingering[e.goroutine]) then 1 else 0
  {
    if e.Count? {
      RunsUnfolded(p, e.thread);
    }
    hide Invariant, Folded, Visible;
  }

  lemma RunsUnfolded(p: Plane, t: nat)
    requires Invariant(p) && t < |p.threads| && p.threads[t].Running?
    ensures !Folded(p, p.threads[t].generation)
  {
    hide Sum, Total, Holders, Distinct;
  }

  lemma {:induction false} LostIsLate(start: Plane, events: seq<Event>)
    requires Initial(start) && Run(start, events).Some?
    ensures Run(start, events).value.lost == LateHits(start, events)
  {
    if events != [] {
      var front := events[..|events| - 1];
      LostIsLate(start, front);
      RunKeeps(start, front);
      LostStep(Run(start, front).value, events[|events| - 1]);
      hide Folded, Visible, Next, Invariant, Initial;
    }
  }

  /** In every interleaving: no flow runs on a generation whose counters were
      folded; base and unfolded generations fall short of the total over all
      generations ever installed by exactly the number of late counts that hit
      a folded generation, so they equal it if and only if there was none. */
  lemma FoldedGenerationsAreQuiet(start: Plane, events: seq<Event>)
    requires Initial(start) && Run(start, events).Some?
    ensures var p := Run(start, events).value;
            && (forall t :: 0 <= t < |p.threads| && p.threads[t].Running? ==> !Folded(p, p.threads[t].generation))
            && p.current < |p.counts|
            && p.base + Sum(p.counts, Unfolded(p)) + p.counts[p.current] + LateHits(start, events) == Total(p.counts)
            && (p.base + Sum(p.counts, Unfolded(p)) + p.counts[p.current] == Total(p.counts) <==> LateHits(start, events) == 0)
  {
    hide Run, Sum, Total, Initial, LateHits;
    RunKeeps(start, events);
    LostIsLate(start, events);
  }

  /** In every interleaving the results of stats never go backwards, and each
      is at most what was counted and not lost. */
  lemma {:induction false} StatsNeverGoBackwards(start: Plane, events: seq<Event>, n: nat)
    requires Initial(start) && n <= |events| && Run(start, events).Some?
    ensures Run(start, events[..n]).Some?
    ensures Run(start, events[..n]).value.reported <= Run(start, events).value.reported
    ensures Run(start, events).value.reported <= Total(Run(start, events).value.counts) - LateHits(start, events)
    decreases |events|
  {
    hide Initial, Enabled, Next, Invariant, Total, LateHits;
    RunKeeps(start, events);
    LostIsLate(start, events);
    ReportedIsBounded(Run(start, events).value);
    if n == |events| {
      assert events[..n] == events;
    } else {
      var front := events[..|events| - 1];
      assert front[..n] == events[..n];
      StatsNeverGoBackwards(start, front, n);
      RunKeeps(start, front);
      StepKeeps(Run(start, front).value, events[|events| - 1]);
    }
  }

  lemma ReportedIsBounded(p: Plane)
    requires Invariant(p)
    ensures p.reported <= Total(p.counts) - p.lost
  {
    hide Total, Sum, Holders, Distinct;
  }

  // ---------------------------------------------------------------------
  // A run that loses a count

  function Alone(t: Thread, refs: int): Plane {
    Plane([t], [], [refs], [0], 0, [], 0, Nobody, 0, 0)
  }

  function Reloaded(t: Thread, lingering: seq<nat>, refs: int, retired: seq<nat>, holder: Holder): Plane {
    Plane([t], lingering, [refs, 0], [0, 0], 1, retired, 0, holder, 0, 0)
  }

  const FIRST: Plane := Alone(Thread.Idle, 0)
  const TAKEN: Plane := Alone(Running(0), 1)
  const RELOADED: Plane := Reloaded(Running(0), [], 1, [0], Nobody)
  const ENDED: Plane := Reloaded(Thread.Idle, [0], 0, [0], Nobody)
  const FOLDED: Plane := Reloaded(Thread.Idle, [0], 0, [0], Pruning([], [], Some(0)))
  const REPORTED: Plane := Reloaded(Thread.Idle, [0], 0, [], Nobody)
  const LAST: Plane := REPORTED.(lingering := [], counts := [1, 0], lost := 1)

  const LOSING: seq<Event> :=
    [Load(0), AddRef(0), Recheck(0), Commit, CheckRefs, EndPrune, DropRef(0, 1),
     StatsBegin, CheckRefs, Fold, EndPrune, Read, StatsEnd, LateCount(0)]

  predicate Leads(p: Plane, e: Event, q: Plane) {
    Enabled(p, e) && Next(p, e) == q
  }

  lemma Follow(n: nat, p: Plane, q: Plane)
    requires n < |LOSING| && Run(FIRST, LOSING[..n]) == Some(p) && Leads(p, LOSING[n], q)
    ensures Run(FIRST, LOSING[..n + 1]) == Some(q)
  {
    hide Enabled, Next;
    assert LOSING[..n + 1][..n] == LOSING[..n];
  }

  lemma FlowStarts()
    ensures Leads(FIRST, Load(0), Alone(Loaded(0), 0))
    ensures Leads(Alone(Loaded(0), 0), AddRef(0), Alone(Counted(0), 1))
    ensures Leads(Alone(Counted(0), 1), Recheck(0), TAKEN)
  {
  }

  lemma ReloadRetires()
    ensures Leads(TAKEN, Commit, RELOADED.(holder := Pruning([], [0], None)))
    ensures Leads(RELOADED.(holder := Pruning([], [0], None)), CheckRefs, RELOADED.(holder := Pruning([0], [], None)))
    ensures Leads(RELOADED.(holder := Pruning([0], [], None)), EndPrune, RELOADED)
  {
    assert [0][1..] == [] && [] + [0] == [0];
  }

  lemma FlowEnds()
    ensures Leads(RELOADED, DropRef(0, 1), ENDED)
  {
    assert [] + seq(1, _ => 0) == [0];
  }

  lemma StatsFold()
    ensures Leads(ENDED, StatsBegin, ENDED.(holder := Pruning([], [0], Some(0))))
    ensures Leads(ENDED.(holder := Pruning([], [0], Some(0))), CheckRefs, ENDED.(holder := Folding(0, [], [], Some(0))))
    ensures Leads(ENDED.(holder := Folding(0, [], [], Some(0))), Fold, FOLDED)
  {
    assert Total([0, 0]) == 0 by { assert [0, 0][..1] == [0] && [0][..0] == []; }
    assert [0][1..] == [];
  }

  lemma StatsReport()
    ensures Leads(FOLDED, EndPrune, REPORTED.(holder := Summing(0, [1], 0)))
    ensures Leads(REPORTED.(holder := Summing(0, [1], 0)), Read, REPORTED.(holder := Summing(0, [], 0)))
    ensures Leads(REPORTED.(holder := Summing(0, [], 0)), StatsEnd, REPORTED)
  {
    assert [1] + [] == [1] && [1][1..] == [];
  }

  lemma GoroutineCounts()
    ensures Leads(REPORTED, LateCount(0), LAST)
  {
    assert [0][..0] + [0][1..] == [];
  }

  lemma FlowIsRetired()
    ensures Run(FIRST, LOSING[..7]) == Some(ENDED)
  {
    FlowStarts(); ReloadRetires(); FlowEnds(); RunNone(FIRST);
    hide Run, Leads, Reloaded, Alone;
    assert LOSING[..0] == [];
    Follow(0, FIRST, Alone(Loaded(0), 0));
    Follow(1, Alone(Loaded(0), 0), Alone(Counted(0), 1));
    Follow(2, Alone(Counted(0), 1), TAKEN);
    Follow(3, TAKEN, RELOADED.(holder := Pruning([], [0], None)));
    Follow(4, RELOADED.(holder := Pruning([], [0], None)), RELOADED.(holder := Pruning([0], [], None)));
    Follow(5, RELOADED.(holder := Pruning([0], [], None)), RELOADED);
    Follow(6, RELOADED, ENDED);
  }

  lemma LosingRun()
    requires Run(FIRST, LOSING[..7]) == Some(ENDED)
    ensures Run(FIRST, LOSING) == Some(LAST)
  {
    StatsFold(); StatsReport(); GoroutineCounts();
    hide Run, Leads, Reloaded, Alone;
    Follow(7, ENDED, ENDED.(holder := Pruning([], [0], Some(0))));
    Follow(8, ENDED.(holder := Pruning([], [0], Some(0))), ENDED.(holder := Folding(0, [], [], Some(0))));
    Follow(9, ENDED.(holder := Folding(0, [], [], Some(0))), FOLDED);
    Follow(10, FOLDED, REPORTED.(holder := Summing(0, [1], 0)));
    Follow(11, REPORTED.(holder := Summing(0, [1], 0)), REPORTED.(holder := Summing(0, [], 0)));
    Follow(12, REPORTED.(holder := Summing(0, [], 0)), REPORTED);
    Follow(13, REPORTED, LAST);
    assert LOSING[..14] == LOSING;
  }

  lemma LastSums()
    ensures Total([1, 0]) == 1 && Sum([1, 0], []) == 0
  {
    assert [1, 0][..1] == [1] && [1][..0] == [];
  }

  /** A flow waits in vain for a copy goroutine and gives its generation back;
      a reload has retired the generation, stats folds it, and the goroutine
      counts its last datagram where no total will ever look. */
  lemma LateCountIsLost()
    ensures Initial(FIRST) && Run(FIRST, LOSING) == Some(LAST) && LateHits(FIRST, LOSING) == 1
    ensures LAST.base + Sum(LAST.counts, Unfolded(LAST)) + LAST.counts[LAST.current] == 0 && Total(LAST.counts) == 1
  {
    FlowIsRetired();
    LosingRun();
    LastSums();
    hide Run, LateHits, Total, Sum;
    LostIsLate(FIRST, LOSING);
  }

  // ---------------------------------------------------------------------
  // Pruning without interference

  /** The generations of ids that somebody holds, in order. */
  function StillHeld(refs: seq<int>, ids: seq<nat>): seq<nat> {
    if ids == [] then []
    else
      var front, last := StillHeld(refs, ids[..|ids| - 1]), ids[|ids| - 1];
      if last < |refs| && refs[last] != 0 then front + [last] else front
  }

  /** pruneLocked: filters the retired list in its own array and adds what it
      drops to the base, so that nothing is lost or counted twice. */
  method PruneInPlace(retired: array<nat>, n: nat, refs: seq<int>, counts: seq<nat>, base: nat)
    returns (kept: nat, newBase: nat)
    requires n <= retired.Length && |refs| == |counts|
    requires forall i :: 0 <= i < n ==> retired[i] < |refs|
    modifies retired
    ensures kept <= n && retired[..kept] == StillHeld(refs, old(retired[..n]))
    ensures newBase + Sum(counts, retired[..kept]) == base + Sum(counts, old(retired[..n]))
  {
    kept, newBase := 0, base;
    ghost var before := retired[..n];
    for i := 0 to n
      invariant kept <= i
      invariant forall k :: i <= k < n ==> retired[k] == before[k]
      invariant retired[..kept] == StillHeld(refs, before[..i])
      invariant newBase + Sum(counts, retired[..kept]) == base + Sum(counts, before[..i])
    {
      var generation := retired[i];
      assert generation == before[i];
      assert before[..i + 1] == before[..i] + [generation];
      assert before[..i + 1][..i] == before[..i];
      SumSplit(counts, before[..i], [generation]);
      SumOfOne(counts, generation);
      if refs[generation] != 0 {
        SumSplit(counts, retired[..kept], [generation]);
        ghost var front := retired[..kept];
        retired[kept] := generation;
        assert retired[..kept + 1] == front + [generation];
        kept := kept + 1;
      } else {
        newBase := newBase + counts[generation];
      }
    }
    assert before[..n] == before;
  }
}
