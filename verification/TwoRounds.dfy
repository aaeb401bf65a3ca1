/** Two services that each want to run after the other, over two rounds: both orders get lost. */
module TwoRounds {
  import opened Walk
  import opened BackEdges
  import opened Round
  import opened Traversal

  /** `a` and `b` depend optionally on each other, and both on `r`. */
  ghost predicate Triangle(g: Graph, r: Name, a: Name, b: Name) {
    && r != a && r != b && a != b
    && g == map[r := [], a := [Rel(r, true), Rel(b, true)], b := [Rel(r, true), Rel(a, true)]]
  }

  /** The walk that comes to `a` before `b` ignores the edge from `b` to `a`. */
  lemma TriangleWalk(g: Graph, failing: set<nat>, r: Name, a: Name, b: Name)
    requires Triangle(g, r, a, b) && 0 !in failing
    ensures WalkAll(g, failing, START, [r, a, b]) == Done(Trail({r, a, b}, [[a, b, a]], [r, b, a]))
  {
    var t0 := Trail({r}, [], [r]);
    var ta, tb := t0.(launched := {r} + {a}), t0.(launched := {r} + {a} + {b});
    var tc := tb.(broken := [[a] + [b] + [a]]);
    assert StartService(g, failing, [], START, r) == Done(t0) by {
      assert {} + {r} == {r} && [] + [r] == [r];
    }
    assert g[b][1..] == [Rel(a, true)] && g[b][1..][1..] == [] && a in [a] + [b];
    assert VisitDeps(g, failing, [a] + [b], tb, g[b][1..]) == Done(tc) by {
      assert [] + [[a] + [b] + [a]] == [[a] + [b] + [a]];
    }
    assert VisitDeps(g, failing, [a] + [b], tb, g[b]) == Done(tc);
    var td := tc.(log := [r] + [b]);
    assert StartService(g, failing, [a], ta, b) == Done(td);
    assert g[a][1..] == [Rel(b, true)] && g[a][1..][1..] == [] && b !in [a] && r !in [a];
    assert VisitDeps(g, failing, [a], ta, g[a][1..]) == Done(td);
    assert VisitDeps(g, failing, [a], ta, g[a]) == Done(td);
    var te := td.(log := [r] + [b] + [a]);
    assert [] + [a] == [a];
    assert StartService(g, failing, [], t0, a) == Done(te);
    assert [r, a, b][1..] == [a, b] && [a, b][1..] == [b] && [b][1..] == [];
    assert WalkAll(g, failing, te, [b]) == Done(te);
    assert WalkAll(g, failing, t0, [a, b]) == Done(te);
    assert te == Trail({r, a, b}, [[a, b, a]], [r, b, a]) by {
      assert [a] + [b] + [a] == [a, b, a] && [r] + [b] + [a] == [r, b, a] && {r} + {a} + {b} == {r, a, b};
    }
  }

  /** A round over the triangle: everything is selected, and everybody waits for its targets. */
  function PlanFor(log: seq<Name>, r: Name, a: Name, b: Name, acts: map<Name, Err>): Plan {
    Plan(log, {}, true, map[r := [], a := [r, b], b := [r, a]], acts)
  }

  lemma TrianglePlanned(g: Graph, failing: set<nat>, r: Name, a: Name, b: Name, ws: map<Name, Wrapper>, acts: map<Name, Err>)
    requires Triangle(g, r, a, b) && 0 !in failing && ws.Keys == g.Keys && ws.Keys <= acts.Keys
    ensures Planned(g, failing, [r, a, b], ws, PlanFor([r, b, a], r, a, b, acts))
  {
    TriangleWalk(g, failing, r, a, b);
    var waits := PlanFor([r, b, a], r, a, b, acts).waits;
    forall n <- g, d
      ensures n in waits && (d in waits[n] <==> exists rel <- g[n] :: rel.target == d)
    {
      assert n == a ==> g[n][0].target == r && g[n][1].target == b;
      assert n == b ==> g[n][0].target == r && g[n][1].target == a;
      assert forall rel <- g[n] :: rel in g[a] || rel in g[b];
    }
  }

  /** The first round: the action of `r` asks for a restart, so `a` and `b` are postponed. */
  lemma FirstRound(g: Graph, failing: set<nat>, r: Name, a: Name, b: Name, acts: map<Name, Err>) returns (t: Turn)
    requires Triangle(g, r, a, b) && 0 !in failing && g.Keys == acts.Keys && acts[r] == Restart
    ensures IsTraversal([t], [g.Keys]) && Restarts(t) && t.after.Keys == g.Keys && BrokenIn(t, b, a)
    ensures t.after[r] == Wrapper(0, Executed, Restart, {}, 1)
    ensures t.after[a] == Wrapper(0, Unknown, Restart, {}, 0) && t.after[b] == Wrapper(0, Unknown, Restart, {a}, 0)
  {
    hide WalkAll, IgnoredTargets, Final, Ready;
    var before := Reloaded(map[], g.Keys);
    var p := PlanFor([r, b, a], r, a, b, acts);
    TriangleWalk(g, failing, r, a, b);
    TrianglePlanned(g, failing, r, a, b, before, acts);
    WalkMakesReady(g, failing, [r, a, b], before, p);
    TriangleStarts(before, r, a, b);
    var ws := Started(g, failing, [r, a, b], before);
    t := FirstTurn(g, failing, r, a, b, p, before);
    assert Follows([t], [g.Keys], 0);
    assert r in t.after && IsSelected(t.plan.selected, r);
    assert Rel(a, true) in g[b] && [a, b, a] in [[a, b, a]];
  }

  lemma FirstTurn(g: Graph, failing: set<nat>, r: Name, a: Name, b: Name, p: Plan, before: map<Name, Wrapper>) returns (t: Turn)
    requires Triangle(g, r, a, b) && Planned(g, failing, [r, a, b], before, p)
    requires WalkAll(g, failing, START, [r, a, b]).Done? && Ready(p, Started(g, failing, [r, a, b], before))
    requires p == PlanFor([r, b, a], r, a, b, p.acts) && p.acts[r] == Restart && before.Keys == g.Keys
    requires var ws := Started(g, failing, [r, a, b], before);
      && ws[r] == FRESH && ws[a] == FRESH && ws[b] == FRESH.(ignored := {a})
    ensures Completed(t) && t.before == before && t.g == g && t.failing == failing && t.order == [r, a, b] && t.plan == p
    ensures t.after.Keys == g.Keys && t.after[r] == Wrapper(0, Executed, Restart, {}, 1)
    ensures t.after[a] == Wrapper(0, Unknown, Restart, {}, 0) && t.after[b] == Wrapper(0, Unknown, Restart, {a}, 0)
  {
    hide WalkAll, IgnoredTargets, Final, Planned;
    var ws := Started(g, failing, [r, a, b], before);
    Postponement(p, ws, r, a, b);
    t := Turn(before, Final(p, ws), g, failing, [r, a, b], p);
  }

  lemma TriangleStarts(before: map<Name, Wrapper>, r: Name, a: Name, b: Name)
    requires a != b && r != b && a != r && r in before && a in before && b in before
    ensures var ws := WithIgnored(before, [[a, b, a]]);
      && ws[r] == before[r] && ws[a] == before[a] && ws[b] == before[b].(ignored := before[b].ignored + {a})
  {
    assert forall n :: IgnoredTargets([[a, b, a]], n) == if n == b then {a} else {} by {
      assert [[a, b, a]][..0] == [];
    }
    assert forall n <- before :: before[n].ignored + {} == before[n].ignored;
  }

  lemma Postponement(p: Plan, ws: map<Name, Wrapper>, r: Name, a: Name, b: Name)
    requires Ready(p, ws) && p == PlanFor([r, b, a], r, a, b, p.acts) && p.acts[r] == Restart
    requires a != b && r != a && r != b
    requires ws[r].state == Unknown && ws[a].state == Unknown && ws[b].state == Unknown
    requires r !in ws[a].ignored && r !in ws[b].ignored
    ensures var final := Final(p, ws);
      && final.Keys == ws.Keys && final[r] == ws[r].(done := ws[r].done - 1, state := Executed, runs := ws[r].runs + 1, err := Restart)
      && final[a] == ws[a].(done := ws[a].done - 1, err := Restart) && final[b] == ws[b].(done := ws[b].done - 1, err := Restart)
  {
    FinalOf(p, ws, r);
    FinalOf(p, ws, a);
    FinalOf(p, ws, b);
    var final := Final(p, ws);
    assert p.waits[a][0] == r && p.waits[b][0] == r;
    assert Waits(final, a, r) && Waits(final, b, r);
  }

  // ---------- The second round ----------

  /** Some interleaving of the round leads to this snapshot. */
  ghost predicate Occurs(p: Plan, ws: map<Name, Wrapper>, s: Snapshot) {
    exists tr, schedule :: IsRun(p, ws, tr, schedule) && tr[|tr| - 1] == s
  }

  lemma OccursNext(p: Plan, ws: map<Name, Wrapper>, s: Snapshot, th: Thread, s': Snapshot)
    requires Occurs(p, ws, s) && Step(p, s, s', th)
    ensures Occurs(p, ws, s')
  {
    hide Step;
    var tr, schedule :| IsRun(p, ws, tr, schedule) && tr[|tr| - 1] == s;
    var tr', schedule' := tr + [s'], schedule + [th];
    forall i | 0 <= i < |schedule'|
      ensures Step(p, tr'[i], tr'[i + 1], schedule'[i])
    {
      assert i < |schedule| ==> Step(p, tr[i], tr[i + 1], schedule[i]);
    }
    assert IsRun(p, ws, tr', schedule');
  }

  /** After the walk has launched the first `k` services, and before any of them has moved. */
  function Launched(p: Plan, ws: map<Name, Wrapper>, k: nat): Snapshot
    requires k <= |p.log|
  {
    Snapshot(k, map n | n in ws :: if n in p.log[..k] then Entering else Idle, ws)
  }

  lemma {:induction false} CanLaunch(p: Plan, ws: map<Name, Wrapper>, k: nat)
    requires Shaped(p, ws) && k <= |p.log| && p.selected == {}
    ensures Occurs(p, ws, Launched(p, ws, k))
  {
    if k == 0 {
      assert Launched(p, ws, 0) == Begin(ws);
      assert IsRun(p, ws, [Begin(ws)], []);
      assert [Begin(ws)][0] == Begin(ws);
    } else {
      CanLaunch(p, ws, k - 1);
      var s := Launched(p, ws, k - 1);
      assert p.log[..k] == p.log[..k - 1] + [p.log[k - 1]];
      assert WalkerStep(p, s) == Launched(p, ws, k);
      OccursNext(p, ws, s, Walker, Launched(p, ws, k));
    }
  }

  /** One step of the goroutine of `n`. */
  lemma Moves(p: Plan, ws: map<Name, Wrapper>, s: Snapshot, n: Name) returns (s': Snapshot)
    requires Occurs(p, ws, s) && s.ws.Keys <= p.waits.Keys && s.ws.Keys <= p.acts.Keys && CanStep(p, s, n)
    ensures Occurs(p, ws, s') && s' == GoStep(p, s, n)
    ensures var (pc, w) := Move(p, s.ws, s.pc[n], n); s' == s.(pc := s.pc[n := pc], ws := s.ws[n := w])
  {
    s' := GoStep(p, s, n);
    OccursNext(p, ws, s, Goroutine(n), s');
  }

  /** `x` runs its action although `y` has not even begun. */
  ghost predicate RunsBefore(s: Snapshot, ws: map<Name, Wrapper>, x: Name, y: Name) {
    x in ws && x in s.ws && y in s.ws && y in s.pc
    && s.ws[x].runs > ws[x].runs && s.ws[y].done == 1 && s.pc[y] == Entering
  }

  /** Everything is launched, `r` has left, and nobody else has moved. */
  lemma CanLeaveFirst(p: Plan, ws: map<Name, Wrapper>, r: Name) returns (s: Snapshot)
    requires Shaped(p, ws) && p.selected == {} && r in ws && forall n <- ws :: n in p.log
    requires ws[r].state == Executed && ws[r].done == 1
    ensures Occurs(p, ws, s) && s.ws == ws[r := ws[r].(done := 0)]
    ensures s.pc.Keys == ws.Keys && forall n <- ws :: s.pc[n] == if n == r then Gone else Entering
  {
    hide Occurs;
    CanLaunch(p, ws, |p.log|);
    s := Launched(p, ws, |p.log|);
    assert p.log[..|p.log|] == p.log;
    s := Moves(p, ws, s, r);
    s := Moves(p, ws, s, r);
  }

  /** A service that waits for `r` and ignores `y` can run before `y`. */
  lemma CanRunFirst(p: Plan, ws: map<Name, Wrapper>, r: Name, x: Name, y: Name) returns (s: Snapshot)
    requires Shaped(p, ws) && p.selected == {} && p.ordered && ws.Keys == {r, x, y}
    requires r != x && r != y && x != y && forall n <- ws :: n in p.log
    requires p.waits[x] == [r, y]
    requires ws[r].state == Executed && ws[r].done == 1 && ws[r].err != Restart
    requires ws[x].state == Unknown && ws[x].ignored == {y} && ws[y].done == 1
    ensures Occurs(p, ws, s) && RunsBefore(s, ws, x, y)
  {
    hide Occurs, Launched, WalkerStep;
    s := CanLeaveFirst(p, ws, r);
    s := Moves(p, ws, s, x);
    s := Moves(p, ws, s, x);
    s := Moves(p, ws, s, x);
    assert s.pc[x] == Waiting(2);
    s := Moves(p, ws, s, x);
  }

  /** A single walk keeps one of two contradicting labels. But a second round may visit the map in
      another order, and a wrapper keeps what it ignores: then no label is left, and either
      service can run before the other has begun. */
  lemma BothOrdersLost(g: Graph, failing: set<nat>, r: Name, a: Name, b: Name, acts: map<Name, Err>)
      returns (run: seq<Turn>, ws: map<Name, Wrapper>, p: Plan, s: Snapshot, s': Snapshot)
    requires Triangle(g, r, a, b) && 0 !in failing && g.Keys == acts.Keys && acts[r] == Restart
    ensures |run| == 1 && IsTraversal(run, [g.Keys]) && Restarts(run[0])
    ensures ws == Reloaded(LastViews(run), {}) && Planned(g, failing, [r, b, a], ws, p) && p.ordered
    ensures var started := Started(g, failing, [r, b, a], ws); Occurs(p, started, s) && RunsBefore(s, started, a, b)
    ensures var started := Started(g, failing, [r, b, a], ws); Occurs(p, started, s') && RunsBefore(s', started, b, a)
  {
    hide Occurs, RunsBefore, Planned, IsTraversal, WalkAll, Started, BrokenIn, Restarts;
    var t := FirstRound(g, failing, r, a, b, acts);
    run := [t];
    ws := Reloaded(t.after, {});
    p := PlanFor([r, a, b], r, a, b, acts);
    SecondPlan(g, failing, r, a, b, ws, acts);
    SecondStart(g, failing, r, a, b, t, ws);
    s := CanRunFirst(p, Started(g, failing, [r, b, a], ws), r, a, b);
    s' := CanRunFirst(p, Started(g, failing, [r, b, a], ws), r, b, a);
  }

  lemma SecondStart(g: Graph, failing: set<nat>, r: Name, a: Name, b: Name, t: Turn, ws: map<Name, Wrapper>)
    requires Triangle(g, r, a, b) && 0 !in failing && t.after.Keys == g.Keys && ws == Reloaded(t.after, {})
    requires t.after[r] == Wrapper(0, Executed, Restart, {}, 1)
    requires t.after[a] == Wrapper(0, Unknown, Restart, {}, 0) && t.after[b] == Wrapper(0, Unknown, Restart, {a}, 0)
    ensures var started := Started(g, failing, [r, b, a], ws);
      && started.Keys == g.Keys && started[r] == Wrapper(1, Executed, NoErr, {}, 1)
      && started[a] == Wrapper(1, Unknown, NoErr, {b}, 0) && started[b] == Wrapper(1, Unknown, NoErr, {a}, 0)
  {
    assert Triangle(g, r, b, a);
    TriangleWalk(g, failing, r, b, a);
    TriangleStarts(ws, r, b, a);
    assert ws[a].ignored + {b} == {b};
  }

  lemma SecondPlan(g: Graph, failing: set<nat>, r: Name, a: Name, b: Name, ws: map<Name, Wrapper>, acts: map<Name, Err>)
    requires Triangle(g, r, a, b) && 0 !in failing && ws.Keys == g.Keys && ws.Keys <= acts.Keys
    ensures Planned(g, failing, [r, b, a], ws, PlanFor([r, a, b], r, a, b, acts))
  {
    hide Planned, WalkAll;
    Symmetric(g, r, a, b, acts);
    TrianglePlanned(g, failing, r, b, a, ws, acts);
  }

  lemma Symmetric(g: Graph, r: Name, a: Name, b: Name, acts: map<Name, Err>)
    requires Triangle(g, r, a, b)
    ensures Triangle(g, r, b, a)
    ensures PlanFor([r, a, b], r, a, b, acts) == PlanFor([r, a, b], r, b, a, acts)
  {
    var waits, waits' := map[r := [], a := [r, b], b := [r, a]], map[r := [], b := [r, a], a := [r, b]];
    assert waits == waits';
  }
}
