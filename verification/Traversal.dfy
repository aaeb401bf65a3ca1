/** A whole run of `traverse`: rounds of walking and executing, separated by resets and reloads. */
module Traversal {
  import opened Walk
  import opened Round
  import opened BackEdges

  // ---------- From the walk to the round ----------

  /** The targets that the walk passed to `IgnoreDep` of `n`. */
  function IgnoredTargets(broken: seq<seq<Name>>, n: Name): set<Name> {
    if broken == [] then {}
    else
      var p := broken[|broken| - 1];
      IgnoredTargets(broken[..|broken| - 1], n) + if |p| >= 2 && p[|p| - 2] == n then {p[|p| - 1]} else {}
  }

  lemma IgnoredTargetsOfBreak(broken: seq<seq<Name>>, path: seq<Name>, n: Name)
    requires |path| >= 2
    ensures IgnoredTargets(broken + [path], n)
         == IgnoredTargets(broken, n) + if n == path[|path| - 2] then {path[|path| - 1]} else {}
  {
    assert (broken + [path])[..|broken|] == broken;
  }

  lemma {:induction false} IgnoredTargetsAre(broken: seq<seq<Name>>, n: Name, d: Name)
    ensures d in IgnoredTargets(broken, n) <==> Ignored(broken, n, d)
  {
    if broken != [] {
      var front, p := broken[..|broken| - 1], broken[|broken| - 1];
      IgnoredTargetsAre(front, n, d);
      assert forall q <- broken :: q in front || q == p;
      assert p in broken && forall q <- front :: q in broken;
    }
  }

  function WithIgnored(ws: map<Name, Wrapper>, broken: seq<seq<Name>>): (r: map<Name, Wrapper>)
    ensures r.Keys == ws.Keys
  {
    map n | n in ws :: ws[n].(ignored := ws[n].ignored + IgnoredTargets(broken, n))
  }

  /** Each goroutine waits for the targets of its dependencies, in any order. */
  ghost predicate WaitsForDeps(g: Graph, waits: map<Name, seq<Name>>) {
    forall n <- g :: n in waits && forall d :: d in waits[n] <==> exists rel <- g[n] :: rel.target == d
  }

  /** Every wrapper has been reset and is about to take part in a round. */
  ghost predicate Armed(ws: map<Name, Wrapper>) {
    forall n <- ws :: ws[n].done == 1 && ws[n].err != Restart
  }

  /** The walk over `g` and the plan of the round that it starts. */
  ghost predicate Planned(g: Graph, failing: set<nat>, order: seq<Name>, ws: map<Name, Wrapper>, p: Plan) {
    && Covers(g, order) && g.Keys == ws.Keys
    && p.log == WalkAll(g, failing, START, order).t.log
    && WaitsForDeps(g, p.waits) && ws.Keys <= p.acts.Keys
  }

  /** The wrappers as the goroutines of the round find them. */
  function Started(g: Graph, failing: set<nat>, order: seq<Name>, ws: map<Name, Wrapper>): map<Name, Wrapper>
    requires forall n <- order :: n in g
  {
    WithIgnored(ws, WalkAll(g, failing, START, order).t.broken)
  }

  /** Whatever the walk's outcome, its launch order is fit for a round. */
  lemma WalkMakesReady(g: Graph, failing: set<nat>, order: seq<Name>, ws: map<Name, Wrapper>, p: Plan)
    requires Planned(g, failing, order, ws, p) && Armed(ws)
    ensures Ready(p, Started(g, failing, order, ws))
  {
    LaunchOrder(g, failing, order);
    var t := WalkAll(g, failing, START, order).t;
    var ws' := Started(g, failing, order, ws);
    forall i, d | 0 <= i < |p.log| && d in p.waits[p.log[i]] && Waits(ws', p.log[i], d)
      ensures d in p.log[..i]
    {
      var n := p.log[i];
      var rel :| rel in g[n] && rel.target == d;
      assert Settled(g, t.broken, t.log[..i], n, rel);
      IgnoredTargetsAre(t.broken, n, d);
    }
  }

  /** Deadlock freedom for every dependency graph, iteration order and interleaving, also when
      the walk returns an error part way: an unfinished goroutine never leaves everything stuck. */
  lemma NoDeadlock(g: Graph, failing: set<nat>, order: seq<Name>, ws: map<Name, Wrapper>, p: Plan,
                   tr: seq<Snapshot>, schedule: seq<Thread>)
    requires Planned(g, failing, order, ws, p) && Armed(ws)
    requires IsRun(p, Started(g, failing, order, ws), tr, schedule)
    ensures var s := tr[|tr| - 1];
      && (forall n <- ws :: n in s.pc)
      && ((exists n <- ws :: s.pc[n] !in {Idle, Gone}) ==> exists n, s' :: Step(p, s, s', Goroutine(n)))
      && (Quiescent(p, s) || exists th, s' :: Step(p, s, s', th))
  {
    WalkMakesReady(g, failing, order, ws, p);
    DeadlockFree(p, Started(g, failing, order, ws), tr, schedule);
  }

  /** In a dependency-ordered round, an action only runs after every loaded dependency is done
      or Ignored and did not end in ErrRestart, except those whose edge is ignored: since an
      earlier round, or because this walk broke it. */
  lemma RunsAfterDependency(g: Graph, failing: set<nat>, order: seq<Name>, ws: map<Name, Wrapper>, p: Plan,
                            tr: seq<Snapshot>, schedule: seq<Thread>, i: nat, b: Name, rel: Rel)
    requires Planned(g, failing, order, ws, p) && Armed(ws) && p.ordered
    requires IsRun(p, Started(g, failing, order, ws), tr, schedule) && i < |tr|
    requires b in g && rel in g[b] && rel.target in g
    requires b in tr[i].ws && tr[i].ws[b].runs > ws[b].runs
    ensures IsDone(tr[i], rel.target) || rel.target in ws[b].ignored || BrokenBy(g, failing, order, b, rel.target)
  {
    var ws', a := Started(g, failing, order, ws), rel.target;
    WalkMakesReady(g, failing, order, ws, p);
    IgnoredTargetsAre(WalkAll(g, failing, START, order).t.broken, b, a);
    if a in ws'[b].ignored {
      LaunchOrder(g, failing, order);
    } else {
      assert a in p.waits[b];
      ActsAfterDependencies(p, ws', tr, schedule, i, b, a);
    }
  }

  /** The service has finished, or was Ignored, and nothing has to wait for a restart of it. */
  predicate IsDone(s: Snapshot, n: Name) {
    n in s.ws && s.ws[n].done == 0 && s.ws[n].err != Restart
  }

  // ---------- Whole runs ----------

  /** A round whose walk succeeded: the wrappers before and after it, the walk and the plan. */
  datatype Turn = Turn(before: map<Name, Wrapper>, after: map<Name, Wrapper>,
                       g: Graph, failing: set<nat>, order: seq<Name>, plan: Plan)

  /** By `Confluence` the interleaving does not matter for the wrappers after the round. */
  ghost predicate Completed(t: Turn) {
    && Planned(t.g, t.failing, t.order, t.before, t.plan)
    && WalkAll(t.g, t.failing, START, t.order).Done?
    && Shaped(t.plan, Started(t.g, t.failing, t.order, t.before))
    && t.after == Final(t.plan, Started(t.g, t.failing, t.order, t.before))
  }

  /** `traverse` goes on with another round when a selected wrapper ended in ErrRestart. */
  ghost predicate Restarts(t: Turn) {
    exists n <- t.after :: IsSelected(t.plan.selected, n) && t.after[n].err == Restart
  }

  /** The services whose action ran in this round and returned ErrRestart. */
  function AskedForRestart(t: Turn): set<Name> {
    set n | n in t.before && n in t.after && t.after[n].runs > t.before[n].runs && t.after[n].err == Restart
  }

  /** A wrapper made by `newServiceWrapper`. */
  const FRESH := Wrapper(1, Unknown, NoErr, {}, 0)

  /** `Reset`, when it succeeds. */
  function ResetOf(w: Wrapper): Wrapper {
    w.(err := if w.err == Restart then NoErr else w.err, done := w.done + 1)
  }

  /** The wrappers of the next round: all are reset, and the loaded names get new ones. */
  function Reloaded(ws: map<Name, Wrapper>, names: set<Name>): map<Name, Wrapper> {
    map n | n in ws.Keys + names :: if n in names then FRESH else ResetOf(ws[n])
  }

  /** Turn `i` starts from the wrappers that the previous one left behind. */
  ghost predicate Follows(run: seq<Turn>, loaded: seq<set<Name>>, i: nat)
    requires i < |run| == |loaded|
  {
    if i == 0 then run[i].before == Reloaded(map[], loaded[i])
    else Restarts(run[i - 1]) && run[i].before == Reloaded(run[i - 1].after, loaded[i])
  }

  /** Turns that follow each other as in one call of `traverse`; `loaded[i]` are the names that
      got a new wrapper at the start of turn `i`. */
  ghost predicate IsTraversal(run: seq<Turn>, loaded: seq<set<Name>>) {
    && |run| == |loaded|
    && (forall i :: 0 <= i < |run| ==> Completed(run[i]))
    && (forall i :: 0 <= i < |run| ==> Follows(run, loaded, i))
  }

  // ---------- What a completed round does to each wrapper ----------

  /** What holds of a wrapper at the start of every round: its WaitGroup counts one, and its
      action ran at most once, and only if it is executed. */
  ghost predicate Sane(w: Wrapper) {
    w.done == 1 && w.err != Restart && w.runs <= 1 && (w.runs == 1 ==> w.state == Executed)
  }

  ghost predicate AllSane(ws: map<Name, Wrapper>) {
    forall n <- ws :: Sane(ws[n])
  }

  /** `b` before and `a` after a round: the counter is back at zero, an executed wrapper keeps
      its result, and one that did not get to run ended in ErrRestart. */
  ghost predicate TookTurn(b: Wrapper, a: Wrapper) {
    && a.done == 0
    && (b.state == Executed ==> a.state == Executed && a.runs == b.runs && a.err == b.err)
    && (b.state == Unknown && a.state == Executed ==> a.runs <= b.runs + 1)
    && (a.state == Unknown ==> a.runs == b.runs && a.err == Restart)
  }

  ghost predicate Behaves(t: Turn) {
    && t.after.Keys == t.before.Keys
    && (forall n <- t.before :: TookTurn(t.before[n], t.after[n]))
    && (Restarts(t) ==> AskedForRestart(t) != {})
  }

  lemma AfterAt(t: Turn, n: Name)
    requires Completed(t) && AllSane(t.before) && n in t.before
    ensures var ws := Started(t.g, t.failing, t.order, t.before);
      && Ready(t.plan, ws) && n in t.plan.log && t.after.Keys == ws.Keys
      && ws[n] == t.before[n].(ignored := ws[n].ignored) && t.after[n].ignored == ws[n].ignored
      && t.after[n] == AfterTurn(t.plan, ws[n], n, Blocked(t.plan, t.after, n))
  {
    assert Armed(t.before);
    LaunchOrder(t.g, t.failing, t.order);
    WalkMakesReady(t.g, t.failing, t.order, t.before, t.plan);
    FinalOf(t.plan, Started(t.g, t.failing, t.order, t.before), n);
  }

  /** A round that leads to a restart contains an action that returned ErrRestart. */
  lemma RestartNeedsAction(t: Turn)
    requires Completed(t) && AllSane(t.before) && Restarts(t)
    ensures AskedForRestart(t) != {}
  {
    var n :| n in t.after && IsSelected(t.plan.selected, n) && t.after[n].err == Restart;
    assert n in t.before;
    AfterAt(t, n);
    var i :| 0 <= i < |t.plan.log| && t.plan.log[i] == n;
    FirstRestart(t, i);
  }

  lemma {:induction false} FirstRestart(t: Turn, i: nat)
    requires Completed(t) && AllSane(t.before)
    requires i < |t.plan.log| && t.plan.log[i] in t.before && t.plan.log[i] in t.after
    requires t.after[t.plan.log[i]].err == Restart
    ensures AskedForRestart(t) != {}
    decreases i
  {
    var n := t.plan.log[i];
    AfterAt(t, n);
    if Blocked(t.plan, t.after, n) {
      var d :| d in t.plan.waits[n] && Waits(t.after, n, d) && t.after[d].err == Restart;
      assert Waits(Started(t.g, t.failing, t.order, t.before), n, d);
      var j :| 0 <= j < i && t.plan.log[j] == d;
      FirstRestart(t, j);
    } else {
      assert n in AskedForRestart(t);
    }
  }

  lemma CompletedBehaves(t: Turn)
    requires Completed(t) && AllSane(t.before)
    ensures Behaves(t)
  {
    forall n <- t.before
      ensures TookTurn(t.before[n], t.after[n])
    {
      AfterAt(t, n);
    }
    if Restarts(t) {
      RestartNeedsAction(t);
    }
  }

  // ---------- Across the rounds ----------

  /** The state of a whole run between two rounds. */
  lemma {:induction false} SaneSoFar(run: seq<Turn>, loaded: seq<set<Name>>, i: nat)
    requires IsTraversal(run, loaded) && i < |run|
    ensures AllSane(run[i].before) && Behaves(run[i])
  {
    hide Completed;
    var t, names := run[i], loaded[i];
    assert Completed(t);
    if i == 0 {
      assert Follows(run, loaded, 0);
      FreshIsSane(t, names);
    } else {
      var prev := run[i - 1];
      assert t.before == Reloaded(prev.after, names) by { assert Follows(run, loaded, i); }
      assert AllSane(prev.before) && Behaves(prev) by { SaneSoFar(run, loaded, i - 1); }
      SaneNext(prev, t, names);
    }
  }

  lemma FreshIsSane(t: Turn, names: set<Name>)
    requires Completed(t) && t.before == Reloaded(map[], names)
    ensures AllSane(t.before) && Behaves(t)
  {
    assert AllSane(t.before);
    CompletedBehaves(t);
  }

  lemma SaneNext(prev: Turn, t: Turn, names: set<Name>)
    requires AllSane(prev.before) && Behaves(prev)
    requires Completed(t) && t.before == Reloaded(prev.after, names)
    ensures AllSane(t.before) && Behaves(t)
  {
    ReloadIsSane(prev, names);
    CompletedBehaves(t);
  }

  /** Across all rounds of a run: every counter is 1 when a round starts and 0 when it ends (so
      `Reset` only ever adds to 0), every wrapper instance runs its action at most once, and
      `executed` never reverts. */
  lemma AlwaysBalanced(run: seq<Turn>, loaded: seq<set<Name>>, i: nat, n: Name)
    requires IsTraversal(run, loaded) && i < |run| && n in run[i].before
    ensures run[i].before[n].done == 1 && n in run[i].after && run[i].after[n].done == 0
    ensures run[i].before[n].runs <= run[i].after[n].runs <= 1
    ensures run[i].after[n].runs == 1 || run[i].before[n].state == Executed ==> run[i].after[n].state == Executed
    ensures i + 1 < |run| && n !in loaded[i + 1] ==>
      && n in run[i + 1].before && run[i + 1].before[n].runs == run[i].after[n].runs
      && run[i + 1].before[n].state == run[i].after[n].state
  {
    SaneSoFar(run, loaded, i);
    var b, a := run[i].before[n], run[i].after[n];
    assert Sane(b) && TookTurn(b, a);
    assert i + 1 < |run| ==> Follows(run, loaded, i + 1);
  }

  /** The same at every moment of every interleaving of every round: the counter is 0 or 1, the
      action of a wrapper instance has run at most once, and it never reverts from executed. */
  lemma BalancedThroughout(run: seq<Turn>, loaded: seq<set<Name>>, k: nat, tr: seq<Snapshot>, schedule: seq<Thread>, i: nat, n: Name)
    requires IsTraversal(run, loaded) && k < |run| && n in run[k].before
    requires IsRun(run[k].plan, Started(run[k].g, run[k].failing, run[k].order, run[k].before), tr, schedule) && i < |tr|
    ensures n in tr[i].ws && 0 <= tr[i].ws[n].done <= 1 && tr[i].ws[n].runs <= 1
    ensures run[k].before[n].state == Executed || tr[i].ws[n].runs == 1 ==> tr[i].ws[n].state == Executed
  {
    var t := run[k];
    SaneSoFar(run, loaded, k);
    assert Sane(t.before[n]) && Completed(t);
    WalkMakesReady(t.g, t.failing, t.order, t.before, t.plan);
    AtMostOnce(t.plan, Started(t.g, t.failing, t.order, t.before), tr, schedule, i, n);
  }

  lemma ReloadIsSane(t: Turn, names: set<Name>)
    requires AllSane(t.before) && Behaves(t)
    ensures AllSane(Reloaded(t.after, names))
  {
    forall n <- Reloaded(t.after, names)
      ensures Sane(Reloaded(t.after, names)[n])
    {
      if n !in names {
        assert Sane(t.before[n]) && TookTurn(t.before[n], t.after[n]);
      }
    }
  }

  /** What the lemmas on whole runs use of a traversal. */
  ghost predicate Traced(run: seq<Turn>, loaded: seq<set<Name>>) {
    && |run| == |loaded|
    && (forall i :: 0 <= i < |run| ==> AllSane(run[i].before) && Behaves(run[i]))
    && (forall i :: 0 <= i < |run| ==> Follows(run, loaded, i))
  }

  lemma TraversalTraced(run: seq<Turn>, loaded: seq<set<Name>>)
    requires IsTraversal(run, loaded)
    ensures Traced(run, loaded)
  {
    forall i | 0 <= i < |run|
      ensures AllSane(run[i].before) && Behaves(run[i])
    {
      SaneSoFar(run, loaded, i);
    }
  }

  /** A wrapper that is executed stays executed in all later rounds, and its action does not run
      again, until its name is reloaded. */
  lemma {:induction false} ExecutedStays(run: seq<Turn>, loaded: seq<set<Name>>, i: nat, j: nat, n: Name)
    requires Traced(run, loaded) && i < j < |run|
    requires n in run[i].after && run[i].after[n].state == Executed
    requires forall k :: i < k <= j ==> n !in loaded[k]
    ensures n in run[j].before && run[j].before[n].state == Executed
    ensures n in run[j].after && run[j].after[n].runs == run[j].before[n].runs && run[j].after[n].state == Executed
    decreases j
  {
    assert Follows(run, loaded, j);
    if i < j - 1 {
      ExecutedStays(run, loaded, i, j - 1, n);
    }
    assert TookTurn(run[j].before[n], run[j].after[n]);
  }

  /** All names whose action returned ErrRestart in the first `k` rounds. */
  function RestartedBefore(run: seq<Turn>, k: nat): set<Name>
    requires k <= |run|
  {
    if k == 0 then {} else RestartedBefore(run, k - 1) + AskedForRestart(run[k - 1])
  }

  /** Reloading never re-adds a name whose action has returned ErrRestart. */
  ghost predicate NeverReadds(run: seq<Turn>, loaded: seq<set<Name>>) {
    |run| == |loaded| && forall i :: 0 < i < |run| ==> loaded[i] !! RestartedBefore(run, i)
  }

  lemma {:induction false} RestartedBeforePrefix(run: seq<Turn>, t: Turn, k: nat)
    requires k <= |run|
    ensures RestartedBefore(run + [t], k) == RestartedBefore(run, k)
  {
    if k > 0 {
      RestartedBeforePrefix(run, t, k - 1);
    }
  }

  /** Whatever is loaded, the next round starts with sane wrappers. */
  lemma NextIsSane(run: seq<Turn>, loaded: seq<set<Name>>, names: set<Name>)
    requires IsTraversal(run, loaded)
    ensures AllSane(Reloaded(if run == [] then map[] else run[|run| - 1].after, names))
  {
    hide Completed;
    if run != [] {
      SaneSoFar(run, loaded, |run| - 1);
      ReloadIsSane(run[|run| - 1], names);
    }
  }

  /** One more round, from the wrappers that the last one left behind. */
  lemma AddTurn(run: seq<Turn>, loaded: seq<set<Name>>, t: Turn, names: set<Name>)
    requires IsTraversal(run, loaded) && NeverReadds(run, loaded) && Completed(t)
    requires t.before == Reloaded(if run == [] then map[] else run[|run| - 1].after, names)
    requires run != [] ==> Restarts(run[|run| - 1]) && names !! RestartedBefore(run, |run|)
    ensures IsTraversal(run + [t], loaded + [names]) && NeverReadds(run + [t], loaded + [names])
    ensures RestartedBefore(run + [t], |run| + 1) == RestartedBefore(run, |run|) + AskedForRestart(t)
  {
    hide Completed, AskedForRestart, Restarts, Reloaded, RestartedBefore;
    var run', loaded' := run + [t], loaded + [names];
    forall i | 0 <= i < |run'|
      ensures Follows(run', loaded', i)
    {
      assert i < |run| ==> Follows(run, loaded, i);
    }
    forall i: nat | i <= |run|
      ensures RestartedBefore(run', i) == RestartedBefore(run, i)
    {
      RestartedBeforePrefix(run, t, i);
    }
    RestartedBeforeNext(run', |run|);
  }

  lemma RestartedBeforeNext(run: seq<Turn>, k: nat)
    requires k < |run|
    ensures RestartedBefore(run, k + 1) == RestartedBefore(run, k) + AskedForRestart(run[k])
  {
  }

  lemma {:induction false} RestartedWhen(run: seq<Turn>, k: nat, n: Name) returns (i: nat)
    requires k <= |run| && n in RestartedBefore(run, k)
    ensures i < k && n in AskedForRestart(run[i])
    ensures forall j :: i < j <= k ==> n in RestartedBefore(run, j)
  {
    if n in AskedForRestart(run[k - 1]) {
      i := k - 1;
    } else {
      i := RestartedWhen(run, k - 1, n);
    }
  }

  /** A name that asked for a restart does not ask again. */
  lemma AsksOnce(run: seq<Turn>, loaded: seq<set<Name>>, k: nat, n: Name)
    requires Traced(run, loaded) && NeverReadds(run, loaded) && k < |run|
    requires n in AskedForRestart(run[k])
    ensures n !in RestartedBefore(run, k)
  {
    if n in RestartedBefore(run, k) {
      var i := RestartedWhen(run, k, n);
      assert TookTurn(run[i].before[n], run[i].after[n]);
      assert run[i].after[n].state == Executed;
      ExecutedStays(run, loaded, i, k, n);
    }
  }

  lemma {:induction false} RestartsGrow(run: seq<Turn>, loaded: seq<set<Name>>, names: set<Name>, k: nat)
    requires Traced(run, loaded) && NeverReadds(run, loaded) && k < |run|
    requires forall i, n :: 0 <= i < |run| && n in run[i].before ==> n in names
    ensures RestartedBefore(run, k) <= names && |RestartedBefore(run, k)| >= k
  {
    if k > 0 {
      RestartsGrow(run, loaded, names, k - 1);
      assert Follows(run, loaded, k) && Behaves(run[k - 1]);
      var n :| n in AskedForRestart(run[k - 1]);
      AsksOnce(run, loaded, k - 1, n);
      assert RestartedBefore(run, k - 1) + {n} <= RestartedBefore(run, k);
      Bigger(RestartedBefore(run, k - 1) + {n}, RestartedBefore(run, k));
    }
  }

  lemma {:induction false} Bigger(a: set<Name>, b: set<Name>)
    requires a <= b
    ensures |a| <= |b|
    decreases |a|
  {
    if x :| x in a {
      Bigger(a - {x}, b - {x});
    }
  }

  /** Restart termination: over a finite set of names, a run in which reloading never re-adds a
      name that asked for a restart has at most one round more than there are names. */
  lemma RestartsTerminate(run: seq<Turn>, loaded: seq<set<Name>>, names: set<Name>)
    requires IsTraversal(run, loaded) && NeverReadds(run, loaded)
    requires forall i, n :: 0 <= i < |run| && n in run[i].before ==> n in names
    ensures |run| <= |names| + 1
  {
    TraversalTraced(run, loaded);
    TracedTerminates(run, loaded, names);
  }

  lemma TracedTerminates(run: seq<Turn>, loaded: seq<set<Name>>, names: set<Name>)
    requires Traced(run, loaded) && NeverReadds(run, loaded)
    requires forall i, n :: 0 <= i < |run| && n in run[i].before ==> n in names
    ensures |run| <= |names| + 1
  {
    if run != [] {
      RestartsGrow(run, loaded, names, |run| - 1);
      Bigger(RestartedBefore(run, |run| - 1), names);
    }
  }

  /** When no restart is due after a run, every selected service has been executed. */
  lemma NormalEnd(run: seq<Turn>, loaded: seq<set<Name>>, n: Name)
    requires IsTraversal(run, loaded) && run != [] && !Restarts(run[|run| - 1])
    requires n in run[|run| - 1].before && IsSelected(run[|run| - 1].plan.selected, n)
    ensures n in run[|run| - 1].after && run[|run| - 1].after[n].state == Executed
  {
    hide Completed;
    var t := run[|run| - 1];
    SaneSoFar(run, loaded, |run| - 1);
    assert TookTurn(t.before[n], t.after[n]);
  }

  // ---------- Which edges are ignored over a whole run ----------

  /** The wrappers after the rounds of `run`. */
  function LastViews(run: seq<Turn>): map<Name, Wrapper> {
    if run == [] then map[] else run[|run| - 1].after
  }

  /** The walk of this round ignored the edge. */
  ghost predicate BrokenIn(t: Turn, n: Name, d: Name) {
    Covers(t.g, t.order) && BrokenBy(t.g, t.failing, t.order, n, d)
  }

  /** Round `j` broke the edge, and `n` has not been loaded anew in the rounds after it up to `k`. */
  ghost predicate BrokenSince(run: seq<Turn>, loaded: seq<set<Name>>, j: nat, k: nat, n: Name, d: Name) {
    j < k <= |run| == |loaded| && BrokenIn(run[j], n, d) && forall i :: j < i < k ==> n !in loaded[i]
  }

  lemma IgnoredInTurn(t: Turn, n: Name, d: Name)
    requires Completed(t) && AllSane(t.before) && n in t.before && n in t.after && d in t.after[n].ignored
    ensures d in t.before[n].ignored || BrokenIn(t, n, d)
  {
    AfterAt(t, n);
    IgnoredTargetsAre(WalkAll(t.g, t.failing, START, t.order).t.broken, n, d);
    LaunchOrder(t.g, t.failing, t.order);
  }

  lemma {:induction false} IgnoredSince(run: seq<Turn>, loaded: seq<set<Name>>, k: nat, n: Name, d: Name) returns (j: nat)
    requires IsTraversal(run, loaded) && k < |run| && n in run[k].after && d in run[k].after[n].ignored
    ensures BrokenSince(run, loaded, j, k + 1, n, d)
  {
    hide Completed, BrokenIn;
    assert Completed(run[k]) && Follows(run, loaded, k);
    SaneSoFar(run, loaded, k);
    IgnoredInTurn(run[k], n, d);
    if BrokenIn(run[k], n, d) {
      j := k;
    } else {
      assert k > 0 && n !in loaded[k];
      j := IgnoredSince(run, loaded, k - 1, n, d);
    }
  }

  /** Whatever a wrapper ignores when a round starts was broken, as an optional edge back to the
      path, by the walk of an earlier round, and the wrapper has been kept since. */
  lemma IgnoredWasBroken(run: seq<Turn>, loaded: seq<set<Name>>, names: set<Name>, n: Name, d: Name) returns (j: nat)
    requires IsTraversal(run, loaded) && n in Reloaded(LastViews(run), names) && d in Reloaded(LastViews(run), names)[n].ignored
    ensures n !in names && BrokenSince(run, loaded, j, |run|, n, d)
  {
    j := IgnoredSince(run, loaded, |run| - 1, n, d);
  }

  /** What a walk broke stays ignored until the name is loaded anew. */
  lemma {:induction false} StaysIgnored(run: seq<Turn>, loaded: seq<set<Name>>, j: nat, k: nat, n: Name, d: Name)
    requires IsTraversal(run, loaded) && k < |run| && BrokenSince(run, loaded, j, k + 1, n, d)
    ensures n in run[k].after && d in run[k].after[n].ignored
    decreases k
  {
    hide Completed;
    assert Completed(run[k]) && Follows(run, loaded, k);
    SaneSoFar(run, loaded, k);
    if k == j {
      BrokenIsIgnored(run[k], n, d);
    } else {
      StaysIgnored(run, loaded, j, k - 1, n, d);
      KeepsIgnored(run[k], n);
    }
  }

  lemma BrokenIsIgnored(t: Turn, n: Name, d: Name)
    requires Completed(t) && AllSane(t.before) && BrokenIn(t, n, d)
    ensures n in t.after && d in t.after[n].ignored
  {
    AfterAt(t, n);
    IgnoredTargetsAre(WalkAll(t.g, t.failing, START, t.order).t.broken, n, d);
  }

  lemma KeepsIgnored(t: Turn, n: Name)
    requires Completed(t) && AllSane(t.before) && n in t.before
    ensures n in t.after && t.before[n].ignored <= t.after[n].ignored
  {
    AfterAt(t, n);
  }

  /** Which targets a wrapper ignores when a round starts: exactly those of the edges that a walk
      broke since it was loaded. */
  lemma IgnoredIffBroken(run: seq<Turn>, loaded: seq<set<Name>>, names: set<Name>, n: Name, d: Name)
    requires IsTraversal(run, loaded) && n in Reloaded(LastViews(run), names)
    ensures d in Reloaded(LastViews(run), names)[n].ignored
       <==> n !in names && exists j :: BrokenSince(run, loaded, j, |run|, n, d)
  {
    hide IsTraversal, BrokenSince;
    if d in Reloaded(LastViews(run), names)[n].ignored {
      var j := IgnoredWasBroken(run, loaded, names, n, d);
    }
    if j :| n !in names && BrokenSince(run, loaded, j, |run|, n, d) {
      SinceIsEarlier(run, loaded, j, n, d);
      StaysIgnored(run, loaded, j, |run| - 1, n, d);
    }
  }

  lemma SinceIsEarlier(run: seq<Turn>, loaded: seq<set<Name>>, j: nat, n: Name, d: Name)
    requires BrokenSince(run, loaded, j, |run|, n, d)
    ensures j < |run|
  {
  }

  /** Which loaded targets a service waits for in a round: exactly those whose edge no walk broke,
      neither the one of this round nor one since the service was loaded. */
  lemma WaitsIff(run: seq<Turn>, loaded: seq<set<Name>>, names: set<Name>,
                 g: Graph, failing: set<nat>, order: seq<Name>, p: Plan, n: Name, d: Name)
    requires IsTraversal(run, loaded) && Planned(g, failing, order, Reloaded(LastViews(run), names), p)
    requires n in g && d in g
    ensures Waits(Started(g, failing, order, Reloaded(LastViews(run), names)), n, d)
       <==> !BrokenBy(g, failing, order, n, d) && !(n !in names && exists j :: BrokenSince(run, loaded, j, |run|, n, d))
  {
    hide IsTraversal, BrokenSince, Ignored, WalkAll;
    IgnoredIffBroken(run, loaded, names, n, d);
    IgnoredTargetsAre(WalkAll(g, failing, START, order).t.broken, n, d);
    IgnoredIsBroken(g, failing, order, n, d);
  }

  lemma IgnoredIsBroken(g: Graph, failing: set<nat>, order: seq<Name>, n: Name, d: Name)
    requires Covers(g, order)
    ensures BrokenBy(g, failing, order, n, d) <==> Ignored(WalkAll(g, failing, START, order).t.broken, n, d)
  {
    LaunchOrder(g, failing, order);
  }

  /** Ordering in any round that follows a run of rounds, also in one whose walk fails part way:
      an action only runs after every loaded dependency is done or Ignored, unless a walk broke
      the edge: the one of this round, or one since the service was loaded. */
  lemma OrderedInEveryRound(run: seq<Turn>, loaded: seq<set<Name>>, names: set<Name>,
                            g: Graph, failing: set<nat>, order: seq<Name>, p: Plan,
                            tr: seq<Snapshot>, schedule: seq<Thread>, i: nat, b: Name, rel: Rel)
    requires IsTraversal(run, loaded) && p.ordered
    requires Planned(g, failing, order, Reloaded(LastViews(run), names), p)
    requires IsRun(p, Started(g, failing, order, Reloaded(LastViews(run), names)), tr, schedule) && i < |tr|
    requires b in g && rel in g[b] && rel.target in g
    requires b in tr[i].ws && tr[i].ws[b].runs > Reloaded(LastViews(run), names)[b].runs
    ensures IsDone(tr[i], rel.target) || BrokenBy(g, failing, order, b, rel.target)
      || (b !in names && exists j :: BrokenSince(run, loaded, j, |run|, b, rel.target))
  {
    hide IsTraversal, Planned, IsRun, BrokenBy, BrokenSince;
    var ws := Reloaded(LastViews(run), names);
    NextIsSane(run, loaded, names);
    PlannedKeys(g, failing, order, ws, p);
    RunsAfterDependency(g, failing, order, ws, p, tr, schedule, i, b, rel);
    if rel.target in ws[b].ignored {
      var j := IgnoredWasBroken(run, loaded, names, b, rel.target);
    }
  }

  lemma PlannedKeys(g: Graph, failing: set<nat>, order: seq<Name>, ws: map<Name, Wrapper>, p: Plan)
    requires Planned(g, failing, order, ws, p)
    ensures g.Keys == ws.Keys && Covers(g, order)
  {
  }

  // ---------- What `traverse` carries from round to round ----------

  /** The rounds so far, the names that have asked for a restart and the wrappers. */
  ghost predicate History(names: set<Name>, run: seq<Turn>, loaded: seq<set<Name>>, asked: set<Name>, views: map<Name, Wrapper>) {
    && IsTraversal(run, loaded) && NeverReadds(run, loaded)
    && (forall i, n :: 0 <= i < |run| && n in run[i].before ==> n in names)
    && asked == RestartedBefore(run, |run|)
    && views == LastViews(run)
  }

  lemma HistoryNext(names: set<Name>, run: seq<Turn>, loaded: seq<set<Name>>, asked: set<Name>, views: map<Name, Wrapper>,
                    t: Turn, added: set<Name>)
    requires History(names, run, loaded, asked, views) && Completed(t)
    requires t.before == Reloaded(views, added) && added <= names
    requires run != [] ==> Restarts(run[|run| - 1]) && added !! asked
    ensures History(names, run + [t], loaded + [added], asked + AskedForRestart(t), t.after)
    ensures |run| <= |names|
  {
    hide Completed, IsTraversal, Restarts;
    if run != [] {
      KeysStay(run, loaded, names);
    }
    AddTurn(run, loaded, t, added);
    RestartsTerminate(run + [t], loaded + [added], names);
  }

  lemma KeysStay(run: seq<Turn>, loaded: seq<set<Name>>, names: set<Name>)
    requires IsTraversal(run, loaded) && run != []
    ensures LastViews(run).Keys == run[|run| - 1].before.Keys
  {
    SaneSoFar(run, loaded, |run| - 1);
  }

  lemma HistoryIs(names: set<Name>, run: seq<Turn>, loaded: seq<set<Name>>, asked: set<Name>, views: map<Name, Wrapper>)
    requires History(names, run, loaded, asked, views)
    ensures IsTraversal(run, loaded) && views == LastViews(run)
  {
  }

  /** The wrappers that the next round starts with. */
  lemma HistoryArmed(names: set<Name>, run: seq<Turn>, loaded: seq<set<Name>>, asked: set<Name>, views: map<Name, Wrapper>, added: set<Name>)
    requires History(names, run, loaded, asked, views)
    ensures Armed(Reloaded(views, added))
  {
    NextIsSane(run, loaded, added);
  }

  ghost predicate RestartFound(views: map<Name, Wrapper>, selected: set<Name>) {
    exists n <- views :: IsSelected(selected, n) && views[n].err == Restart
  }

  /** After the last round. */
  lemma HistoryEnds(names: set<Name>, run: seq<Turn>, loaded: seq<set<Name>>, asked: set<Name>, views: map<Name, Wrapper>, selected: set<Name>)
    requires History(names, run, loaded, asked, views) && run != [] && run[|run| - 1].plan.selected == selected
    requires !RestartFound(views, selected)
    ensures !Restarts(run[|run| - 1])
    ensures forall n <- views :: IsSelected(selected, n) ==> views[n].state == Executed && views[n].err != Restart
  {
    KeysStay(run, loaded, names);
    forall n <- views | IsSelected(selected, n)
      ensures views[n].state == Executed && views[n].err != Restart
    {
      NormalEnd(run, loaded, n);
    }
  }
}
