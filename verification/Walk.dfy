/** The dependency walk of `Project.startService`: a depth-first traversal that decides in
    which order services are launched, which optional edges are ignored, and which cycles
    are errors. */
module Walk {

  type Name = string

  /** One entry of `DependentServices`: an edge to `target`, required unless `optional`. */
  datatype Rel = Rel(target: Name, optional: bool)

  /** The loaded wrappers, each with the relationships its service reports. */
  type Graph = map<Name, seq<Rel>>

  datatype Failure =
    | Cycle(path: seq<Name>)          // "Cycle detected in path ..."
    | CycleAction(path: seq<Name>)    // the cycle action of an ignored cycle failed

  /** What the walk has done so far: the names marked as launched, the cycle paths broken by
      `IgnoreDep`, and the names whose goroutine was launched (or which were ignored because
      they are not selected), in that order. */
  datatype Trail = Trail(launched: set<Name>, broken: seq<seq<Name>>, log: seq<Name>)

  datatype Walked = Done(t: Trail) | Failed(t: Trail, why: Failure)

  const START := Trail({}, [], [])

  /** `startService` for the wrapper `w`. `failing` holds the ordinals of the cycle actions
      that return an error. */
  function StartService(g: Graph, failing: set<nat>, history: seq<Name>, t: Trail, w: Name): (r: Walked)
    requires w in g
    ensures t.launched <= r.t.launched
    decreases g.Keys - t.launched, 0
  {
    if w in t.launched then Done(t)
    else
      var r := VisitDeps(g, failing, history + [w], t.(launched := t.launched + {w}), g[w]);
      if r.Failed? then r else Done(r.t.(log := r.t.log + [w]))
  }

  /** The loop of `startService` over the dependencies that are still to be looked at. */
  function VisitDeps(g: Graph, failing: set<nat>, history: seq<Name>, t: Trail, rels: seq<Rel>): (r: Walked)
    ensures t.launched <= r.t.launched
    decreases g.Keys - t.launched, 1 + |rels|
  {
    if rels == [] then Done(t)
    else
      var target := rels[0].target;
      if target !in g then
        VisitDeps(g, failing, history, t, rels[1..])
      else if target in history then
        var path := history + [target];
        if !rels[0].optional then Failed(t, Cycle(path))
        else
          var t' := t.(broken := t.broken + [path]);
          if |t.broken| in failing then Failed(t', CycleAction(path))
          else VisitDeps(g, failing, history, t', rels[1..])
      else
        var r := StartService(g, failing, history, t, target);
        if r.Failed? then r else VisitDeps(g, failing, history, r.t, rels[1..])
  }

  /** The loop of `traverse` that starts every wrapper, in the iteration order `order`. */
  function WalkAll(g: Graph, failing: set<nat>, t: Trail, order: seq<Name>): (r: Walked)
    requires forall n <- order :: n in g
    decreases |order|
  {
    if order == [] then Done(t)
    else
      var r := StartService(g, failing, [], t, order[0]);
      if r.Failed? then r else WalkAll(g, failing, r.t, order[1..])
  }

  // ---------- Vocabulary of the properties ----------

  ghost predicate Distinct(s: seq<Name>) {
    forall i, j :: 0 <= i < j < |s| ==> s[i] != s[j]
  }

  ghost predicate HasEdge(g: Graph, a: Name, b: Name) {
    a in g && b in g && exists rel <- g[a] :: rel.target == b
  }

  ghost predicate HasRequiredEdge(g: Graph, a: Name, b: Name) {
    a in g && b in g && Rel(b, false) in g[a]
  }

  ghost predicate HasOptionalEdge(g: Graph, a: Name, b: Name) {
    a in g && b in g && Rel(b, true) in g[a]
  }

  ghost predicate IsPath(g: Graph, p: seq<Name>) {
    forall i :: 0 <= i < |p| - 1 ==> HasEdge(g, p[i], p[i + 1])
  }

  ghost predicate IsRequiredPath(g: Graph, p: seq<Name>) {
    forall i :: 0 <= i < |p| - 1 ==> HasRequiredEdge(g, p[i], p[i + 1])
  }

  /** A path that comes back, with its last edge, to a name it visited before. */
  ghost predicate ClosesCycle(g: Graph, p: seq<Name>) {
    |p| >= 2 && IsPath(g, p) && Distinct(p[..|p| - 1]) && p[|p| - 1] in p[..|p| - 1]
  }

  /** The edge a->b was ignored as the last edge of one of the broken cycles. */
  ghost predicate Ignored(broken: seq<seq<Name>>, a: Name, b: Name) {
    exists p <- broken :: |p| >= 2 && p[|p| - 2] == a && p[|p| - 1] == b
  }

  /** Where the dependency `rel` of a name stands relative to the names `before` it. */
  ghost predicate Settled(g: Graph, broken: seq<seq<Name>>, before: seq<Name>, w: Name, rel: Rel) {
    rel.target in g ==> rel.target in before || (rel.optional && Ignored(broken, w, rel.target))
  }

  /** Every loaded dependency was handled earlier, unless it is an ignored optional edge. */
  ghost predicate Topological(g: Graph, t: Trail) {
    && (forall n <- t.log :: n in g)
    && forall i, rel :: 0 <= i < |t.log| && rel in g[t.log[i]] ==> Settled(g, t.broken, t.log[..i], t.log[i], rel)
  }

  /** Every ignored edge is an optional edge to a name on the history path of that moment. */
  ghost predicate BrokenAreOptional(g: Graph, broken: seq<seq<Name>>) {
    forall p <- broken :: ClosesCycle(g, p) && HasOptionalEdge(g, p[|p| - 2], p[|p| - 1])
  }

  /** What holds of the trail at all times, also after an error. */
  ghost predicate Sound(g: Graph, t: Trail) {
    Distinct(t.log) && Topological(g, t) && BrokenAreOptional(g, t.broken)
  }

  /** What holds whenever `startService` is entered or left normally: the launched names are
      the finished ones and those on the current path. */
  ghost predicate Inv(g: Graph, t: Trail, history: seq<Name>) {
    && Sound(g, t)
    && Distinct(history)
    && IsPath(g, history)
    && (forall n <- history :: n in g && n !in t.log)
    && (forall n :: n in t.launched <==> n in t.log || n in history)
    && (forall p <- t.broken, n <- p :: n in t.launched)
  }

  ghost predicate Extends(t: Trail, t': Trail) {
    t.log <= t'.log && t.broken <= t'.broken
  }

  ghost predicate GoodFailure(g: Graph, why: Failure) {
    ClosesCycle(g, why.path) &&
    match why
    case Cycle(p) => HasRequiredEdge(g, p[|p| - 2], p[|p| - 1])
    case CycleAction(p) => HasOptionalEdge(g, p[|p| - 2], p[|p| - 1])
  }

  // ---------- The walk keeps the invariant ----------

  lemma IgnoredGrows(broken: seq<seq<Name>>, broken': seq<seq<Name>>)
    requires broken <= broken'
    ensures forall a, b :: Ignored(broken, a, b) ==> Ignored(broken', a, b)
  {
  }

  /** Entering `w` extends the path. */
  lemma Enter(g: Graph, t: Trail, history: seq<Name>, w: Name)
    requires Inv(g, t, history) && w in g && w !in t.launched
    requires history != [] ==> HasEdge(g, history[|history| - 1], w)
    ensures Inv(g, t.(launched := t.launched + {w}), history + [w])
  {
  }

  /** Leaving `w` with all its dependencies settled moves it from the path to the log. */
  lemma Leave(g: Graph, t: Trail, history: seq<Name>, w: Name)
    requires Inv(g, t, history + [w])
    requires forall rel <- g[w] :: Settled(g, t.broken, t.log, w, rel)
    ensures Inv(g, t.(log := t.log + [w]), history)
  {
    var t', h := t.(log := t.log + [w]), history + [w];
    forall i, rel | 0 <= i < |t'.log| && rel in g[t'.log[i]]
      ensures Settled(g, t'.broken, t'.log[..i], t'.log[i], rel)
    {
      assert t'.log[..i] == t.log[..i];
      assert t.log[..|t.log|] == t.log;
    }
    assert h[|history|] == w && h[..|history|] == history;
    assert w in h;
    assert forall i :: 0 <= i < |history| ==> history[i] == h[i];
    assert IsPath(g, history) && Distinct(history);
  }

  lemma TopologicalGrows(g: Graph, t: Trail, broken: seq<seq<Name>>)
    requires Topological(g, t) && t.broken <= broken
    ensures Topological(g, t.(broken := broken))
  {
    IgnoredGrows(t.broken, broken);
    forall i, rel | 0 <= i < |t.log| && rel in g[t.log[i]]
      ensures Settled(g, broken, t.log[..i], t.log[i], rel)
    {
      assert Settled(g, t.broken, t.log[..i], t.log[i], rel);
    }
  }

  lemma BreakSound(g: Graph, t: Trail, path: seq<Name>)
    requires Sound(g, t)
    requires ClosesCycle(g, path) && HasOptionalEdge(g, path[|path| - 2], path[|path| - 1])
    ensures var t' := t.(broken := t.broken + [path]);
      Sound(g, t') && Ignored(t'.broken, path[|path| - 2], path[|path| - 1])
  {
    var t' := t.(broken := t.broken + [path]);
    assert t'.broken[|t.broken|] == path;
    TopologicalGrows(g, t, t'.broken);
    assert forall p <- t'.broken :: p in t.broken || p == path;
  }

  /** Ignoring the optional edge from the end of the path back to `target`. */
  lemma Break(g: Graph, t: Trail, history: seq<Name>, target: Name)
    requires Inv(g, t, history) && target in history
    requires HasOptionalEdge(g, history[|history| - 1], target)
    ensures var t' := t.(broken := t.broken + [history + [target]]);
      Inv(g, t', history) && Ignored(t'.broken, history[|history| - 1], target)
  {
    BackEdge(g, history, target, Rel(target, true));
    BreakSound(g, t, history + [target]);
  }

  lemma BackEdge(g: Graph, history: seq<Name>, target: Name, rel: Rel)
    requires Distinct(history) && IsPath(g, history) && target in history && target in g
    requires history[|history| - 1] in g && rel in g[history[|history| - 1]] && rel.target == target
    ensures ClosesCycle(g, history + [target])
  {
    var path := history + [target];
    assert path[..|path| - 1] == history;
  }

  ghost predicate ServiceKept(g: Graph, history: seq<Name>, t: Trail, w: Name, r: Walked) {
    && Sound(g, r.t) && Extends(t, r.t)
    && (r.Failed? ==> GoodFailure(g, r.why))
    && (r.Done? ==> Inv(g, r.t, history) && w in r.t.log)
    && (r.Done? && w !in t.launched ==> r.t.log[|r.t.log| - 1] == w)
  }

  ghost predicate DepsKept(g: Graph, history: seq<Name>, t: Trail, rels: seq<Rel>, r: Walked) {
    && history != []
    && Sound(g, r.t) && Extends(t, r.t)
    && (r.Failed? ==> GoodFailure(g, r.why))
    && (r.Done? ==> Inv(g, r.t, history) &&
                    forall rel <- rels :: Settled(g, r.t.broken, r.t.log, history[|history| - 1], rel))
  }

  lemma {:induction false} StartServiceKeeps(g: Graph, failing: set<nat>, history: seq<Name>, t: Trail, w: Name)
    requires w in g && w !in history && Inv(g, t, history)
    requires history != [] ==> HasEdge(g, history[|history| - 1], w)
    ensures ServiceKept(g, history, t, w, StartService(g, failing, history, t, w))
    decreases g.Keys - t.launched, 0
  {
    if w !in t.launched {
      var t0 := t.(launched := t.launched + {w});
      Enter(g, t, history, w);
      VisitDepsKeeps(g, failing, history + [w], t0, g[w]);
      var r := VisitDeps(g, failing, history + [w], t0, g[w]);
      if r.Done? {
        Leave(g, r.t, history, w);
      }
    }
  }

  lemma {:induction false} VisitDepsKeeps(g: Graph, failing: set<nat>, history: seq<Name>, t: Trail, rels: seq<Rel>)
    requires history != [] && Inv(g, t, history)
    requires forall rel <- rels :: rel in g[history[|history| - 1]]
    ensures DepsKept(g, history, t, rels, VisitDeps(g, failing, history, t, rels))
    decreases g.Keys - t.launched, 1 + |rels|, 1
  {
    if rels != [] {
      var w, rel := history[|history| - 1], rels[0];
      var target := rel.target;
      assert rel in rels;
      if target !in g {
        VisitRestKeeps(g, failing, history, t, t, rels);
      } else if target in history {
        BackEdge(g, history, target, rel);
        if rel.optional {
          assert rel == Rel(target, true);
          Break(g, t, history, target);
          VisitRestKeeps(g, failing, history, t, t.(broken := t.broken + [history + [target]]), rels);
        } else {
          assert rel == Rel(target, false);
        }
      } else {
        StartServiceKeeps(g, failing, history, t, target);
        var r := StartService(g, failing, history, t, target);
        if r.Done? {
          VisitRestKeeps(g, failing, history, t, r.t, rels);
        }
      }
    }
  }

  /** Going on with the other dependencies from the trail `t1`, where the first is settled. */
  lemma {:induction false} VisitRestKeeps(g: Graph, failing: set<nat>, history: seq<Name>, t: Trail, t1: Trail, rels: seq<Rel>)
    requires history != [] && rels != [] && Inv(g, t1, history)
    requires Extends(t, t1) && t.launched <= t1.launched
    requires forall rel <- rels :: rel in g[history[|history| - 1]]
    requires Settled(g, t1.broken, t1.log, history[|history| - 1], rels[0])
    ensures DepsKept(g, history, t, rels, VisitDeps(g, failing, history, t1, rels[1..]))
    decreases g.Keys - t1.launched, 1 + |rels|, 0
  {
    assert forall rel <- rels[1..] :: rel in rels;
    VisitDepsKeeps(g, failing, history, t1, rels[1..]);
    var r := VisitDeps(g, failing, history, t1, rels[1..]);
    IgnoredGrows(t1.broken, r.t.broken);
    assert forall rel <- rels :: rel == rels[0] || rel in rels[1..];
  }

  // ---------- Results about every walk, for every iteration order ----------

  /** `order` is an iteration order of the wrapper map: it visits the loaded names and no others. */
  ghost predicate Covers(g: Graph, order: seq<Name>) {
    forall n :: n in g <==> n in order
  }

  lemma {:induction false} WalkAllKeeps(g: Graph, failing: set<nat>, t: Trail, order: seq<Name>)
    requires Inv(g, t, []) && forall n <- order :: n in g
    ensures var r := WalkAll(g, failing, t, order);
      && Sound(g, r.t) && Extends(t, r.t)
      && (r.Failed? ==> GoodFailure(g, r.why))
      && (r.Done? ==> Inv(g, r.t, []) && forall n <- order :: n in r.t.log)
    decreases |order|
  {
    if order != [] {
      StartServiceKeeps(g, failing, [], t, order[0]);
      var r := StartService(g, failing, [], t, order[0]);
      if r.Done? {
        WalkAllKeeps(g, failing, r.t, order[1..]);
        assert forall n <- order :: n == order[0] || n in order[1..];
      }
    }
  }

  /** The launch order is topological up to ignored optional back edges, whether or not the
      walk fails; a walk that succeeds launches every loaded name exactly once. */
  lemma LaunchOrder(g: Graph, failing: set<nat>, order: seq<Name>)
    requires Covers(g, order)
    ensures var r := WalkAll(g, failing, START, order);
      && Distinct(r.t.log) && Topological(g, r.t) && BrokenAreOptional(g, r.t.broken)
      && (r.Done? ==> Covers(g, r.t.log))
  {
    WalkAllKeeps(g, failing, START, order);
  }

  /** Every error is about a real path of loaded services that its last edge closes to a
      cycle: a required edge in a reported cycle; an optional one, the last that was ignored, when
      the cycle action run for it failed. */
  lemma ReportedCycle(g: Graph, failing: set<nat>, order: seq<Name>)
    requires Covers(g, order)
    ensures var r := WalkAll(g, failing, START, order);
      && (r.Failed? ==> GoodFailure(g, r.why))
      && (r.Failed? && r.why.CycleAction? ==> LastAction(failing, r.t, r.why.path))
  {
    WalkAllKeeps(g, failing, START, order);
    CycleActionFails(g, failing, START, order);
  }

  /** The last cycle that was ignored is `path`, and its action is one of those that fail. */
  predicate LastAction(failing: set<nat>, t: Trail, path: seq<Name>) {
    t.broken != [] && t.broken[|t.broken| - 1] == path && |t.broken| - 1 in failing
  }

  /** Some iteration order makes the walk return this error, which is about a real cycle. */
  ghost predicate FailsWith(g: Graph, failing: set<nat>, why: Failure) {
    GoodFailure(g, why) && exists order :: Covers(g, order) && ReturnsError(WalkAll(g, failing, START, order), failing, why)
  }

  /** A cycle action that is said to have failed is one that fails, for the cycle ignored last. */
  ghost predicate ReturnsError(r: Walked, failing: set<nat>, why: Failure) {
    r.Failed? && r.why == why && (why.CycleAction? ==> LastAction(failing, r.t, why.path))
  }

  lemma WalkFails(g: Graph, failing: set<nat>, order: seq<Name>)
    requires Covers(g, order) && WalkAll(g, failing, START, order).Failed?
    ensures FailsWith(g, failing, WalkAll(g, failing, START, order).why)
  {
    ReportedCycle(g, failing, order);
    assert ReturnsError(WalkAll(g, failing, START, order), failing, WalkAll(g, failing, START, order).why);
  }

  lemma {:induction false} WalkAllThen(g: Graph, failing: set<nat>, t: Trail, order: seq<Name>, more: seq<Name>)
    requires forall n <- order :: n in g
    requires forall n <- more :: n in g
    ensures forall n <- order + more :: n in g
    ensures var r := WalkAll(g, failing, t, order);
      WalkAll(g, failing, t, order + more) == if r.Failed? then r else WalkAll(g, failing, r.t, more)
    decreases |order|
  {
    if order == [] {
      assert order + more == more;
    } else {
      assert (order + more)[1..] == order[1..] + more;
      var r := StartService(g, failing, [], t, order[0]);
      if r.Done? {
        WalkAllThen(g, failing, r.t, order[1..], more);
      }
    }
  }

  // ---------- Which cycles make `traverse` fail ----------

  ghost predicate IsCycle(p: seq<Name>) {
    |p| >= 2 && p[0] == p[|p| - 1]
  }

  ghost predicate RequiredCycle(g: Graph, p: seq<Name>) {
    IsCycle(p) && IsRequiredPath(g, p)
  }

  /** A cycle whose edge number `k` is required; the other edges may be optional. */
  ghost predicate CycleWithRequiredEdge(g: Graph, p: seq<Name>, k: nat) {
    IsCycle(p) && IsPath(g, p) && k < |p| - 1 && HasRequiredEdge(g, p[k], p[k + 1])
  }

  /** Along required edges the launch order strictly goes back. */
  lemma {:induction false} RequiredPathDescends(g: Graph, t: Trail, p: seq<Name>, i: nat) returns (j: nat)
    requires Sound(g, t) && p != [] && IsRequiredPath(g, p)
    requires i < |t.log| && t.log[i] == p[0]
    ensures j <= i - (|p| - 1) && t.log[j] == p[|p| - 1]
    decreases |p|
  {
    if |p| == 1 {
      j := i;
    } else {
      assert HasRequiredEdge(g, p[0], p[1]);
      assert Settled(g, t.broken, t.log[..i], t.log[i], Rel(p[1], false));
      var k :| 0 <= k < i && t.log[k] == p[1];
      assert IsRequiredPath(g, p[1..]) by {
        forall i | 0 <= i < |p[1..]| - 1
          ensures HasRequiredEdge(g, p[1..][i], p[1..][i + 1])
        {
          assert HasRequiredEdge(g, p[i + 1], p[i + 2]);
        }
      }
      j := RequiredPathDescends(g, t, p[1..], k);
    }
  }

  /** A cycle of required edges makes the walk fail in every iteration order. */
  lemma RequiredCycleFails(g: Graph, failing: set<nat>, order: seq<Name>, p: seq<Name>)
    requires Covers(g, order) && RequiredCycle(g, p)
    ensures WalkAll(g, failing, START, order).Failed?
  {
    LaunchOrder(g, failing, order);
    var r := WalkAll(g, failing, START, order);
    if r.Done? {
      assert HasRequiredEdge(g, p[0], p[1]);
      var i :| 0 <= i < |r.t.log| && r.t.log[i] == p[0];
      var j := RequiredPathDescends(g, r.t, p, i);
    }
  }

  /** After a walk that started from nothing, the log is closed under dependencies. */
  lemma {:induction false} LogIsClosed(g: Graph, t: Trail, p: seq<Name>, lo: nat, hi: nat)
    requires Inv(g, t, []) && IsPath(g, p) && lo <= hi < |p| && p[lo] in t.log
    ensures p[hi] in t.log
    decreases |p| - lo
  {
    if lo < hi {
      assert HasEdge(g, p[lo], p[lo + 1]);
      var rel :| rel in g[p[lo]] && rel.target == p[lo + 1];
      var i :| 0 <= i < |t.log| && t.log[i] == p[lo];
      assert Settled(g, t.broken, t.log[..i], t.log[i], rel);
      LogIsClosed(g, t, p, lo + 1, hi);
    }
  }

  lemma NothingRequiresTheLast(g: Graph, t: Trail, u: Name)
    requires Sound(g, t) && u in t.log
    ensures !HasRequiredEdge(g, u, t.log[|t.log| - 1])
  {
    var i :| 0 <= i < |t.log| && t.log[i] == u;
    assert forall rel <- g[u] :: Settled(g, t.broken, t.log[..i], u, rel);
  }

  /** Starting with the target of a required edge on a cycle makes the walk fail. */
  lemma StartInCycleFails(g: Graph, failing: set<nat>, order: seq<Name>, p: seq<Name>, k: nat)
    requires Covers(g, order) && CycleWithRequiredEdge(g, p, k)
    requires order != [] && order[0] == p[k + 1]
    ensures WalkAll(g, failing, START, order).Failed?
  {
    StartServiceKeeps(g, failing, [], START, p[k + 1]);
    var r := StartService(g, failing, [], START, p[k + 1]);
    if r.Done? {
      LogIsClosed(g, r.t, p, k + 1, |p| - 1);
      LogIsClosed(g, r.t, p, 0, k);
      NothingRequiresTheLast(g, r.t, p[k]);
    }
  }

  lemma OrderFrom(names: set<Name>, first: Name) returns (order: seq<Name>)
    requires first in names
    ensures order != [] && order[0] == first && forall n :: n in names <==> n in order
    decreases |names|
  {
    order := [first];
    var rest := names - {first};
    assert forall n :: n in names <==> n == first || n in rest;
    if rest != {} {
      var n :| n in rest;
      var more := OrderFrom(rest, n);
      order := [first] + more;
    }
  }

  /** Exactly the graphs with a cycle through a required edge have an iteration order in which
      the walk reports a cycle (when every cycle action succeeds). */
  lemma CycleVerdict(g: Graph)
    ensures (exists order :: Covers(g, order) && WalkAll(g, {}, START, order).Failed?)
       <==> (exists p, k: nat :: CycleWithRequiredEdge(g, p, k))
  {
    if order :| Covers(g, order) && WalkAll(g, {}, START, order).Failed? {
      ReportedCycle(g, {}, order);
      var path := WalkAll(g, {}, START, order).why.path;
      var n := |path| - 1;
      var j :| 0 <= j < n && path[..n][j] == path[n];
      var p := path[j..];
      assert IsPath(g, p) by {
        forall i | 0 <= i < |p| - 1
          ensures HasEdge(g, p[i], p[i + 1])
        {
          assert HasEdge(g, path[j + i], path[j + i + 1]);
        }
      }
      assert CycleWithRequiredEdge(g, p, |p| - 2);
    }
    if p, k: nat :| CycleWithRequiredEdge(g, p, k) {
      var order := OrderFrom(g.Keys, p[k + 1]);
      StartInCycleFails(g, {}, order, p, k);
    }
  }

  lemma {:induction false} CycleActionFails(g: Graph, failing: set<nat>, t: Trail, order: seq<Name>)
    requires forall n <- order :: n in g
    ensures var r := WalkAll(g, failing, t, order); r.Failed? && r.why.CycleAction? ==> LastAction(failing, r.t, r.why.path)
    decreases |order|
  {
    if order != [] {
      CycleActionFailsIn(g, failing, [], t, order[0]);
      var r := StartService(g, failing, [], t, order[0]);
      if r.Done? {
        CycleActionFails(g, failing, r.t, order[1..]);
      }
    }
  }

  lemma {:induction false} CycleActionFailsIn(g: Graph, failing: set<nat>, history: seq<Name>, t: Trail, w: Name)
    requires w in g
    ensures var r := StartService(g, failing, history, t, w);
      r.Failed? && r.why.CycleAction? ==> LastAction(failing, r.t, r.why.path)
    decreases g.Keys - t.launched, 0
  {
    if w !in t.launched {
      CycleActionFailsAt(g, failing, history + [w], t.(launched := t.launched + {w}), g[w]);
    }
  }

  lemma {:induction false} CycleActionFailsAt(g: Graph, failing: set<nat>, history: seq<Name>, t: Trail, rels: seq<Rel>)
    ensures var r := VisitDeps(g, failing, history, t, rels);
      r.Failed? && r.why.CycleAction? ==> LastAction(failing, r.t, r.why.path)
    decreases g.Keys - t.launched, 1 + |rels|
  {
    if rels != [] {
      var target := rels[0].target;
      if target !in g {
        CycleActionFailsAt(g, failing, history, t, rels[1..]);
      } else if target in history {
        CycleActionFailsAt(g, failing, history, t.(broken := t.broken + [history + [target]]), rels[1..]);
      } else {
        CycleActionFailsIn(g, failing, history, t, target);
        CycleActionFailsAt(g, failing, history, StartService(g, failing, history, t, target).t, rels[1..]);
      }
    }
  }

  /** A cycle that mixes required and optional edges fails or not depending on the order. */
  lemma MixedCycleDependsOnOrder(g: Graph, failing: set<nat>, a: Name, b: Name)
    requires a != b && g == map[a := [Rel(b, true)], b := [Rel(a, false)]] && 0 !in failing
    ensures WalkAll(g, failing, START, [a, b]).Failed?
    ensures WalkAll(g, failing, START, [b, a]) == Done(Trail({a, b}, [[b, a, b]], [a, b]))
  {
    MixedCycleSucceeds(g, failing, a, b);
    assert HasEdge(g, a, b) && HasRequiredEdge(g, b, a);
    assert CycleWithRequiredEdge(g, [a, b, a], 1);
    StartInCycleFails(g, failing, [a, b], [a, b, a], 1);
  }

  lemma MixedCycleSucceeds(g: Graph, failing: set<nat>, a: Name, b: Name)
    requires a != b && g == map[a := [Rel(b, true)], b := [Rel(a, false)]] && 0 !in failing
    ensures WalkAll(g, failing, START, [b, a]) == Done(Trail({a, b}, [[b, a, b]], [a, b]))
  {
    var t0, t1 := START.(launched := {b}), START.(launched := {b} + {a});
    var t2 := t1.(broken := [[b] + [a] + [b]]);
    var t3 := t2.(log := [a]);
    assert g[a][1..] == [] && g[b][1..] == [] && b in [b] + [a] && a !in [b];
    assert VisitDeps(g, failing, [b] + [a], t1, g[a]) == Done(t2);
    assert StartService(g, failing, [b], t0, a) == Done(t3);
    assert VisitDeps(g, failing, [b], t0, g[b]) == Done(t3);
    assert START.launched + {b} == {b} && [] + [b] == [b];
    assert StartService(g, failing, [], START, b) == Done(t3.(log := [a, b]));
    assert [b, a][1..] == [a] && [a][1..] == [];
    assert WalkAll(g, failing, t3.(log := [a, b]), [a]) == Done(t3.(log := [a, b]));
    assert [b] + [a] + [b] == [b, a, b];
  }

  /** Four services in two interlocked cycles, each with one optional edge. */
  ghost predicate Knot(g: Graph, a: Name, b: Name, c: Name, d: Name) {
    && a != b && a != c && a != d && b != c && b != d && c != d
    && g == map[
      a := [Rel(b, false), Rel(d, false)], b := [Rel(c, true)],
      c := [Rel(d, false), Rel(b, false)], d := [Rel(a, true)]]
  }

  lemma KnotFails(g: Graph, failing: set<nat>, a: Name, b: Name, c: Name, d: Name)
    requires Knot(g, a, b, c, d)
    ensures StartService(g, failing, [], START, a).Failed?
  {
    var h := [a] + [b] + [c];
    var t := START.(launched := {a} + {b} + {c});
    assert g[d][1..] == [] && g[b][1..] == [] && g[c][1..] == [Rel(b, false)] && a in h && b in h;
    var td := t.(launched := t.launched + {d}, broken := t.broken + [h + [d] + [a]]);
    assert a in h + [d] && g[d][0] == Rel(a, true);
    assert VisitDeps(g, failing, h + [d], td, g[d][1..]) == Done(td);
    assert [] + [d] == [d];
    assert StartService(g, failing, h, t, d).Failed? || StartService(g, failing, h, t, d) == Done(td.(log := [d]));
    assert VisitDeps(g, failing, h, td.(log := [d]), [Rel(b, false)]).Failed?;
    assert VisitDeps(g, failing, h, t, g[c]).Failed?;
    assert StartService(g, failing, [a] + [b], START.(launched := {a} + {b}), c).Failed?;
    assert VisitDeps(g, failing, [a] + [b], START.(launched := {a} + {b}), g[b]).Failed?;
    assert StartService(g, failing, [a], START.(launched := {a}), b).Failed?;
    assert VisitDeps(g, failing, [a], START.(launched := {a}), g[a]).Failed?;
    assert [] + [a] == [a] && START.launched + {a} == {a};
  }

  /** Cycles of required edges are not the only graphs that fail in every order: in a knot the
      required edges are acyclic, and yet no iteration order succeeds. */
  lemma KnotFailsInEveryOrder(g: Graph, failing: set<nat>, order: seq<Name>, a: Name, b: Name, c: Name, d: Name)
    requires Knot(g, a, b, c, d) && Covers(g, order)
    ensures !exists p :: RequiredCycle(g, p)
    ensures WalkAll(g, failing, START, order).Failed?
  {
    forall p
      ensures !RequiredCycle(g, p)
    {
      if IsCycle(p) {
        assert !(HasRequiredEdge(g, p[0], p[1]) && HasRequiredEdge(g, p[1], p[if |p| == 2 then 1 else 2]));
      }
    }
    assert a in g && order != [] && order[0] in g;
    if order[0] == a {
      KnotFails(g, failing, a, b, c, d);
    } else if order[0] == c {
      KnotFails(g, failing, c, d, a, b);
    } else {
      var e, f := order[0], if order[0] == d then a else c;
      assert e == d ==> g[a][1] == Rel(d, false) && g[d][0] == Rel(a, true);
      assert e == b ==> g[c][1] == Rel(b, false) && g[b][0] == Rel(c, true);
      assert HasEdge(g, e, f) && HasRequiredEdge(g, f, e);
      assert CycleWithRequiredEdge(g, [e, f, e], 1);
      StartInCycleFails(g, failing, order, [e, f, e], 1);
    }
  }
}
