/** Which edges the walk of `startService` ignores: exactly those that lead forward in the launch
    order, from a service to one that is not launched before it. */
module BackEdges {
  import opened Walk

  /** `d` is not launched before `n`. */
  ghost predicate NotBefore(log: seq<Name>, n: Name, d: Name) {
    forall i :: 0 <= i < |log| && log[i] == n ==> d !in log[..i]
  }

  /** `d` is on the path, not below `n`. */
  ghost predicate Above(history: seq<Name>, n: Name, d: Name) {
    exists i, j :: 0 <= i <= j < |history| && history[i] == d && history[j] == n
  }

  /** No broken cycle was closed by an edge to a service launched before. */
  ghost predicate Closed(t: Trail) {
    forall p <- t.broken :: |p| >= 2 ==> NotBefore(t.log, p[|p| - 2], p[|p| - 1])
  }

  /** An edge whose source is not launched yet leads up the path. */
  ghost predicate Open(t: Trail, history: seq<Name>) {
    forall p <- t.broken :: |p| >= 2 && p[|p| - 2] !in t.log ==> Above(history, p[|p| - 2], p[|p| - 1])
  }

  lemma EnterOpen(t: Trail, history: seq<Name>, w: Name)
    requires Open(t, history)
    ensures Open(t, history + [w])
  {
    forall p <- t.broken | |p| >= 2 && p[|p| - 2] !in t.log
      ensures Above(history + [w], p[|p| - 2], p[|p| - 1])
    {
      var i, j :| 0 <= i <= j < |history| && history[i] == p[|p| - 1] && history[j] == p[|p| - 2];
      assert (history + [w])[i] == p[|p| - 1] && (history + [w])[j] == p[|p| - 2];
    }
  }

  lemma BreakOpen(g: Graph, t: Trail, history: seq<Name>, target: Name)
    requires Inv(g, t, history) && Closed(t) && Open(t, history) && target in history
    ensures var t' := t.(broken := t.broken + [history + [target]]); Closed(t') && Open(t', history)
  {
    var path, t' := history + [target], t.(broken := t.broken + [history + [target]]);
    var n := path[|path| - 2];
    var i :| 0 <= i < |history| && history[i] == target;
    assert n == history[|history| - 1] && n in history && n !in t.log;
    assert Above(history, n, target);
    assert forall p <- t'.broken :: p in t.broken || p == path;
  }

  lemma LeaveOpen(g: Graph, t: Trail, history: seq<Name>, w: Name)
    requires Inv(g, t, history + [w]) && Closed(t) && Open(t, history + [w])
    ensures var t' := t.(log := t.log + [w]); Closed(t') && Open(t', history)
  {
    var t', h := t.(log := t.log + [w]), history + [w];
    assert h[|history|] == w && w in h;
    forall p <- t.broken | |p| >= 2
      ensures NotBefore(t'.log, p[|p| - 2], p[|p| - 1])
      ensures p[|p| - 2] !in t'.log ==> Above(history, p[|p| - 2], p[|p| - 1])
    {
      LeaveEdge(t.log, history, w, p[|p| - 2], p[|p| - 1]);
    }
  }

  lemma LeaveEdge(log: seq<Name>, history: seq<Name>, w: Name, n: Name, d: Name)
    requires Distinct(history + [w]) && forall m <- history + [w] :: m !in log
    requires NotBefore(log, n, d) && (n !in log ==> Above(history + [w], n, d))
    ensures NotBefore(log + [w], n, d)
    ensures n !in log + [w] ==> Above(history, n, d)
  {
    var h := history + [w];
    if n !in log {
      var i, j :| 0 <= i <= j < |h| && h[i] == d && h[j] == n;
      assert d in h && n in h;
      assert n != w ==> j < |history| && history[i] == d && history[j] == n;
    }
    forall k | 0 <= k < |log + [w]| && (log + [w])[k] == n
      ensures d !in (log + [w])[..k]
    {
      assert (log + [w])[..k] == log[..k];
      assert k == |log| ==> h[|history|] == n && n in h;
    }
  }

  lemma {:induction false} StartOpen(g: Graph, failing: set<nat>, history: seq<Name>, t: Trail, w: Name)
    requires w in g && w !in history && Inv(g, t, history) && Closed(t) && Open(t, history)
    requires history != [] ==> HasEdge(g, history[|history| - 1], w)
    ensures var r := StartService(g, failing, history, t, w); Closed(r.t) && (r.Done? ==> Open(r.t, history))
    decreases g.Keys - t.launched, 0
  {
    hide Inv, Closed, Open;
    if w !in t.launched {
      var t0 := t.(launched := t.launched + {w});
      Enter(g, t, history, w);
      EnterOpen(t, history, w);
      SameEdges(t, t0, history + [w]);
      VisitOpen(g, failing, history + [w], t0, g[w]);
      VisitDepsKeeps(g, failing, history + [w], t0, g[w]);
      var r := VisitDeps(g, failing, history + [w], t0, g[w]);
      if r.Done? {
        LeaveOpen(g, r.t, history, w);
      }
    }
  }

  lemma SameEdges(t: Trail, t': Trail, history: seq<Name>)
    requires t'.broken == t.broken && t'.log == t.log
    ensures Closed(t') == Closed(t) && Open(t', history) == Open(t, history)
  {
  }

  lemma {:induction false} VisitOpen(g: Graph, failing: set<nat>, history: seq<Name>, t: Trail, rels: seq<Rel>)
    requires history != [] && Inv(g, t, history) && Closed(t) && Open(t, history)
    requires history[|history| - 1] in g && forall rel <- rels :: rel in g[history[|history| - 1]]
    ensures var r := VisitDeps(g, failing, history, t, rels); Closed(r.t) && (r.Done? ==> Open(r.t, history))
    decreases g.Keys - t.launched, 1 + |rels|
  {
    hide Inv, Closed, Open;
    if rels != [] {
      var target := rels[0].target;
      assert rels[0] in rels && forall rel <- rels[1..] :: rel in rels;
      if target !in g {
        VisitOpen(g, failing, history, t, rels[1..]);
      } else if target in history {
        if rels[0].optional {
          assert rels[0] == Rel(target, true);
          Break(g, t, history, target);
          BreakOpen(g, t, history, target);
          if |t.broken| !in failing {
            VisitOpen(g, failing, history, t.(broken := t.broken + [history + [target]]), rels[1..]);
          }
        }
      } else {
        StartServiceKeeps(g, failing, history, t, target);
        StartOpen(g, failing, history, t, target);
        var r := StartService(g, failing, history, t, target);
        if r.Done? {
          VisitOpen(g, failing, history, r.t, rels[1..]);
        }
      }
    }
  }

  lemma {:induction false} WalkOpen(g: Graph, failing: set<nat>, t: Trail, order: seq<Name>)
    requires Inv(g, t, []) && Closed(t) && Open(t, []) && forall n <- order :: n in g
    ensures Closed(WalkAll(g, failing, t, order).t)
    decreases |order|
  {
    if order != [] {
      StartServiceKeeps(g, failing, [], t, order[0]);
      StartOpen(g, failing, [], t, order[0]);
      var r := StartService(g, failing, [], t, order[0]);
      if r.Done? {
        WalkOpen(g, failing, r.t, order[1..]);
      }
    }
  }

  /** The walk ignored the edge from `n` to `d`, an optional one. */
  ghost predicate BrokenBy(g: Graph, failing: set<nat>, order: seq<Name>, n: Name, d: Name)
    requires forall m <- order :: m in g
  {
    HasOptionalEdge(g, n, d) && Ignored(WalkAll(g, failing, START, order).t.broken, n, d)
  }

  /** Of the edges of a launched service, the walk ignored exactly those whose target it had not
      launched before. */
  lemma IgnoredIffForward(g: Graph, failing: set<nat>, order: seq<Name>, i: nat, rel: Rel)
    requires Covers(g, order)
    requires var log := WalkAll(g, failing, START, order).t.log;
      i < |log| && log[i] in g && rel in g[log[i]] && rel.target in g
    ensures var log := WalkAll(g, failing, START, order).t.log;
      BrokenBy(g, failing, order, log[i], rel.target) <==> rel.target !in log[..i]
  {
    LaunchOrder(g, failing, order);
    WalkOpen(g, failing, START, order);
    var t := WalkAll(g, failing, START, order).t;
    assert Settled(g, t.broken, t.log[..i], t.log[i], rel);
  }

  /** An ignored edge lies on a cycle. */
  lemma IgnoredOnCycle(g: Graph, failing: set<nat>, order: seq<Name>, n: Name, d: Name)
    requires Covers(g, order) && BrokenBy(g, failing, order, n, d)
    ensures exists path :: ClosesCycle(g, path) && path[|path| - 2] == n && path[|path| - 1] == d
  {
    LaunchOrder(g, failing, order);
  }

  /** Of two optional edges between the same two services at most one is ignored by a walk. */
  lemma OneWayStays(g: Graph, failing: set<nat>, order: seq<Name>, a: Name, b: Name)
    requires Covers(g, order) && WalkAll(g, failing, START, order).Done? && a != b
    requires HasOptionalEdge(g, a, b) && HasOptionalEdge(g, b, a)
    ensures BrokenBy(g, failing, order, a, b) != BrokenBy(g, failing, order, b, a)
  {
    LaunchOrder(g, failing, order);
    var log := WalkAll(g, failing, START, order).t.log;
    var i :| 0 <= i < |log| && log[i] == a;
    var j :| 0 <= j < |log| && log[j] == b;
    IgnoredIffForward(g, failing, order, i, Rel(b, true));
    IgnoredIffForward(g, failing, order, j, Rel(a, true));
    assert b in log[..i] <==> j < i;
    assert a in log[..j] <==> i < j;
  }
}
