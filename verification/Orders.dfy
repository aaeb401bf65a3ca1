/** In which iteration orders the walk of `startService` succeeds, and how to find one. */
module Orders {
  import opened Walk

  /** The walk when every cycle action succeeds. */
  const NONE: set<nat> := {}

  /** Every dependency of a member that is loaded is a member. */
  ghost predicate ClosedSet(g: Graph, names: set<Name>) {
    forall n <- names, rel :: n in g && rel in g[n] && rel.target in g ==> rel.target in names
  }

  /** The services of `t'` are those of `t` and those of `names`. */
  predicate Plus(t: Trail, t': Trail, names: set<Name>) {
    t'.launched == t.launched + names
  }

  lemma {:induction false} StartWithin(g: Graph, history: seq<Name>, t: Trail, w: Name, names: set<Name>)
    requires w in g && w in names && ClosedSet(g, names)
    ensures StartService(g, NONE, history, t, w).t.launched <= t.launched + names
    decreases g.Keys - t.launched, 0
  {
    if w !in t.launched {
      VisitWithin(g, history + [w], t.(launched := t.launched + {w}), g[w], names);
    }
  }

  lemma {:induction false} VisitWithin(g: Graph, history: seq<Name>, t: Trail, rels: seq<Rel>, names: set<Name>)
    requires ClosedSet(g, names) && forall rel <- rels :: rel.target in g ==> rel.target in names
    ensures VisitDeps(g, NONE, history, t, rels).t.launched <= t.launched + names
    decreases g.Keys - t.launched, 1 + |rels|
  {
    hide ClosedSet;
    if rels != [] {
      var target := rels[0].target;
      assert rels[0] in rels && forall rel <- rels[1..] :: rel in rels;
      if target !in g {
        VisitWithin(g, history, t, rels[1..], names);
      } else if target in history {
        VisitWithin(g, history, t.(broken := t.broken + [history + [target]]), rels[1..], names);
      } else {
        StartWithin(g, history, t, target, names);
        VisitWithin(g, history, StartService(g, NONE, history, t, target).t, rels[1..], names);
      }
    }
  }

  /** A service that can be started can also be started when a closed set of services that is
      not on the path has been launched besides. */
  lemma {:induction false} StartLater(g: Graph, history: seq<Name>, t: Trail, t': Trail, w: Name, names: set<Name>)
    requires w in g && ClosedSet(g, names) && Plus(t, t', names) && forall n <- history :: n !in names
    requires StartService(g, NONE, history, t, w).Done?
    ensures var r, r' := StartService(g, NONE, history, t, w), StartService(g, NONE, history, t', w);
      r'.Done? && Plus(r.t, r'.t, names)
    decreases g.Keys - t.launched, 0
  {
    if w in names {
      StartWithin(g, history, t, w, names);
    } else if w !in t.launched {
      VisitLater(g, history + [w], t.(launched := t.launched + {w}), t'.(launched := t'.launched + {w}), g[w], names);
    }
  }

  lemma {:induction false} VisitLater(g: Graph, history: seq<Name>, t: Trail, t': Trail, rels: seq<Rel>, names: set<Name>)
    requires ClosedSet(g, names) && Plus(t, t', names) && forall n <- history :: n !in names
    requires VisitDeps(g, NONE, history, t, rels).Done?
    ensures var r, r' := VisitDeps(g, NONE, history, t, rels), VisitDeps(g, NONE, history, t', rels);
      r'.Done? && Plus(r.t, r'.t, names)
    decreases g.Keys - t.launched, 1 + |rels|
  {
    hide ClosedSet;
    if rels != [] {
      var target := rels[0].target;
      if target !in g {
        VisitLater(g, history, t, t', rels[1..], names);
      } else if target in history {
        var path := history + [target];
        VisitLater(g, history, t.(broken := t.broken + [path]), t'.(broken := t'.broken + [path]), rels[1..], names);
      } else {
        StartLater(g, history, t, t', target, names);
        var r, r' := StartService(g, NONE, history, t, target), StartService(g, NONE, history, t', target);
        VisitLater(g, history, r.t, r'.t, rels[1..], names);
      }
    }
  }

  lemma LaunchedIsClosed(g: Graph, t: Trail)
    requires Inv(g, t, [])
    ensures ClosedSet(g, t.launched)
  {
    forall n <- t.launched, rel | n in g && rel in g[n] && rel.target in g
      ensures rel.target in t.launched
    {
      assert n in t.log;
      var i :| 0 <= i < |t.log| && t.log[i] == n;
      assert Settled(g, t.broken, t.log[..i], n, rel);
    }
  }

  /** Monotonicity: what can be started after some services can be started after more of them. */
  lemma StartIsMonotone(g: Graph, t: Trail, t': Trail, w: Name)
    requires w in g && Inv(g, t', []) && t.launched <= t'.launched
    requires StartService(g, NONE, [], t, w).Done?
    ensures StartService(g, NONE, [], t', w).Done?
    ensures StartService(g, NONE, [], t, w).t.launched <= StartService(g, NONE, [], t', w).t.launched
  {
    LaunchedIsClosed(g, t');
    StartLater(g, [], t, t', w, t'.launched);
  }

  /** The same for a whole order. */
  lemma {:induction false} WalkIsMonotone(g: Graph, t: Trail, t': Trail, order: seq<Name>)
    requires Inv(g, t, []) && Inv(g, t', []) && t.launched <= t'.launched
    requires forall n <- order :: n in g
    requires WalkAll(g, NONE, t, order).Done?
    ensures WalkAll(g, NONE, t', order).Done?
    ensures WalkAll(g, NONE, t, order).t.launched <= WalkAll(g, NONE, t', order).t.launched
    decreases |order|
  {
    if order != [] {
      StartIsMonotone(g, t, t', order[0]);
      StartServiceKeeps(g, NONE, [], t, order[0]);
      StartServiceKeeps(g, NONE, [], t', order[0]);
      WalkIsMonotone(g, StartService(g, NONE, [], t, order[0]).t, StartService(g, NONE, [], t', order[0]).t, order[1..]);
    }
  }

  /** No start is ever a mistake: when some order succeeds, it also succeeds after any services
      that could be started before. */
  lemma NoStartIsWrong(g: Graph, order: seq<Name>, first: seq<Name>)
    requires Covers(g, order) && WalkAll(g, NONE, START, order).Done?
    requires (forall n <- first :: n in g) && WalkAll(g, NONE, START, first).Done?
    ensures WalkAll(g, NONE, START, first + order).Done? && Covers(g, first + order)
  {
    WalkAllKeeps(g, NONE, START, first);
    WalkIsMonotone(g, START, WalkAll(g, NONE, START, first).t, order);
    WalkAllThen(g, NONE, START, first, order);
  }

  // ---------- Starting whatever can be started ----------

  ghost predicate CanStart(g: Graph, t: Trail, w: Name) {
    w in g && w !in t.launched && StartService(g, NONE, [], t, w).Done?
  }

  /** `first` is a list of services each of which can be started after those before it, and after
      all of them no other can. */
  ghost predicate Exhausted(g: Graph, first: seq<Name>)
    requires forall n <- first :: n in g
  {
    var r := WalkAll(g, NONE, START, first);
    r.Done? && forall w :: !CanStart(g, r.t, w)
  }

  lemma {:induction false} NextStart(g: Graph, t: Trail, order: seq<Name>)
    requires (forall n <- order :: n in g) && WalkAll(g, NONE, t, order).Done?
    requires forall w :: !CanStart(g, t, w)
    ensures forall n <- order :: n in t.launched
    decreases |order|
  {
    if order != [] {
      assert !CanStart(g, t, order[0]);
      NextStart(g, t, order[1..]);
      assert forall n <- order :: n == order[0] || n in order[1..];
    }
  }

  lemma {:induction false} NothingToStart(g: Graph, t: Trail, order: seq<Name>)
    requires forall n <- order :: n in g && n in t.launched
    ensures WalkAll(g, NONE, t, order) == Done(t)
    decreases |order|
  {
    if order != [] {
      NothingToStart(g, t, order[1..]);
    }
  }

  /** Some order succeeds if and only if starting whatever can be started, in any way, covers the
      graph: the order of the starts that succeed does not matter. */
  lemma GreedyDecides(g: Graph, first: seq<Name>)
    requires (forall n <- first :: n in g) && Exhausted(g, first)
    ensures (exists order :: Covers(g, order) && WalkAll(g, NONE, START, order).Done?)
       <==> WalkAll(g, NONE, START, first).t.launched == g.Keys
  {
    WalkAllKeeps(g, NONE, START, first);
    var t := WalkAll(g, NONE, START, first).t;
    if order :| Covers(g, order) && WalkAll(g, NONE, START, order).Done? {
      WalkIsMonotone(g, START, t, order);
      NextStart(g, t, order);
      assert forall n <- g :: n in order;
    }
    if t.launched == g.Keys && g.Keys != {} {
      var n :| n in g;
      var all := OrderFrom(g.Keys, n);
      NothingToStart(g, t, all);
      WalkAllThen(g, NONE, START, first, all);
      assert Covers(g, first + all);
    }
    assert g.Keys == {} ==> Covers(g, []) && WalkAll(g, NONE, START, []).Done?;
  }

  /** Such a list exists for every graph. */
  lemma {:induction false} CanExhaust(g: Graph, first: seq<Name>) returns (all: seq<Name>)
    requires (forall n <- first :: n in g) && WalkAll(g, NONE, START, first).Done?
    ensures first <= all && (forall n <- all :: n in g) && Exhausted(g, all)
    decreases g.Keys - WalkAll(g, NONE, START, first).t.launched
  {
    var t := WalkAll(g, NONE, START, first).t;
    if w :| CanStart(g, t, w) {
      OneMore(g, first, w);
      all := CanExhaust(g, first + [w]);
    } else {
      all := first;
    }
  }

  lemma OneMore(g: Graph, first: seq<Name>, w: Name)
    requires (forall n <- first :: n in g) && WalkAll(g, NONE, START, first).Done?
    requires CanStart(g, WalkAll(g, NONE, START, first).t, w)
    ensures forall n <- first + [w] :: n in g
    ensures var t, r := WalkAll(g, NONE, START, first).t, WalkAll(g, NONE, START, first + [w]);
      r.Done? && t.launched + {w} <= r.t.launched
  {
    var t := WalkAll(g, NONE, START, first).t;
    WalkAllThen(g, NONE, START, first, [w]);
    var r := StartService(g, NONE, [], t, w);
    assert [w][1..] == [] && [w][0] == w;
    assert WalkAll(g, NONE, r.t, []) == r;
    assert WalkAll(g, NONE, t, [w]) == r;
    WalkAllKeeps(g, NONE, START, first);
    StartServiceKeeps(g, NONE, [], t, w);
  }

  /** So whether a graph can be launched at all is decided by starting whatever can be started. */
  lemma SomeOrderSucceeds(g: Graph) returns (first: seq<Name>)
    ensures (forall n <- first :: n in g) && Exhausted(g, first)
    ensures (exists order :: Covers(g, order) && WalkAll(g, NONE, START, order).Done?)
       <==> WalkAll(g, NONE, START, first).t.launched == g.Keys
  {
    first := CanExhaust(g, []);
    GreedyDecides(g, first);
  }

  // ---------- Cycle actions that fail ----------

  /** The action run for one of the first `n` ignored cycles fails. */
  ghost predicate SomeFails(failing: set<nat>, from: nat, n: nat) {
    exists k <- failing :: from <= k < n
  }

  /** `r` is the walk when some cycle actions fail, `r0` the same walk when none does. */
  ghost predicate Compares(failing: set<nat>, t: Trail, r0: Walked, r: Walked) {
    && t.broken <= r0.t.broken
    && if SomeFails(failing, |t.broken|, |r0.t.broken|) then r.Failed? && r.why.CycleAction? else r == r0
  }

  lemma {:induction false} StartCompares(g: Graph, failing: set<nat>, history: seq<Name>, t: Trail, w: Name)
    requires w in g
    ensures Compares(failing, t, StartService(g, NONE, history, t, w), StartService(g, failing, history, t, w))
    decreases g.Keys - t.launched, 0
  {
    if w !in t.launched {
      VisitCompares(g, failing, history + [w], t.(launched := t.launched + {w}), g[w]);
    }
  }

  lemma {:induction false} VisitCompares(g: Graph, failing: set<nat>, history: seq<Name>, t: Trail, rels: seq<Rel>)
    ensures Compares(failing, t, VisitDeps(g, NONE, history, t, rels), VisitDeps(g, failing, history, t, rels))
    decreases g.Keys - t.launched, 1 + |rels|
  {
    if rels != [] {
      var target := rels[0].target;
      if target !in g {
        VisitCompares(g, failing, history, t, rels[1..]);
      } else if target in history {
        VisitCompares(g, failing, history, t.(broken := t.broken + [history + [target]]), rels[1..]);
      } else {
        StartCompares(g, failing, history, t, target);
        var r0 := StartService(g, NONE, history, t, target);
        if r0.Done? {
          VisitCompares(g, failing, history, r0.t, rels[1..]);
        }
      }
    }
  }

  lemma {:induction false} WalkCompares(g: Graph, failing: set<nat>, t: Trail, order: seq<Name>)
    requires forall n <- order :: n in g
    ensures Compares(failing, t, WalkAll(g, NONE, t, order), WalkAll(g, failing, t, order))
    decreases |order|
  {
    if order != [] {
      StartCompares(g, failing, [], t, order[0]);
      var r0 := StartService(g, NONE, [], t, order[0]);
      if r0.Done? {
        WalkCompares(g, failing, r0.t, order[1..]);
      }
    }
  }

  /** The order breaks so many cycles, up to its end or to a required edge that closes one, that
      an action which fails is among those that are run. */
  ghost predicate RunsFailingAction(g: Graph, failing: set<nat>, order: seq<Name>)
    requires forall n <- order :: n in g
  {
    exists k <- failing :: k < |WalkAll(g, NONE, START, order).t.broken|
  }

  /** An order fails because of a required edge, or because it runs an action that fails. */
  lemma OrderFailsIff(g: Graph, failing: set<nat>, order: seq<Name>)
    requires forall n <- order :: n in g
    ensures WalkAll(g, failing, START, order).Failed?
       <==> WalkAll(g, NONE, START, order).Failed? || RunsFailingAction(g, failing, order)
  {
    WalkCompares(g, failing, START, order);
  }

  /** Which graphs have an order that fails, whatever the cycle actions do. */
  lemma FailureVerdict(g: Graph, failing: set<nat>)
    ensures (exists order :: Covers(g, order) && WalkAll(g, failing, START, order).Failed?)
       <==> ((exists p, k: nat :: CycleWithRequiredEdge(g, p, k))
             || exists order :: Covers(g, order) && RunsFailingAction(g, failing, order))
  {
    hide RunsFailingAction;
    CycleVerdict(g);
    forall order | Covers(g, order)
      ensures WalkAll(g, failing, START, order).Failed?
         <==> WalkAll(g, NONE, START, order).Failed? || RunsFailingAction(g, failing, order)
    {
      OrderFailsIff(g, failing, order);
    }
  }
}
