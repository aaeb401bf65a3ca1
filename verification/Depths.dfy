/** Linking network interfaces and marking their depth (`config/cloudinit/network/interface.go`). */
module Depths {
  import opened Text

  datatype Kind = Physical | Bond(slaves: seq<string>) | Vlan(rawDevice: string)

  /** The names of the children of each interface. */
  type Kids = map<string, seq<string>>

  // ---------- Depth ----------

  /** Every child is an interface, and has a lower rank than its parents: no chain of children
      comes back to where it started. */
  ghost predicate Acyclic(kids: Kids, rank: map<string, nat>) {
    kids.Keys == rank.Keys && forall n, c :: n in kids && c in kids[n] ==> c in kids && rank[c] < rank[n]
  }

  /** What `setDepth` computes: one more than the greatest depth of a child. */
  ghost function Depth(kids: Kids, rank: map<string, nat>, n: string): nat
    requires Acyclic(kids, rank) && n in kids
    decreases rank[n], |kids[n]| + 1
  {
    Deepest(kids, rank, n, |kids[n]|)
  }

  ghost function Deepest(kids: Kids, rank: map<string, nat>, n: string, k: nat): nat
    requires Acyclic(kids, rank) && n in kids && k <= |kids[n]|
    decreases rank[n], k
  {
    if k == 0 then 0
    else
      var best, d := Deepest(kids, rank, n, k - 1), Depth(kids, rank, kids[n][k - 1]) + 1;
      if d > best then d else best
  }

  /** A chain of interfaces, each a child of the one before. */
  ghost predicate IsChain(kids: Kids, chain: seq<string>) {
    && chain != [] && (forall n <- chain :: n in kids)
    && forall i :: 0 <= i < |chain| - 1 ==> chain[i + 1] in kids[chain[i]]
  }

  /** A parent is strictly deeper than each of its children. */
  lemma ParentIsDeeper(kids: Kids, rank: map<string, nat>, n: string, c: string)
    requires Acyclic(kids, rank) && n in kids && c in kids[n]
    ensures Depth(kids, rank, c) < Depth(kids, rank, n)
  {
    var i :| 0 <= i < |kids[n]| && kids[n][i] == c;
    DeepestBounds(kids, rank, n, |kids[n]|, i);
  }

  lemma {:induction false} DeepestBounds(kids: Kids, rank: map<string, nat>, n: string, k: nat, i: nat)
    requires Acyclic(kids, rank) && n in kids && i < k <= |kids[n]|
    ensures Depth(kids, rank, kids[n][i]) < Deepest(kids, rank, n, k)
  {
    if i < k - 1 {
      DeepestBounds(kids, rank, n, k - 1, i);
    }
  }

  /** No chain of descendants is longer than the depth. */
  lemma {:induction false} ChainsAreShorter(kids: Kids, rank: map<string, nat>, chain: seq<string>)
    requires Acyclic(kids, rank) && IsChain(kids, chain)
    ensures |chain| - 1 <= Depth(kids, rank, chain[0])
    decreases |chain|
  {
    if |chain| > 1 {
      ParentIsDeeper(kids, rank, chain[0], chain[1]);
      ChainsAreShorter(kids, rank, chain[1..]);
    }
  }

  /** Some chain of descendants is as long as the depth. */
  lemma {:induction false} LongestChain(kids: Kids, rank: map<string, nat>, n: string) returns (chain: seq<string>)
    requires Acyclic(kids, rank) && n in kids
    ensures IsChain(kids, chain) && chain[0] == n && |chain| - 1 == Depth(kids, rank, n)
    decreases rank[n], |kids[n]| + 1
  {
    chain := LongestThrough(kids, rank, n, |kids[n]|);
  }

  lemma {:induction false} LongestThrough(kids: Kids, rank: map<string, nat>, n: string, k: nat) returns (chain: seq<string>)
    requires Acyclic(kids, rank) && n in kids && k <= |kids[n]|
    ensures IsChain(kids, chain) && chain[0] == n && |chain| - 1 == Deepest(kids, rank, n, k)
    decreases rank[n], k
  {
    if k == 0 {
      chain := [n];
    } else {
      var c := kids[n][k - 1];
      assert c in kids[n];
      chain := LongestThrough(kids, rank, n, k - 1);
      if Depth(kids, rank, c) + 1 > Deepest(kids, rank, n, k - 1) {
        var below := LongestChain(kids, rank, c);
        chain := [n] + below;
      }
    }
  }

  // ---------- Roots ----------

  ghost predicate IsRoot(kids: Kids, n: string) {
    n in kids && forall p <- kids :: n !in kids[p]
  }

  ghost predicate Below(kids: Kids, top: string, n: string) {
    exists chain :: IsChain(kids, chain) && chain[0] == top && chain[|chain| - 1] == n
  }

  /** Every interface is below a root. */
  lemma {:induction false} ReachedFromRoot(kids: Kids, rank: map<string, nat>, n: string, limit: nat) returns (root: string)
    requires Acyclic(kids, rank) && n in kids && forall m <- rank :: rank[m] <= limit
    ensures IsRoot(kids, root) && Below(kids, root, n)
    decreases limit - rank[n]
  {
    if p :| p in kids && n in kids[p] {
      root := ReachedFromRoot(kids, rank, p, limit);
      var chain :| IsChain(kids, chain) && chain[0] == root && chain[|chain| - 1] == p;
      assert IsChain(kids, chain + [n]);
      assert (chain + [n])[0] == root && (chain + [n])[|chain + [n]| - 1] == n;
    } else {
      root := n;
      assert IsChain(kids, [n]);
    }
  }

  lemma {:induction false} Limit(rank: map<string, nat>, names: set<string>) returns (limit: nat)
    requires names <= rank.Keys
    ensures forall m <- names :: rank[m] <= limit
    decreases |names|
  {
    limit := 0;
    if n :| n in names {
      var rest := Limit(rank, names - {n});
      limit := if rank[n] > rest then rank[n] else rest;
      forall m <- names
        ensures rank[m] <= limit
      {
        assert m == n || m in names - {n};
      }
    }
  }

  // ---------- The objects ----------

  class Interface {
    const name: string
    const kind: Kind
    var children: seq<Interface>
    var configDepth: int

    constructor (name: string, kind: Kind)
      ensures this.name == name && this.kind == kind && children == []
    {
      this.name, this.kind := name, kind;
      children, configDepth := [], 0;
    }
  }

  function NamesOf(ifaces: seq<Interface>): (r: seq<string>)
    ensures |r| == |ifaces| && forall i :: 0 <= i < |r| ==> r[i] == ifaces[i].name
  {
    seq(|ifaces|, i requires 0 <= i < |ifaces| => ifaces[i].name)
  }

  function KidsOf(m: map<string, Interface>): (r: Kids)
    reads m.Values
    ensures r.Keys == m.Keys
  {
    map n | n in m :: NamesOf(m[n].children)
  }

  /** Interfaces are filed under their names, and their children are among them. */
  ghost predicate Filed(m: map<string, Interface>)
    reads m.Values
  {
    && (forall n <- m :: m[n].name == n)
    && forall n, c :: n in m && c in m[n].children ==> c.name in m && m[c.name] == c
  }

  lemma {:induction false} BelowStep(kids: Kids, n: string, x: string)
    requires n in kids && Below(kids, n, x)
    ensures x == n || exists c <- kids[n] :: Below(kids, c, x)
  {
    var chain :| IsChain(kids, chain) && chain[0] == n && chain[|chain| - 1] == x;
    if |chain| > 1 {
      assert IsChain(kids, chain[1..]);
      assert Below(kids, chain[1], x) by {
        assert chain[1..][0] == chain[1] && chain[1..][|chain[1..]| - 1] == x;
      }
    }
  }

  function DepthsOf(m: map<string, Interface>): (r: map<string, int>)
    reads m.Values
    ensures r.Keys == m.Keys
  {
    map n | n in m :: m[n].configDepth
  }

  ghost predicate Marked(depths: map<string, int>, kids: Kids, rank: map<string, nat>, n: string)
    requires Acyclic(kids, rank)
  {
    n in depths && n in kids && depths[n] == Depth(kids, rank, n)
  }

  /** Everything below `top` is marked. */
  ghost predicate MarkedBelow(depths: map<string, int>, kids: Kids, rank: map<string, nat>, top: string)
    requires Acyclic(kids, rank)
  {
    forall n <- depths :: Below(kids, top, n) ==> Marked(depths, kids, rank, n)
  }

  /** No mark is lost. */
  ghost predicate OnlyMarks(depths: map<string, int>, depths': map<string, int>, kids: Kids, rank: map<string, nat>)
    requires Acyclic(kids, rank)
  {
    depths'.Keys == depths.Keys && forall n <- depths :: depths'[n] == depths[n] || Marked(depths', kids, rank, n)
  }

  lemma MarksStay(depths: map<string, int>, depths': map<string, int>, kids: Kids, rank: map<string, nat>)
    requires Acyclic(kids, rank) && OnlyMarks(depths, depths', kids, rank)
    ensures forall top :: MarkedBelow(depths, kids, rank, top) ==> MarkedBelow(depths', kids, rank, top)
  {
  }

  /** Everything below the first `i` children of `n` is marked. */
  ghost predicate BelowFirst(depths: map<string, int>, kids: Kids, rank: map<string, nat>, n: string, i: nat)
    requires Acyclic(kids, rank) && n in kids
  {
    i <= |kids[n]| && forall j :: 0 <= j < i ==> MarkedBelow(depths, kids, rank, kids[n][j])
  }

  lemma MarksBelowNext(depths: map<string, int>, depths': map<string, int>, kids: Kids, rank: map<string, nat>, n: string, i: nat)
    requires Acyclic(kids, rank) && n in kids && i < |kids[n]|
    requires OnlyMarks(depths, depths', kids, rank) && BelowFirst(depths, kids, rank, n, i)
    requires MarkedBelow(depths', kids, rank, kids[n][i])
    ensures BelowFirst(depths', kids, rank, n, i + 1)
  {
    hide Below;
    MarksStay(depths, depths', kids, rank);
  }

  /** The interfaces have the children `kids` and the depths `depths`. */
  ghost predicate At(m: map<string, Interface>, kids: Kids, depths: map<string, int>)
    reads m.Values
  {
    Filed(m) && kids == KidsOf(m) && depths == DepthsOf(m)
  }

  lemma ChildIsFiled(m: map<string, Interface>, kids: Kids, depths: map<string, int>, rank: map<string, nat>, iface: Interface)
    requires At(m, kids, depths) && Acyclic(kids, rank) && iface.name in m && m[iface.name] == iface
    ensures iface.name in kids && iface.name in rank && iface.name in depths && |kids[iface.name]| == |iface.children|
    ensures forall i :: 0 <= i < |iface.children| ==>
      var child := iface.children[i];
      && kids[iface.name][i] == child.name && child.name in m && m[child.name] == child
      && child.name in rank && rank[child.name] < rank[iface.name]
  {
    forall i | 0 <= i < |iface.children|
      ensures kids[iface.name][i] == iface.children[i].name && iface.children[i] in m[iface.name].children
    {
      assert kids[iface.name][i] in kids[iface.name];
    }
  }

  method SetConfigDepth(iface: Interface, depth: int, ghost m: map<string, Interface>, ghost kids: Kids, ghost depths: map<string, int>)
    requires At(m, kids, depths) && iface.name in m && m[iface.name] == iface
    modifies iface
    ensures At(m, kids, depths[iface.name := depth])
  {
    iface.configDepth := depth;
  }

  /** `setDepth`: marks `iface` and everything below it, and nothing wrongly. */
  method SetDepth(iface: Interface, ghost m: map<string, Interface>, ghost kids: Kids, ghost rank: map<string, nat>, ghost depths: map<string, int>)
      returns (depth: int, ghost depths': map<string, int>)
    requires At(m, kids, depths) && Acyclic(kids, rank) && iface.name in m && iface.name in kids && m[iface.name] == iface
    modifies m.Values
    ensures depth == Depth(kids, rank, iface.name) + 1
    ensures At(m, kids, depths') && OnlyMarks(depths, depths', kids, rank) && MarkedBelow(depths', kids, rank, iface.name)
    decreases rank[iface.name]
  {
    hide Below, IsChain, At, Marked, MarkedBelow, OnlyMarks, BelowFirst, Depth, Deepest;
    var maxDepth := 0;
    depths' := depths;
    ChildIsFiled(m, kids, depths, rank, iface);
    DepthIsDeepest(kids, rank, iface.name);
    NoMarksYet(depths, kids, rank, iface.name);
    for i := 0 to |iface.children|
      invariant At(m, kids, depths') && OnlyMarks(depths, depths', kids, rank)
      invariant maxDepth == Deepest(kids, rank, iface.name, i)
      invariant BelowFirst(depths', kids, rank, iface.name, i)
    {
      ChildIsFiled(m, kids, depths', rank, iface);
      ghost var before := depths';
      var d;
      d, depths' := SetDepth(iface.children[i], m, kids, rank, before);
      DeepestNext(kids, rank, iface.name, i);
      MarksBelowNext(before, depths', kids, rank, iface.name, i);
      MarksAdd(depths, before, depths', kids, rank);
      if d > maxDepth {
        maxDepth := d;
      }
    }
    ChildIsFiled(m, kids, depths', rank, iface);
    SetConfigDepth(iface, maxDepth, m, kids, depths');
    AllBelow(depths, depths', depths'[iface.name := maxDepth], kids, rank, iface.name);
    depths' := depths'[iface.name := maxDepth];
    depth := maxDepth + 1;
  }

  lemma NoMarksYet(depths: map<string, int>, kids: Kids, rank: map<string, nat>, n: string)
    requires Acyclic(kids, rank) && n in kids
    ensures OnlyMarks(depths, depths, kids, rank) && BelowFirst(depths, kids, rank, n, 0)
  {
  }

  lemma DepthIsDeepest(kids: Kids, rank: map<string, nat>, n: string)
    requires Acyclic(kids, rank) && n in kids
    ensures Depth(kids, rank, n) == Deepest(kids, rank, n, |kids[n]|) && Deepest(kids, rank, n, 0) == 0
  {
  }

  lemma DeepestNext(kids: Kids, rank: map<string, nat>, n: string, k: nat)
    requires Acyclic(kids, rank) && n in kids && k < |kids[n]|
    ensures kids[n][k] in kids && Deepest(kids, rank, n, k + 1)
      == (var d := Depth(kids, rank, kids[n][k]) + 1; if d > Deepest(kids, rank, n, k) then d else Deepest(kids, rank, n, k))
  {
  }

  lemma MarksAdd(a: map<string, int>, b: map<string, int>, c: map<string, int>, kids: Kids, rank: map<string, nat>)
    requires Acyclic(kids, rank) && OnlyMarks(a, b, kids, rank) && OnlyMarks(b, c, kids, rank)
    ensures OnlyMarks(a, c, kids, rank)
  {
  }

  /** Setting the depth of `n` after those of its children completes the marks below it. */
  lemma AllBelow(start: map<string, int>, depths: map<string, int>, depths': map<string, int>, kids: Kids, rank: map<string, nat>, n: string)
    requires Acyclic(kids, rank) && n in kids && n in depths && OnlyMarks(start, depths, kids, rank)
    requires depths' == depths[n := Depth(kids, rank, n)]
    requires BelowFirst(depths, kids, rank, n, |kids[n]|)
    ensures OnlyMarks(start, depths', kids, rank) && MarkedBelow(depths', kids, rank, n)
  {
    assert OnlyMarks(depths, depths', kids, rank);
    MarksStay(depths, depths', kids, rank);
    MarksAdd(start, depths, depths', kids, rank);
    forall x <- depths' | Below(kids, n, x)
      ensures Marked(depths', kids, rank, x)
    {
      BelowStep(kids, n, x);
      if c :| c in kids[n] && Below(kids, c, x) {
        var j :| 0 <= j < |kids[n]| && kids[n][j] == c;
        assert MarkedBelow(depths', kids, rank, kids[n][j]);
      }
    }
  }

  /** The interfaces that are nobody's child. */
  method RootInterfaces(m: map<string, Interface>) returns (roots: map<string, Interface>)
    ensures forall n :: n in roots <==> IsRoot(KidsOf(m), n)
    ensures forall n <- roots :: n in m && roots[n] == m[n]
  {
    ghost var kids := KidsOf(m);
    roots := m;
    var todo := m.Keys;
    while todo != {}
      invariant todo <= m.Keys
      invariant forall n :: n in roots <==> n in m && forall p <- kids :: p in todo || n !in kids[p]
      invariant forall n <- roots :: n in m && roots[n] == m[n]
      decreases todo
    {
      var p :| p in todo;
      todo := todo - {p};
      roots := WithoutChildren(roots, m[p].children);
    }
  }

  method WithoutChildren(all: map<string, Interface>, children: seq<Interface>) returns (roots: map<string, Interface>)
    ensures forall n :: n in roots <==> n in all && n !in NamesOf(children)
    ensures forall n <- roots :: n in all && roots[n] == all[n]
  {
    roots := all;
    for i := 0 to |children|
      invariant forall n :: n in roots <==> n in all && n !in NamesOf(children)[..i]
      invariant forall n <- roots :: n in all && roots[n] == all[n]
    {
      assert NamesOf(children)[..i + 1] == NamesOf(children)[..i] + [children[i].name];
      roots := roots - {children[i].name};
    }
    assert NamesOf(children)[..|children|] == NamesOf(children);
  }

  /** `markConfigDepths`: starting from the interfaces that are nobody's child, every interface
      gets its depth. */
  method MarkConfigDepths(m: map<string, Interface>, ghost kids: Kids, ghost rank: map<string, nat>) returns (ghost depths: map<string, int>)
    requires Filed(m) && kids == KidsOf(m) && Acyclic(kids, rank)
    modifies m.Values
    ensures At(m, kids, depths)
    ensures forall n <- m :: n in kids && n in depths && depths[n] == Depth(kids, rank, n)
  {
    hide Below, IsChain, Depth;
    var roots := RootInterfaces(m);
    depths := MarkRoots(m, roots, kids, rank, DepthsOf(m));
    AllMarked(depths, kids, rank);
  }

  method MarkRoots(m: map<string, Interface>, roots: map<string, Interface>, ghost kids: Kids, ghost rank: map<string, nat>,
                   ghost depths: map<string, int>) returns (ghost depths': map<string, int>)
    requires At(m, kids, depths) && Acyclic(kids, rank) && forall r <- roots :: r in m && roots[r] == m[r]
    modifies m.Values
    ensures At(m, kids, depths') && forall r <- roots :: MarkedBelow(depths', kids, rank, r)
  {
    hide Below, IsChain, At, Marked, MarkedBelow, OnlyMarks, Depth;
    var todo := roots.Keys;
    depths' := depths;
    while todo != {}
      invariant todo <= roots.Keys && At(m, kids, depths')
      invariant forall r <- roots :: r !in todo ==> MarkedBelow(depths', kids, rank, r)
      decreases todo
    {
      var r :| r in todo;
      todo := todo - {r};
      RootIsFiled(m, kids, depths', r);
      ghost var before := depths';
      var d;
      d, depths' := SetDepth(roots[r], m, kids, rank, before);
      MarksStay(before, depths', kids, rank);
    }
  }

  lemma AllMarked(depths: map<string, int>, kids: Kids, rank: map<string, nat>)
    requires Acyclic(kids, rank) && depths.Keys == kids.Keys
    requires forall r :: IsRoot(kids, r) ==> MarkedBelow(depths, kids, rank, r)
    ensures forall n <- depths :: Marked(depths, kids, rank, n)
  {
    var limit := Limit(rank, rank.Keys);
    forall n <- depths
      ensures Marked(depths, kids, rank, n)
    {
      var root := ReachedFromRoot(kids, rank, n, limit);
    }
  }

  lemma RootIsFiled(m: map<string, Interface>, kids: Kids, depths: map<string, int>, r: string)
    requires At(m, kids, depths) && r in m
    ensures m[r].name == r && r in kids
  {
  }

  // ---------- Linking ----------

  /** The interfaces that an interface wants to be a child of. */
  function Parents(kind: Kind): seq<string> {
    match kind
    case Physical => []
    case Bond(slaves) => slaves
    case Vlan(rawDevice) => [rawDevice]
  }

  /** `child`, once for every time that `parents` lists `p`. */
  function Mentions(parents: seq<string>, p: string, child: string): seq<string> {
    if parents == [] then []
    else
      var k := |parents| - 1;
      Mentions(parents[..k], p, child) + if parents[k] == p then [child] else []
  }

  /** The children of `p` among `names`, in order. */
  function ChildrenOf(kinds: map<string, Kind>, names: seq<string>, p: string): seq<string>
    requires forall n <- names :: n in kinds
  {
    if names == [] then []
    else
      var k := |names| - 1;
      ChildrenOf(kinds, names[..k], p) + Mentions(Parents(kinds[names[k]]), p, names[k])
  }

  /** Only physical interfaces and bonds take children. */
  predicate Takes(kinds: map<string, Kind>, p: string) {
    p in kinds && !kinds[p].Vlan?
  }

  function WithChild(kids: Kids, kinds: map<string, Kind>, parents: seq<string>, child: string): Kids {
    map p | p in kids :: kids[p] + if Takes(kinds, p) then Mentions(parents, p, child) else []
  }

  function Linked(kinds: map<string, Kind>, names: seq<string>): (kids: Kids)
    requires forall n <- names :: n in kinds
    ensures kids.Keys == kinds.Keys
  {
    map p | p in kinds :: if Takes(kinds, p) then ChildrenOf(kinds, names, p) else []
  }

  lemma WithNone(kids: Kids, kinds: map<string, Kind>, parents: seq<string>, child: string)
    requires parents == []
    ensures WithChild(kids, kinds, parents, child) == kids
  {
    assert forall p <- kids :: WithChild(kids, kinds, parents, child)[p] == kids[p];
  }

  lemma WithNext(kids: Kids, kinds: map<string, Kind>, parents: seq<string>, child: string, k: nat)
    requires kids.Keys == kinds.Keys && k < |parents|
    ensures var before, p := WithChild(kids, kinds, parents[..k], child), parents[k];
      WithChild(kids, kinds, parents[..k + 1], child) == if p in before && Takes(kinds, p) then before[p := before[p] + [child]] else before
  {
    hide Mentions;
    var before, after, p := WithChild(kids, kinds, parents[..k], child), WithChild(kids, kinds, parents[..k + 1], child), parents[k];
    var expected := if p in before && Takes(kinds, p) then before[p := before[p] + [child]] else before;
    forall q <- kids
      ensures after[q] == expected[q]
    {
      MentionsNext(parents, q, child, k);
    }
    assert after.Keys == expected.Keys;
  }

  lemma MentionsNext(parents: seq<string>, p: string, child: string, k: nat)
    requires k < |parents|
    ensures Mentions(parents[..k + 1], p, child) == Mentions(parents[..k], p, child) + if parents[k] == p then [child] else []
  {
    assert parents[..k + 1][..k] == parents[..k];
  }

  lemma ChildrenNext(kinds: map<string, Kind>, names: seq<string>, p: string, i: nat)
    requires (forall n <- names :: n in kinds) && i < |names|
    ensures ChildrenOf(kinds, names[..i + 1], p)
      == ChildrenOf(kinds, names[..i], p) + Mentions(Parents(kinds[names[i]]), p, names[i])
  {
    assert names[..i + 1][..i] == names[..i];
  }

  lemma LinkedNext(kinds: map<string, Kind>, names: seq<string>, i: nat)
    requires (forall n <- names :: n in kinds) && i < |names|
    ensures Linked(kinds, names[..i + 1]) == WithChild(Linked(kinds, names[..i]), kinds, Parents(kinds[names[i]]), names[i])
  {
    hide Parents, Mentions, ChildrenOf;
    var before, after := Linked(kinds, names[..i]), Linked(kinds, names[..i + 1]);
    var expected := WithChild(before, kinds, Parents(kinds[names[i]]), names[i]);
    forall p <- kinds
      ensures after[p] == expected[p]
    {
      ChildrenNext(kinds, names, p, i);
    }
    assert after.Keys == expected.Keys;
  }

  lemma {:induction false} MentionsAre(parents: seq<string>, p: string, child: string, c: string)
    ensures c in Mentions(parents, p, child) <==> c == child && p in parents
  {
    if parents != [] {
      MentionsAre(parents[..|parents| - 1], p, child, c);
    }
  }

  /** The children of an interface are exactly the ones that name it as a parent. */
  lemma {:induction false} ChildrenAre(kinds: map<string, Kind>, names: seq<string>, p: string, c: string)
    requires forall n <- names :: n in kinds
    ensures c in ChildrenOf(kinds, names, p) <==> c in names && p in Parents(kinds[c])
  {
    if names != [] {
      var k := |names| - 1;
      ChildrenAre(kinds, names[..k], p, c);
      MentionsAre(Parents(kinds[names[k]]), p, names[k], c);
    }
  }

  // ---------- Who is a child of whom ----------

  /** `p` has `c` as a child this often: never for a vlan `p`, once when `c` is a vlan on `p`, and for
      every time that a bond `c` lists `p` among its slaves. */
  ghost predicate HasChild(kinds: map<string, Kind>, kids: Kids, p: string, c: string) {
    p in kinds && c in kinds && p in kids && multiset(kids[p])[c] ==
      if kinds[p].Vlan? then 0
      else match kinds[c] case Physical => 0 case Vlan(rawDevice) => (if rawDevice == p then 1 else 0) case Bond(slaves) => multiset(slaves)[p]
  }

  /** In order of their names. */
  ghost predicate InOrder(children: seq<string>) {
    forall i, j :: 0 <= i < j < |children| ==> children[i] == children[j] || Less(children[i], children[j])
  }

  lemma {:induction false} MentionCount(parents: seq<string>, p: string, child: string, c: string)
    ensures multiset(Mentions(parents, p, child))[c] == if c == child then multiset(parents)[p] else 0
  {
    if parents != [] {
      var k := |parents| - 1;
      assert parents == parents[..k] + [parents[k]];
      MentionCount(parents[..k], p, child, c);
    }
  }

  lemma {:induction false} ChildCount(kinds: map<string, Kind>, names: seq<string>, p: string, c: string)
    requires (forall n <- names :: n in kinds) && Sorted(names)
    ensures multiset(ChildrenOf(kinds, names, p))[c] == if c in names then multiset(Parents(kinds[c]))[p] else 0
  {
    hide Parents, Less;
    if names != [] {
      var k := |names| - 1;
      assert names == names[..k] + [names[k]];
      ChildCount(kinds, names[..k], p, c);
      MentionCount(Parents(kinds[names[k]]), p, names[k], c);
      LessIrreflexive(names[k]);
    }
  }

  lemma {:induction false} ChildrenInOrder(kinds: map<string, Kind>, names: seq<string>, p: string)
    requires (forall n <- names :: n in kinds) && Sorted(names)
    ensures InOrder(ChildrenOf(kinds, names, p))
  {
    hide Parents, Less, Mentions;
    if names != [] {
      var k := |names| - 1;
      ChildrenInOrder(kinds, names[..k], p);
      var front, last := ChildrenOf(kinds, names[..k], p), Mentions(Parents(kinds[names[k]]), p, names[k]);
      forall c <- front
        ensures Less(c, names[k])
      {
        ChildrenAre(kinds, names[..k], p, c);
      }
      forall c <- last
        ensures c == names[k]
      {
        MentionsAre(Parents(kinds[names[k]]), p, names[k], c);
      }
      forall i, j | 0 <= i < j < |front + last|
        ensures (front + last)[i] == (front + last)[j] || Less((front + last)[i], (front + last)[j])
      {
        assert i < |front| ==> front[i] in front;
        assert j >= |front| ==> last[j - |front|] in last;
        assert i >= |front| ==> last[i - |front|] in last;
      }
    }
  }

  lemma LinkedIsNamed(kinds: map<string, Kind>, names: seq<string>, p: string)
    requires Sorted(names) && (forall n :: n in names <==> n in kinds) && p in kinds
    ensures var kids := Linked(kinds, names);
      InOrder(kids[p]) && (forall c <- kids[p] :: c in kinds) && forall c <- kinds :: HasChild(kinds, kids, p, c)
  {
    hide ChildrenOf;
    ChildrenInOrder(kinds, names, p);
    forall c
      ensures c in Linked(kinds, names)[p] ==> c in kinds
      ensures c in kinds ==> HasChild(kinds, Linked(kinds, names), p, c)
    {
      ChildrenAre(kinds, names, p, c);
      ChildCount(kinds, names, p, c);
      assert kinds.Keys == set n | n in kinds;
    }
  }

  /** The interfaces are linked as their kinds say, and in order. */
  ghost predicate LinkedByKind(m: map<string, Interface>)
    reads m.Values
  {
    && (forall p <- m :: InOrder(KidsOf(m)[p]) && forall c <- KidsOf(m)[p] :: c in m)
    && forall p, c :: p in m && c in m ==> HasChild(KindsOf(m), KidsOf(m), p, c)
  }

  lemma KindsLink(m: map<string, Interface>, names: seq<string>)
    requires Sorted(names) && (forall n :: n in names <==> n in m) && KidsOf(m) == Linked(KindsOf(m), names)
    ensures LinkedByKind(m)
  {
    hide HasChild, InOrder, Linked;
    forall p <- m
      ensures InOrder(KidsOf(m)[p]) && (forall c <- KidsOf(m)[p] :: c in m) && forall c <- m :: HasChild(KindsOf(m), KidsOf(m), p, c)
    {
      LinkedIsNamed(KindsOf(m), names, p);
    }
  }

  /** An interface is a child of another exactly when it is a vlan on it, or a bond that has it as a
      slave, and the other is not a vlan. */
  ghost predicate ChildrenByKind(m: map<string, Interface>)
    reads m.Values
  {
    forall p, c :: p in m && c in m ==> (c in KidsOf(m)[p] <==>
      !m[p].kind.Vlan? && (m[c].kind == Vlan(p) || (m[c].kind.Bond? && p in m[c].kind.slaves)))
  }

  lemma ChildIff(m: map<string, Interface>, p: string, c: string)
    requires LinkedByKind(m) && p in m && c in m
    ensures c in KidsOf(m)[p] <==>
      !m[p].kind.Vlan? && (m[c].kind == Vlan(p) || (m[c].kind.Bond? && p in m[c].kind.slaves))
  {
    assert HasChild(KindsOf(m), KidsOf(m), p, c);
    assert c in multiset(KidsOf(m)[p]) <==> c in KidsOf(m)[p];
  }

  function KindsOf(m: map<string, Interface>): (r: map<string, Kind>)
    ensures r.Keys == m.Keys
  {
    map n | n in m :: m[n].kind
  }

  method SortedInterfaces(m: map<string, Interface>) returns (names: seq<string>)
    ensures Sorted(names) && forall n :: n in names <==> n in m
  {
    names := SortedList(m.Keys);
  }

  method AddChild(parent: Interface, child: Interface, ghost m: map<string, Interface>)
    requires Filed(m) && parent.name in m && m[parent.name] == parent && child.name in m && m[child.name] == child
    modifies parent
    ensures Filed(m) && KidsOf(m) == old(KidsOf(m))[parent.name := old(KidsOf(m))[parent.name] + [child.name]]
  {
    ghost var before := KidsOf(m);
    parent.children := parent.children + [child];
    assert NamesOf(parent.children) == before[parent.name] + [child.name];
    assert KidsOf(m) == before[parent.name := before[parent.name] + [child.name]];
  }

  /** Files `iface` under each of its parents that can take it. */
  method LinkTo(iface: Interface, parents: seq<string>, m: map<string, Interface>)
    requires Filed(m) && iface.name in m && m[iface.name] == iface
    modifies m.Values
    ensures Filed(m) && KidsOf(m) == WithChild(old(KidsOf(m)), KindsOf(m), parents, iface.name)
  {
    hide Filed;
    ghost var before := KidsOf(m);
    WithNone(before, KindsOf(m), parents[..0], iface.name);
    for k := 0 to |parents|
      invariant Filed(m) && KidsOf(m) == WithChild(before, KindsOf(m), parents[..k], iface.name)
    {
      WithNext(before, KindsOf(m), parents, iface.name, k);
      if parents[k] in m {
        var parent := m[parents[k]];
        FiledUnder(m, parents[k]);
        if !parent.kind.Vlan? {
          AddChild(parent, iface, m);
        }
      }
    }
    assert parents[..|parents|] == parents;
  }

  lemma FiledUnder(m: map<string, Interface>, n: string)
    requires Filed(m) && n in m
    ensures m[n].name == n
  {
  }

  /** `linkAncestors`: every interface becomes a child of the ones that it names. */
  method LinkAncestors(m: map<string, Interface>) returns (ghost names: seq<string>)
    requires Filed(m) && forall n <- m :: m[n].children == []
    modifies m.Values
    ensures Sorted(names) && forall n :: n in names <==> n in m
    ensures Filed(m) && KidsOf(m) == Linked(KindsOf(m), names) && LinkedByKind(m)
  {
    hide Filed, LinkedByKind;
    var sorted := SortedInterfaces(m);
    names := sorted;
    ghost var kinds := KindsOf(m);
    assert KidsOf(m) == Linked(kinds, names[..0]);
    for i := 0 to |sorted|
      invariant Filed(m) && (forall n <- sorted :: n in kinds) && KidsOf(m) == Linked(kinds, sorted[..i])
    {
      LinkedNext(kinds, sorted, i);
      var iface := m[sorted[i]];
      FiledUnder(m, sorted[i]);
      match iface.kind {
        case Physical =>
          WithNone(KidsOf(m), kinds, Parents(iface.kind), iface.name);
        case Bond(slaves) =>
          LinkTo(iface, slaves, m);
        case Vlan(rawDevice) =>
          LinkTo(iface, [rawDevice], m);
      }
    }
    assert sorted[..|sorted|] == sorted;
    KindsLink(m, names);
  }

  // ---------- Bonds without cycles ----------

  predicate Enslaves(kinds: map<string, Kind>, b: string, s: string) {
    b in kinds && s in kinds && kinds[b].Bond? && kinds[s].Bond? && s in kinds[b].slaves
  }

  ghost predicate BondChain(kinds: map<string, Kind>, chain: seq<string>) {
    forall i :: 0 <= i < |chain| - 1 ==> Enslaves(kinds, chain[i], chain[i + 1])
  }

  /** No bond is, through other bonds, its own slave. */
  ghost predicate NoBondCycle(kinds: map<string, Kind>) {
    forall chain :: BondChain(kinds, chain) && |chain| > 1 ==> chain[0] != chain[|chain| - 1]
  }

  /** Following slaves within a finite set ends at one that has no more. */
  lemma {:induction false} LastSlave(kinds: map<string, Kind>, names: set<string>, chain: seq<string>, seen: set<string>) returns (last: string)
    requires NoBondCycle(kinds) && BondChain(kinds, chain) && chain != []
    requires (forall n :: n in seen <==> n in chain) && seen <= names && |seen| == |chain|
    ensures last in names && forall s <- names :: !Enslaves(kinds, last, s)
    decreases |names - seen|
  {
    last := chain[|chain| - 1];
    if s :| s in names && Enslaves(kinds, last, s) {
      var longer := chain + [s];
      assert BondChain(kinds, longer);
      forall i | 0 <= i < |chain|
        ensures chain[i] != s
      {
        assert BondChain(kinds, longer[i..]);
      }
      assert names - (seen + {s}) == names - seen - {s};
      last := LastSlave(kinds, names, longer, seen + {s});
    }
  }

  /** Without cycles the bonds can be ordered, each before its slaves. */
  lemma {:induction false} Order(kinds: map<string, Kind>, names: set<string>) returns (order: map<string, nat>)
    requires NoBondCycle(kinds)
    ensures order.Keys == names && forall n <- names :: order[n] < |names|
    ensures forall b, s :: b in names && s in names && Enslaves(kinds, b, s) ==> order[b] < order[s]
    decreases |names|
  {
    if first :| first in names {
      var last := LastSlave(kinds, names, [first], {first});
      order := Order(kinds, names - {last});
      order := order[last := |names| - 1];
    } else {
      order := map[];
    }
  }

  /** Without a cycle of bonds there is no cycle of children at all: a vlan has none, and the
      children of a bond are vlans and the bonds that it is a slave of. */
  lemma LinkedIsAcyclic(kinds: map<string, Kind>, names: seq<string>) returns (rank: map<string, nat>)
    requires NoBondCycle(kinds) && forall n :: n in names <==> n in kinds
    ensures Acyclic(Linked(kinds, names), rank)
  {
    var order := Order(kinds, kinds.Keys);
    rank := Ranks(kinds, order);
    hide Enslaves, Ranks, Linked, Child, Acyclic;
    forall n, c | Child(Linked(kinds, names), n, c)
      ensures c in kinds && rank[c] < rank[n]
    {
      ChildRanksLower(kinds, names, order, c, n);
    }
    RanksAscend(Linked(kinds, names), rank);
  }

  predicate Child(kids: Kids, n: string, c: string) {
    n in kids && c in kids[n]
  }

  lemma RanksAscend(kids: Kids, rank: map<string, nat>)
    requires kids.Keys == rank.Keys && forall n, c :: Child(kids, n, c) ==> c in kids && rank[c] < rank[n]
    ensures Acyclic(kids, rank)
  {
    assert forall n, c :: n in kids && c in kids[n] ==> Child(kids, n, c);
  }

  function Ranks(kinds: map<string, Kind>, order: map<string, nat>): (ranks: map<string, nat>)
    requires order.Keys == kinds.Keys
    ensures ranks.Keys == kinds.Keys
  {
    map n | n in kinds ::
      if kinds[n].Physical? then |kinds.Keys| + 1 else if kinds[n].Bond? then order[n] + 1 else 0
  }

  lemma ChildRanksLower(kinds: map<string, Kind>, names: seq<string>, order: map<string, nat>, c: string, n: string)
    requires order.Keys == kinds.Keys && (forall n <- kinds :: order[n] < |kinds.Keys|) && forall n :: n in names <==> n in kinds
    requires forall b, s :: b in kinds && s in kinds && Enslaves(kinds, b, s) ==> order[b] < order[s]
    requires Child(Linked(kinds, names), n, c)
    ensures c in kinds && n in kinds && Ranks(kinds, order)[c] < Ranks(kinds, order)[n]
  {
    ChildrenAre(kinds, names, n, c);
    assert kinds[c].Bond? && kinds[n].Bond? ==> Enslaves(kinds, c, n);
  }

  // ---------- The whole ----------

  /** The longest chain of descendants of `n` has `depth` of them. */
  ghost predicate IsDepth(kids: Kids, n: string, depth: int) {
    && (forall chain :: IsChain(kids, chain) && chain[0] == n ==> |chain| - 1 <= depth)
    && exists chain :: IsChain(kids, chain) && chain[0] == n && |chain| - 1 == depth
  }

  /** `buildInterfaces`, from the map of interfaces on: when no bond is its own slave, every
      interface ends with the length of its longest chain of descendants, however often children
      are shared; so parents are deeper than their children. */
  method BuildInterfaces(m: map<string, Interface>) returns (interfaces: seq<Interface>)
    requires Filed(m) && (forall n <- m :: m[n].children == []) && NoBondCycle(KindsOf(m))
    modifies m.Values
    ensures Sorted(NamesOf(interfaces)) && forall i :: i in interfaces <==> i in m.Values
    ensures (forall n <- NamesOf(interfaces) :: n in m) && KidsOf(m) == Linked(KindsOf(m), NamesOf(interfaces))
    ensures LinkedByKind(m) && ChildrenByKind(m)
    ensures forall n <- m :: IsDepth(KidsOf(m), n, m[n].configDepth)
    ensures forall n, c :: n in m && c in m[n].children ==> c.configDepth < m[n].configDepth
  {
    hide LinkedByKind, ChildrenByKind, Filed, Linked, IsDepth, Acyclic, NoBondCycle, Depth;
    ghost var names := LinkAncestors(m);
    ghost var rank := LinkedIsAcyclic(KindsOf(m), names);
    ghost var kids := KidsOf(m);
    ghost var depths := MarkConfigDepths(m, kids, rank);
    interfaces := Listed(m, names);
    AllDeep(m, kids, depths, rank);
    KindsLink(m, names);
    ChildrenIff(m);
  }

  lemma ChildrenIff(m: map<string, Interface>)
    requires LinkedByKind(m)
    ensures ChildrenByKind(m)
  {
    hide LinkedByKind;
    forall p, c | p in m && c in m
      ensures c in KidsOf(m)[p] <==>
        !m[p].kind.Vlan? && (m[c].kind == Vlan(p) || (m[c].kind.Bond? && p in m[c].kind.slaves))
    {
      ChildIff(m, p, c);
    }
  }

  lemma AllDeep(m: map<string, Interface>, kids: Kids, depths: map<string, int>, rank: map<string, nat>)
    requires At(m, kids, depths) && Acyclic(kids, rank)
    requires forall n <- m :: n in kids && n in depths && depths[n] == Depth(kids, rank, n)
    ensures forall n <- m :: IsDepth(kids, n, m[n].configDepth)
    ensures forall n, c :: n in m && c in m[n].children ==> c.configDepth < m[n].configDepth
  {
    hide Depth, IsDepth, IsChain;
    forall n <- m
      ensures IsDepth(kids, n, m[n].configDepth)
    {
      DepthIsLongest(kids, rank, n);
    }
    forall n, c | n in m && c in m[n].children
      ensures c.configDepth < m[n].configDepth
    {
      var i :| 0 <= i < |m[n].children| && m[n].children[i] == c;
      ChildIsFiled(m, kids, depths, rank, m[n]);
      assert kids[n][i] == c.name;
      ParentIsDeeper(kids, rank, n, c.name);
    }
  }

  method Listed(m: map<string, Interface>, ghost names: seq<string>) returns (interfaces: seq<Interface>)
    requires Filed(m) && Sorted(names) && forall n :: n in names <==> n in m
    ensures NamesOf(interfaces) == names && forall i :: i in interfaces <==> i in m.Values
  {
    var sorted := SortedInterfaces(m);
    SortedUnique(names, sorted);
    interfaces := [];
    for i := 0 to |sorted|
      invariant |interfaces| == i && forall j :: 0 <= j < i ==> interfaces[j] == m[sorted[j]]
    {
      interfaces := interfaces + [m[sorted[i]]];
    }
    forall i <- m.Values
      ensures i in interfaces
    {
      var n :| n in m && m[n] == i;
      var j :| 0 <= j < |sorted| && sorted[j] == n;
      assert interfaces[j] == i;
    }
  }

  lemma DepthIsLongest(kids: Kids, rank: map<string, nat>, n: string)
    requires Acyclic(kids, rank) && n in kids
    ensures IsDepth(kids, n, Depth(kids, rank, n))
  {
    var longest := LongestChain(kids, rank, n);
    forall chain | IsChain(kids, chain) && chain[0] == n
      ensures |chain| - 1 <= Depth(kids, rank, n)
    {
      ChainsAreShorter(kids, rank, chain);
    }
  }
}
