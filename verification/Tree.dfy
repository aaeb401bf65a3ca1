/** Configuration trees: nested maps as read from YAML, and the way layers of them are merged
    (`pkg/util/util.go`, `config/disk.go`) and split (`config/data_funcs.go`, `config/config.go`). */
module Tree {
  import opened Wrappers

  /** Keys, and values that are not maps or slices: strings, and all other scalars. */
  datatype Scalar = Str(s: string) | Other(id: int)

  type Dict = map<Scalar, Tree>

  datatype Tree = Leaf(v: Scalar) | List(items: seq<Tree>) | Map(m: Dict)

  type Path = seq<Scalar>

  // ---------- Merge ----------

  /** `util.Merge`, on trees: maps are merged key by key, anything else is taken from the right. */
  function MergeTree(l: Tree, r: Tree): Tree
    decreases r
  {
    if l.Map? && r.Map? then
      Map(map k | k in l.m.Keys + r.m.Keys ::
        if k !in r.m then l.m[k] else if k !in l.m then r.m[k] else MergeTree(l.m[k], r.m[k]))
    else r
  }

  function Merge(l: Dict, r: Dict): Dict {
    MergeTree(Map(l), Map(r)).m
  }

  lemma MergeAt(l: Dict, r: Dict)
    ensures Merge(l, r).Keys == l.Keys + r.Keys
    ensures forall k <- l.Keys + r.Keys ::
      Merge(l, r)[k] == if k !in r then l[k] else if k !in l then r[k] else MergeTree(l[k], r[k])
  {
  }

  method CopyTree(d: Tree) returns (r: Tree)
    ensures r == d
    decreases d, 1
  {
    match d
    case Map(m) => var c := MapCopy(m); r := Map(c);
    case List(items) => var c := SliceCopy(items); r := List(c);
    case Leaf(_) => r := d;
  }

  method MapCopy(data: Dict) returns (result: Dict)
    ensures result == data
    decreases Map(data), 0
  {
    result := map[];
    var todo := data.Keys;
    while todo != {}
      invariant todo <= data.Keys && result.Keys == data.Keys - todo
      invariant forall k <- result :: result[k] == data[k]
      decreases todo
    {
      var k :| k in todo;
      todo := todo - {k};
      var v := CopyTree(data[k]);
      result := result[k := v];
    }
  }

  method SliceCopy(data: seq<Tree>) returns (result: seq<Tree>)
    ensures result == data
    decreases List(data), 0
  {
    result := [];
    for i := 0 to |data|
      invariant result == data[..i]
    {
      var v := CopyTree(data[i]);
      result := result + [v];
    }
  }

  /** The loop of `util.Merge` over the right map. */
  method MergeLoop(left: Dict, right: Dict) returns (result: Dict)
    ensures result == Merge(left, right)
    decreases Map(right)
  {
    result := MapCopy(left);
    var todo := right.Keys;
    MergeAt(left, right);
    while todo != {}
      invariant todo <= right.Keys && result.Keys == left.Keys + (right.Keys - todo)
      invariant forall k <- result :: result[k] == if k in right && k !in todo then Merge(left, right)[k] else left[k]
      decreases todo
    {
      var k :| k in todo;
      todo := todo - {k};
      var r := right[k];
      if k in left {
        if left[k].Map? && r.Map? {
          var m := MergeLoop(left[k].m, r.m);
          result := result[k := Map(m)];
        } else {
          result := result[k := r];
        }
      } else {
        var c := CopyTree(r);
        result := result[k := c];
      }
    }
  }

  // ---------- The laws of merging ----------

  /** The empty map is a unit on both sides. */
  lemma MergeEmpty(t: Dict)
    ensures Merge(map[], t) == t && Merge(t, map[]) == t
  {
  }

  lemma {:induction false} MergeIdempotent(t: Tree)
    ensures MergeTree(t, t) == t
  {
    if t.Map? {
      forall k <- t.m
        ensures MergeTree(t.m[k], t.m[k]) == t.m[k]
      {
        MergeIdempotent(t.m[k]);
      }
    }
  }

  /** `b` defines everything that `a` does: merging it over `a` gives `b`. */
  ghost predicate Subsumes(b: Tree, a: Tree)
    decreases b
  {
    a.Map? && b.Map? ==> forall k <- a.m :: k in b.m && Subsumes(b.m[k], a.m[k])
  }

  lemma {:induction false} SubsumesIffNoChange(b: Tree, a: Tree)
    ensures MergeTree(a, b) == b <==> Subsumes(b, a)
    decreases b
  {
    if a.Map? && b.Map? {
      MergeAt(a.m, b.m);
      forall k | k in a.m && k in b.m
        ensures MergeTree(a.m[k], b.m[k]) == b.m[k] <==> Subsumes(b.m[k], a.m[k])
      {
        SubsumesIffNoChange(b.m[k], a.m[k]);
      }
      var ab := MergeTree(a, b);
      if ab == b {
        forall k <- a.m
          ensures k in b.m && Subsumes(b.m[k], a.m[k])
        {
          assert k in ab.m;
        }
      }
      if Subsumes(b, a) {
        assert ab.m.Keys == b.m.Keys;
        assert ab.m == b.m;
      }
    }
  }

  /** At no place does a non-map stand between two maps, unless the outer map adds nothing. */
  ghost predicate Associates(a: Tree, b: Tree, c: Tree)
    decreases c
  {
    if a.Map? && c.Map? then
      if b.Map? then forall k :: k in a.m && k in b.m && k in c.m ==> Associates(a.m[k], b.m[k], c.m[k])
      else Subsumes(c, a)
    else true
  }

  /** Grouping layers differently gives the same tree in exactly these cases. */
  lemma {:induction false} MergeAssociates(a: Tree, b: Tree, c: Tree)
    ensures MergeTree(a, MergeTree(b, c)) == MergeTree(MergeTree(a, b), c) <==> Associates(a, b, c)
    decreases c
  {
    if a.Map? && c.Map? {
      if b.Map? {
        MergeAt(a.m, b.m);
        MergeAt(b.m, c.m);
        var l, r := MergeTree(a, MergeTree(b, c)), MergeTree(MergeTree(a, b), c);
        MergeAt(a.m, MergeTree(b, c).m);
        MergeAt(MergeTree(a, b).m, c.m);
        assert l.m.Keys == r.m.Keys;
        forall k <- l.m
          ensures k in a.m && k in b.m && k in c.m ==> (l.m[k] == r.m[k] <==> Associates(a.m[k], b.m[k], c.m[k]))
          ensures !(k in a.m && k in b.m && k in c.m) ==> l.m[k] == r.m[k]
        {
          if k in a.m && k in b.m && k in c.m {
            MergeAssociates(a.m[k], b.m[k], c.m[k]);
          }
        }
        assert l == r <==> l.m == r.m;
      } else {
        SubsumesIffNoChange(c, a);
      }
    }
  }

  /** A scalar between two maps is such a case. */
  lemma MergeNotAssociative(k: Scalar, x: Scalar, v: Tree, scalar: Scalar)
    ensures var a, b, c := map[k := Map(map[x := v])], map[k := Leaf(scalar)], map[k := Map(map[])];
      Merge(a, Merge(b, c)) == map[k := Map(map[x := v])] && Merge(Merge(a, b), c) == map[k := Map(map[])]
  {
    var a, b, c := map[k := Map(map[x := v])], map[k := Leaf(scalar)], map[k := Map(map[])];
    MergeAt(b, c);
    MergeAt(a, b);
    assert Merge(b, c) == c && Merge(a, b) == b;
    MergeAt(a, c);
    MergeEmpty(map[x := v]);
    assert Merge(a, c)[k] == MergeTree(a[k], c[k]);
    assert Merge(a, c) == a;
  }

  /** Two trees agree, at every path they share, on being a map or not. */
  ghost predicate Agree(a: Tree, b: Tree)
    decreases b
  {
    a.Map? == b.Map? && (a.Map? ==> forall k :: k in a.m && k in b.m ==> Agree(a.m[k], b.m[k]))
  }

  lemma {:induction false} AgreeAssociates(a: Tree, b: Tree, c: Tree)
    requires Agree(a, b) && Agree(b, c)
    ensures Associates(a, b, c)
    decreases c
  {
    if a.Map? && c.Map? {
      forall k | k in a.m && k in b.m && k in c.m
        ensures Associates(a.m[k], b.m[k], c.m[k])
      {
        AgreeAssociates(a.m[k], b.m[k], c.m[k]);
      }
    }
  }

  lemma {:induction false} AgreeMerge(a: Tree, b: Tree, c: Tree)
    requires Agree(a, c) && Agree(b, c) && Agree(a, b)
    ensures Agree(MergeTree(a, b), c)
    decreases c
  {
    if c.Map? {
      MergeAt(a.m, b.m);
      forall k | k in MergeTree(a, b).m && k in c.m
        ensures Agree(MergeTree(a, b).m[k], c.m[k])
      {
        if k in a.m && k in b.m {
          AgreeMerge(a.m[k], b.m[k], c.m[k]);
        }
      }
    }
  }

  /** Layers merged from the first to the last, as in `readConfigs`. */
  function MergeAll(layers: seq<Dict>): Dict {
    if layers == [] then map[] else Merge(MergeAll(layers[..|layers| - 1]), layers[|layers| - 1])
  }

  ghost predicate AllAgree(layers: seq<Dict>) {
    forall x, y :: x in layers && y in layers ==> Agree(Map(x), Map(y))
  }

  lemma {:induction false} MergeAllAgrees(layers: seq<Dict>, c: Dict)
    requires AllAgree(layers) && forall l <- layers :: Agree(Map(l), Map(c))
    ensures Agree(Map(MergeAll(layers)), Map(c))
  {
    if layers != [] {
      var front, last := layers[..|layers| - 1], layers[|layers| - 1];
      assert forall l <- front :: l in layers;
      MergeAllAgrees(front, c);
      MergeAllAgrees(front, last);
      AgreeMerge(Map(MergeAll(front)), Map(last), Map(c));
    }
  }

  /** Grouping of agreeing layers is irrelevant: merging two merged groups is merging them all. */
  lemma {:induction false} GroupingIrrelevant(a: seq<Dict>, b: seq<Dict>)
    requires AllAgree(a + b)
    ensures Merge(MergeAll(a), MergeAll(b)) == MergeAll(a + b)
    decreases |b|
  {
    if b == [] {
      assert a + b == a;
    } else {
      var front, last := b[..|b| - 1], b[|b| - 1];
      assert (a + b)[..|a + b| - 1] == a + front;
      assert forall x :: x in a || x in front || x == last ==> x in a + b;
      GroupingIrrelevant(a, front);
      GroupsAgree(a, front);
      MergeAllAgrees(front, last);
      AgreeAssociates(Map(MergeAll(a)), Map(MergeAll(front)), Map(last));
      MergeAssociates(Map(MergeAll(a)), Map(MergeAll(front)), Map(last));
    }
  }

  lemma GroupsAgree(a: seq<Dict>, b: seq<Dict>)
    requires AllAgree(a + b)
    ensures Agree(Map(MergeAll(a)), Map(MergeAll(b)))
  {
    assert forall x :: x in a || x in b ==> x in a + b;
    forall l <- b
      ensures Agree(Map(l), Map(MergeAll(a)))
    {
      MergeAllAgrees(a, l);
      AgreeSymmetric(Map(MergeAll(a)), Map(l));
    }
    MergeAllAgrees(b, MergeAll(a));
    AgreeSymmetric(Map(MergeAll(b)), Map(MergeAll(a)));
  }

  lemma {:induction false} AgreeSymmetric(a: Tree, b: Tree)
    requires Agree(a, b)
    ensures Agree(b, a)
    decreases b
  {
    if a.Map? {
      forall k | k in a.m && k in b.m
        ensures Agree(b.m[k], a.m[k])
      {
        AgreeSymmetric(a.m[k], b.m[k]);
      }
    }
  }

  // ---------- What a merged tree says at a path ----------

  /** The value at a path, if a path of maps leads there and it is not a map itself. */
  function LeafAt(t: Tree, p: Path): Option<Tree>
    decreases |p|
  {
    if p == [] then (if t.Map? then None else Some(t))
    else if t.Map? && p[0] in t.m then LeafAt(t.m[p[0]], p[1..])
    else None
  }

  /** The tree has something at the path or on the way to it that is not a map leading there. */
  predicate Speaks(t: Tree, p: Path)
    decreases |p|
  {
    p == [] || !t.Map? || (p[0] in t.m && Speaks(t.m[p[0]], p[1..]))
  }

  lemma {:induction false} SilentHasNoLeaf(t: Tree, p: Path)
    requires !Speaks(t, p)
    ensures LeafAt(t, p) == None
    decreases |p|
  {
    if p[0] in t.m {
      SilentHasNoLeaf(t.m[p[0]], p[1..]);
    }
  }

  /** The right tree decides wherever it speaks; elsewhere the left one does. */
  lemma {:induction false} MergedLeaf(l: Tree, r: Tree, p: Path)
    requires l.Map? && r.Map? && p != []
    ensures LeafAt(MergeTree(l, r), p) == if Speaks(r, p) then LeafAt(r, p) else LeafAt(l, p)
    decreases |p|
  {
    var k, rest := p[0], p[1..];
    MergeAt(l.m, r.m);
    if k in l.m && k in r.m && rest != [] && l.m[k].Map? && r.m[k].Map? {
      MergedLeaf(l.m[k], r.m[k], rest);
    } else if k in r.m && !Speaks(r.m[k], rest) {
      SilentHasNoLeaf(r.m[k], rest);
    }
  }

  /** No map below the top is empty. */
  ghost predicate Solid(t: Tree) {
    t.Map? ==> forall k <- t.m :: t.m[k] != Map(map[]) && Solid(t.m[k])
  }

  lemma {:induction false} SomeLeaf(t: Tree) returns (p: Path)
    requires Solid(t) && t != Map(map[])
    ensures LeafAt(t, p).Some?
  {
    if t.Map? {
      var k :| k in t.m;
      var q := SomeLeaf(t.m[k]);
      p := [k] + q;
    } else {
      p := [];
    }
  }

  /** Without empty maps, a tree is determined by its leaves. */
  lemma {:induction false} LeavesDetermine(a: Dict, b: Dict)
    requires Solid(Map(a)) && Solid(Map(b)) && forall p :: LeafAt(Map(a), p) == LeafAt(Map(b), p)
    ensures a == b
    decreases Map(a)
  {
    forall k
      ensures k in a <==> k in b
    {
      SameKey(a, b, k);
      SameKey(b, a, k);
    }
    forall k <- a
      ensures a[k] == b[k]
    {
      forall p
        ensures LeafAt(a[k], p) == LeafAt(b[k], p)
      {
        assert LeafAt(Map(a), [k] + p) == LeafAt(Map(b), [k] + p);
      }
      assert LeafAt(a[k], []) == LeafAt(b[k], []);
      if a[k].Map? {
        LeavesDetermine(a[k].m, b[k].m);
      }
    }
  }

  lemma SameKey(a: Dict, b: Dict, k: Scalar)
    requires Solid(Map(a)) && forall p :: LeafAt(Map(a), p) == LeafAt(Map(b), p)
    ensures k in a ==> k in b
  {
    if k in a {
      var p := SomeLeaf(a[k]);
      assert LeafAt(Map(a), [k] + p).Some?;
      assert LeafAt(Map(b), [k] + p).Some?;
    }
  }

  /** Each leaf of merged layers comes from the last layer that says anything about its path. */
  lemma {:induction false} LastLayerWins(layers: seq<Dict>, p: Path, i: nat)
    requires p != [] && i < |layers| && Speaks(Map(layers[i]), p)
    requires forall j :: i < j < |layers| ==> !Speaks(Map(layers[j]), p)
    ensures LeafAt(Map(MergeAll(layers)), p) == LeafAt(Map(layers[i]), p)
    decreases |layers|
  {
    var front, last := layers[..|layers| - 1], layers[|layers| - 1];
    MergedLeaf(Map(MergeAll(front)), Map(last), p);
    if i < |front| {
      LastLayerWins(front, p, i);
    }
  }

  // ---------- Reading the layers of a configuration ----------

  /** What reading one file (or the given bytes) yields: nothing, an error while reading, parsing
      or converting it, or a configuration. */
  datatype Source = Nothing | Broken | Config(m: Dict)

  function Configs(sources: seq<Source>): seq<Dict> {
    if sources == [] then []
    else Configs(sources[..|sources| - 1]) + if sources[|sources| - 1].Config? then [sources[|sources| - 1].m] else []
  }

  /** `readConfigs`: with `returnErr` the first broken source ends it, otherwise it is skipped. */
  method ReadConfigs(bytes: Source, returnErr: bool, files: seq<Source>) returns (r: Option<Dict>)
    ensures r.None? <==> returnErr && Broken in files + [bytes]
    ensures r.Some? ==> r.value == MergeAll(Configs(files + [bytes]))
  {
    var left: Dict := map[];
    for i := 0 to |files|
      invariant left == MergeAll(Configs(files[..i]))
      invariant returnErr ==> Broken !in files[..i]
    {
      assert files[..i + 1] == files[..i] + [files[i]];
      SkippedSource(files[..i], files[i]);
      match files[i]
      case Broken =>
        if returnErr {
          return None;
        }
      case Nothing =>
      case Config(right) =>
        MergedConfigs(files[..i], right);
        left := MergeLoop(left, right);
    }
    assert files[..|files|] == files;
    SkippedSource(files, bytes);
    match bytes {
      case Nothing =>
      case Broken =>
        if returnErr {
          return None;
        }
      case Config(right) =>
        MergedConfigs(files, right);
        left := MergeLoop(left, right);
    }
    r := Some(left);
  }

  /** The configurations are those of the readable sources, in order. */
  lemma ConfigsOf(before: seq<Source>, source: Source, after: seq<Source>)
    ensures Configs([]) == []
    ensures Configs(before + [source] + after) == Configs(before) + (match source case Config(m) => [m] case _ => []) + Configs(after)
  {
    ConfigsConcat(before + [source], after);
    ConfigsConcat(before, [source]);
    assert [source][..0] == [];
  }

  lemma SkippedSource(sources: seq<Source>, s: Source)
    ensures !s.Config? ==> Configs(sources + [s]) == Configs(sources)
  {
    assert (sources + [s])[..|sources|] == sources;
  }

  lemma MergedConfigs(sources: seq<Source>, m: Dict)
    ensures MergeAll(Configs(sources + [Config(m)])) == Merge(MergeAll(Configs(sources)), m)
  {
    var all := sources + [Config(m)];
    assert all[..|all| - 1] == sources;
    var configs := Configs(sources) + [m];
    assert configs[..|configs| - 1] == Configs(sources);
  }

  /** `loadRawDiskConfig`: the built-in files are read only for a full configuration, and what
      the other files say is merged over them. */
  method LoadRawDiskConfig(full: bool, builtIn: seq<Source>, others: seq<Source>) returns (r: Dict)
    ensures r == Merge(if full then MergeAll(Configs(builtIn)) else map[], MergeAll(Configs(others)))
    ensures full && AllAgree(Configs(builtIn + others)) ==> r == MergeAll(Configs(builtIn + others))
  {
    var rawCfg: Dict := map[];
    if full {
      var read := ReadConfigs(Nothing, false, builtIn);
      rawCfg := read.value;
    }
    var additional := ReadConfigs(Nothing, false, others);
    r := MergeLoop(rawCfg, additional.value);
    SkippedSource(builtIn, Nothing);
    SkippedSource(others, Nothing);
    ConfigsConcat(builtIn, others);
    if full && AllAgree(Configs(builtIn + others)) {
      GroupingIrrelevant(Configs(builtIn), Configs(others));
    }
  }

  lemma {:induction false} ConfigsConcat(a: seq<Source>, b: seq<Source>)
    ensures Configs(a + b) == Configs(a) + Configs(b)
    decreases |b|
  {
    if b == [] {
      assert a + b == a;
    } else {
      assert (a + b)[..|a + b| - 1] == a + b[..|b| - 1];
      ConfigsConcat(a, b[..|b| - 1]);
    }
  }

  // ---------- filterKey ----------

  /** `filterKey`: the part of `data` selected by the key path, and the rest. */
  function FilterKey(data: Dict, key: Path): (Dict, Dict)
    decreases |key|
  {
    if key == [] then (data, map[])
    else
      var k := key[0];
      if k !in data then (map[], data)
      else if !data[k].Map? then (map[k := data[k]], data - {k})
      else
        var (f, r) := FilterKey(data[k].m, key[1..]);
        (if f != map[] then map[k := Map(f)] else map[], if r != map[] then data[k := Map(r)] else data - {k})
  }

  method FilterKeyInPlace(data: Dict, key: Path) returns (filtered: Dict, rest: Dict)
    ensures (filtered, rest) == FilterKey(data, key)
    decreases |key|
  {
    if |key| == 0 {
      return data, map[];
    }
    filtered := map[];
    rest := MapCopy(data);
    var k := key[0];
    if k in data {
      match data[k]
      case Map(d) =>
        var f, r := FilterKeyInPlace(d, key[1..]);
        if f != map[] {
          filtered := filtered[k := Map(f)];
        }
        if r != map[] {
          rest := rest[k := Map(r)];
        } else {
          rest := rest - {k};
        }
      case _ =>
        filtered := filtered[k := data[k]];
        rest := rest - {k};
    }
  }

  /** No empty map is met on the way down the key path. */
  ghost predicate NoEmptyMapOn(data: Dict, key: Path)
    decreases |key|
  {
    key == [] || key[0] !in data || !data[key[0]].Map?
    || (data[key[0]].m != map[] && NoEmptyMapOn(data[key[0]].m, key[1..]))
  }

  lemma {:induction false} PartsAreNotLost(data: Dict, key: Path)
    ensures var (f, r) := FilterKey(data, key); f == map[] && r == map[] && data != map[] ==> !NoEmptyMapOn(data, key)
    decreases |key|
  {
    if key != [] && key[0] in data && data[key[0]].Map? {
      PartsAreNotLost(data[key[0]].m, key[1..]);
    }
  }

  /** The two parts make up the whole again, exactly when no empty map is met on the way. */
  lemma {:induction false} FilterConserves(data: Dict, key: Path)
    ensures var (f, r) := FilterKey(data, key); Merge(r, f) == data <==> NoEmptyMapOn(data, key)
    decreases |key|
  {
    var (f, r) := FilterKey(data, key);
    MergeAt(r, f);
    if key != [] && key[0] in data && data[key[0]].Map? {
      var k, d := key[0], data[key[0]].m;
      var (f', r') := FilterKey(d, key[1..]);
      FilterConserves(d, key[1..]);
      PartsAreNotLost(d, key[1..]);
      MergeEmpty(f');
      MergeEmpty(r');
      if f' != map[] || r' != map[] {
        assert k in Merge(r, f) && Merge(r, f)[k] == Map(Merge(r', f'));
        assert Merge(r, f) == data[k := Map(Merge(r', f'))];
        assert Merge(r, f) == data <==> Merge(r', f') == d;
      } else {
        assert k !in Merge(r, f);
      }
    }
  }

  /** A path that lies under the key, or that the key runs through. */
  predicate Comparable(p: Path, key: Path) {
    p <= key || key <= p
  }

  /** An empty map at the end of the key is such a case. */
  lemma FilterLosesEmptyMap(k: Scalar)
    ensures var (f, r) := FilterKey(map[k := Map(map[])], [k]); Merge(r, f) == map[]
  {
    assert [k][1..] == [];
    assert FilterKey(map[], []) == (map[], map[]);
    assert FilterKey(map[k := Map(map[])], [k]) == (map[], map[]);
    MergeEmpty(map[]);
  }

  /** Each leaf goes to one of the parts: those at or under the key, and a non-map that the key
      runs into, are filtered; all others stay. */
  lemma {:induction false} FilterSplitsLeaves(data: Dict, key: Path, p: Path)
    requires p != []
    ensures var (f, r) := FilterKey(data, key);
      && LeafAt(Map(f), p) == (if Comparable(p, key) then LeafAt(Map(data), p) else None)
      && LeafAt(Map(r), p) == (if Comparable(p, key) then None else LeafAt(Map(data), p))
    decreases |key|
  {
    if key != [] {
      var k := key[0];
      var (f, r) := FilterKey(data, key);
      if p[0] == k {
        assert Comparable(p, key) <==> Comparable(p[1..], key[1..]) by {
          assert p == [k] + p[1..] && key == [k] + key[1..];
        }
        if k in data && data[k].Map? && |p| > 1 {
          FilterSplitsLeaves(data[k].m, key[1..], p[1..]);
        }
      }
    }
  }

  // ---------- Filtering out a list of keys ----------

  function Prune(data: Dict, key: Path): Dict {
    FilterKey(data, key).1
  }

  /** `filterPrivateKeys` and `filterAdditional`. */
  function PruneAll(data: Dict, keys: seq<Path>): Dict
    decreases |keys|
  {
    if keys == [] then data else PruneAll(Prune(data, keys[0]), keys[1..])
  }

  method FilterKeys(input: Dict, keys: seq<Path>) returns (data: Dict)
    ensures data == PruneAll(input, keys)
  {
    data := input;
    for i := 0 to |keys|
      invariant PruneAll(input, keys) == PruneAll(data, keys[i..])
    {
      assert keys[i..][0] == keys[i] && keys[i..][1..] == keys[i + 1..];
      var _, rest := FilterKeyInPlace(data, keys[i]);
      data := rest;
    }
  }

  /** Exactly the leaves at or under a listed key, and non-maps that a key runs into, are gone. */
  lemma {:induction false} PrunedLeaves(data: Dict, keys: seq<Path>, p: Path)
    requires p != []
    ensures LeafAt(Map(PruneAll(data, keys)), p)
      == if exists key <- keys :: Comparable(p, key) then None else LeafAt(Map(data), p)
    decreases |keys|
  {
    if keys != [] {
      FilterSplitsLeaves(data, keys[0], p);
      PrunedLeaves(Prune(data, keys[0]), keys[1..], p);
      assert forall key :: key in keys <==> key == keys[0] || key in keys[1..];
    }
  }

  lemma {:induction false} PrunesCommute(data: Dict, key: Path, key': Path)
    ensures Prune(Prune(data, key), key') == Prune(Prune(data, key'), key)
    decreases |key|
  {
    if key != [] && key' != [] && key[0] == key'[0] && key[0] in data && data[key[0]].Map? {
      PrunesCommute(data[key[0]].m, key[1..], key'[1..]);
      PruneOfEmpty(key[1..]);
      PruneOfEmpty(key'[1..]);
    }
  }

  lemma PruneOfEmpty(key: Path)
    ensures Prune(map[], key) == map[]
  {
  }

  /** The order in which the keys are listed does not matter, for any tree. */
  lemma {:induction false} PruneOrderIrrelevant(data: Dict, keys: seq<Path>, keys': seq<Path>)
    requires multiset(keys) == multiset(keys')
    ensures PruneAll(data, keys) == PruneAll(data, keys')
    decreases |keys|
  {
    if keys == [] {
      assert |multiset(keys')| == 0;
    } else {
      var key := keys[0];
      assert keys == [key] + keys[1..];
      assert key in multiset(keys');
      var i :| 0 <= i < |keys'| && keys'[i] == key;
      var rest := keys'[..i] + keys'[i + 1..];
      assert keys' == keys'[..i] + [key] + keys'[i + 1..];
      assert multiset(keys') == multiset(keys'[..i]) + multiset{key} + multiset(keys'[i + 1..]);
      assert multiset(rest) == multiset(keys'[..i]) + multiset(keys'[i + 1..]);
      assert multiset(keys) == multiset{key} + multiset(keys[1..]);
      assert multiset(keys[1..]) == multiset(keys) - multiset{key} == multiset(rest);
      PruneFirst(data, keys'[..i], key, keys'[i + 1..]);
      PruneOrderIrrelevant(Prune(data, key), keys[1..], rest);
    }
  }

  lemma {:induction false} PruneFirst(data: Dict, before: seq<Path>, key: Path, after: seq<Path>)
    ensures PruneAll(data, before + [key] + after) == PruneAll(Prune(data, key), before + after)
    decreases |before|
  {
    if before == [] {
      assert [] + [key] + after == [key] + after && [] + after == after;
    } else {
      var all, rest := before + [key] + after, before + after;
      assert all[1..] == before[1..] + [key] + after && rest[1..] == before[1..] + after;
      PruneFirst(Prune(data, before[0]), before[1..], key, after);
      PrunesCommute(data, before[0], key);
    }
  }
}
