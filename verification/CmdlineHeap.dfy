/** The in-place code of `config/cmdline/cmdline.go`. Go's maps are references, so the nested maps
    live in a store of nodes; a cursor is the index of a node. */
module CmdlineHeap {
  import opened Tree
  import opened Cmdline
  import opened Text
  import opened Wrappers

  /** An entry of a map: a reference to another map, or a value that is not a map. */
  datatype Cell = Plain(t: Tree) | Ref(at: nat)

  type Nodes = seq<map<Scalar, Cell>>

  /** Maps refer only to maps that were made later. */
  ghost predicate Valid(nodes: Nodes) {
    forall i, k :: 0 <= i < |nodes| && k in nodes[i] ==> ValidCell(nodes, i, nodes[i][k])
  }

  ghost predicate ValidCell(nodes: Nodes, i: nat, c: Cell) {
    match c
    case Plain(t) => !t.Map?
    case Ref(j) => i < j < |nodes|
  }

  /** The tree that a map stands for. */
  ghost function Abs(nodes: Nodes, i: nat): (d: Dict)
    requires Valid(nodes) && i < |nodes|
    ensures d.Keys == nodes[i].Keys
    decreases |nodes| - i
  {
    map k | k in nodes[i] ::
      assert ValidCell(nodes, i, nodes[i][k]); if nodes[i][k].Plain? then nodes[i][k].t else Map(Abs(nodes, nodes[i][k].at))
  }

  ghost function AbsCell(nodes: Nodes, c: Cell): Tree
    requires Valid(nodes) && (c.Ref? ==> c.at < |nodes|)
  {
    if c.Plain? then c.t else Map(Abs(nodes, c.at))
  }

  /** Among the maps from `lo` on, each has at most one reference: nothing is shared. */
  ghost predicate Unshared(nodes: Nodes, lo: nat) {
    forall i, k, j, l ::
      (lo <= i < |nodes| && lo <= j < |nodes| && k in nodes[i] && l in nodes[j] && nodes[i][k].Ref? && nodes[i][k] == nodes[j][l])
      ==> i == j && k == l
  }

  lemma NothingShared(nodes: Nodes)
    ensures Unshared(nodes, |nodes|)
  {
  }

  /** `c` can be reached from `a`. */
  ghost predicate Above(nodes: Nodes, a: nat, c: nat)
    decreases c
  {
    a == c || exists p: nat, k :: Parent(nodes, p, k, c) && a <= p && Above(nodes, a, p)
  }

  ghost predicate Parent(nodes: Nodes, p: nat, k: Scalar, c: nat) {
    p < c && p < |nodes| && k in nodes[p] && nodes[p][k] == Ref(c)
  }

  lemma {:induction false} AboveStep(nodes: Nodes, i: nat, k: Scalar, j: nat, c: nat)
    requires Parent(nodes, i, k, j) && Above(nodes, j, c)
    ensures Above(nodes, i, c)
    decreases c
  {
    if c == j {
      assert Above(nodes, i, i);
    } else {
      var p: nat, l :| Parent(nodes, p, l, c) && j <= p && Above(nodes, j, p);
      AboveStep(nodes, i, k, j, p);
    }
  }

  /** Two maps that hang off one map have nothing below them in common. */
  lemma {:induction false} Apart(nodes: Nodes, lo: nat, i: nat, k: Scalar, j: nat, k': Scalar, j': nat, c: nat)
    requires Unshared(nodes, lo) && lo <= i && j != j'
    requires Parent(nodes, i, k, j) && Parent(nodes, i, k', j')
    requires Above(nodes, j, c)
    ensures !Above(nodes, j', c)
    decreases c
  {
    if Above(nodes, j', c) && c != j && c != j' {
      var p: nat, l :| Parent(nodes, p, l, c) && j <= p && Above(nodes, j, p);
      var p': nat, l' :| Parent(nodes, p', l', c) && j' <= p' && Above(nodes, j', p');
      assert nodes[p][l] == nodes[p'][l'];
      Apart(nodes, lo, i, k, j, k', j', p);
    }
  }

  /** The store has only changed at `c`, and by making new maps. */
  ghost predicate ChangedAt(nodes: Nodes, nodes': Nodes, c: nat) {
    |nodes| <= |nodes'| && forall i :: 0 <= i < |nodes| && i != c ==> nodes'[i] == nodes[i]
  }

  /** A map from which `c` cannot be reached still stands for the same tree. */
  lemma {:induction false} Unaffected(nodes: Nodes, nodes': Nodes, c: nat, i: nat)
    requires Valid(nodes) && Valid(nodes') && ChangedAt(nodes, nodes', c)
    requires i < |nodes| && !Above(nodes, i, c)
    ensures Abs(nodes', i) == Abs(nodes, i)
    decreases |nodes| - i
  {
    assert i != c;
    forall k <- nodes[i]
      ensures Abs(nodes', i)[k] == Abs(nodes, i)[k]
    {
      assert ValidCell(nodes, i, nodes[i][k]);
      if nodes[i][k].Ref? {
        var j := nodes[i][k].at;
        if Above(nodes, j, c) {
          AboveStep(nodes, i, k, j, c);
        }
        Unaffected(nodes, nodes', c, j);
      }
    }
  }

  /** Making new maps affects none of the old ones. */
  lemma Grown(nodes: Nodes, nodes': Nodes, i: nat)
    requires Valid(nodes) && Valid(nodes') && nodes <= nodes' && i < |nodes|
    ensures Abs(nodes', i) == Abs(nodes, i)
  {
    assert !Above(nodes, i, |nodes|) by {
      forall p: nat, k
        ensures !Parent(nodes, p, k, |nodes|)
      {
        assert p < |nodes| && k in nodes[p] ==> ValidCell(nodes, p, nodes[p][k]);
      }
    }
    Unaffected(nodes, nodes', |nodes|, i);
  }

  /** Writing an entry of a map changes that entry of its tree. */
  lemma WriteEntry(nodes: Nodes, nodes': Nodes, c: nat, key: Scalar, cell: Cell)
    requires Valid(nodes) && Valid(nodes') && ChangedAt(nodes, nodes', c)
    requires c < |nodes| && nodes'[c] == nodes[c][key := cell]
    ensures cell.Ref? ==> cell.at < |nodes'|
    ensures Abs(nodes', c) == Abs(nodes, c)[key := AbsCell(nodes', cell)]
  {
    assert ValidCell(nodes', c, nodes'[c][key]);
    forall k <- nodes[c] | k != key
      ensures Abs(nodes', c)[k] == Abs(nodes, c)[k]
    {
      assert ValidCell(nodes, c, nodes[c][k]);
      if nodes[c][k].Ref? {
        var j := nodes[c][k].at;
        assert !Above(nodes, j, c);
        Unaffected(nodes, nodes', c, j);
      }
    }
  }

  /** The keys `p` lead from the map `r` to the map `c`. */
  ghost predicate Leads(nodes: Nodes, r: nat, p: seq<string>, c: nat)
    decreases |p|
  {
    if p == [] then r == c
    else r < |nodes| && Str(p[0]) in nodes[r] && nodes[r][Str(p[0])].Ref? &&
         Leads(nodes, nodes[r][Str(p[0])].at, p[1..], c)
  }

  lemma {:induction false} LeadsFurther(nodes: Nodes, r: nat, p: seq<string>, c: nat, key: string, j: nat)
    requires Leads(nodes, r, p, c) && c < |nodes| && Str(key) in nodes[c] && nodes[c][Str(key)] == Ref(j)
    ensures Leads(nodes, r, p + [key], j)
    decreases |p|
  {
    if p == [] {
      assert (p + [key])[1..] == [];
    } else {
      assert (p + [key])[1..] == p[1..] + [key];
      LeadsFurther(nodes, nodes[r][Str(p[0])].at, p[1..], c, key, j);
    }
  }

  lemma {:induction false} LeadsAbove(nodes: Nodes, r: nat, p: seq<string>, c: nat)
    requires Valid(nodes) && r < |nodes| && Leads(nodes, r, p, c)
    ensures r <= c < |nodes| && Above(nodes, r, c)
    decreases |p|
  {
    if p != [] {
      assert ValidCell(nodes, r, nodes[r][Str(p[0])]);
      var j := nodes[r][Str(p[0])].at;
      LeadsAbove(nodes, j, p[1..], c);
      AboveStep(nodes, r, Str(p[0]), j, c);
    }
  }

  lemma OtherEntries(nodes: Nodes, nodes': Nodes, lo: nat, r: nat, k: Scalar, j: nat, c: nat)
    requires Valid(nodes) && Valid(nodes') && Unshared(nodes, lo) && lo <= r && ChangedAt(nodes, nodes', c)
    requires Parent(nodes, r, k, j) && j <= c && Above(nodes, j, c)
    ensures Abs(nodes', r).Keys == Abs(nodes, r).Keys
    ensures forall l <- nodes[r] :: l != k ==> Abs(nodes', r)[l] == Abs(nodes, r)[l]
  {
    forall l <- nodes[r] | l != k
      ensures Abs(nodes', r)[l] == Abs(nodes, r)[l]
    {
      assert ValidCell(nodes, r, nodes[r][l]);
      if nodes[r][l].Ref? {
        var j' := nodes[r][l].at;
        assert Parent(nodes, r, l, j') && j' != j;
        Apart(nodes, lo, r, k, j, l, j', c);
        Unaffected(nodes, nodes', c, j');
      }
    }
  }

  /** Writing through a cursor sets the value at the cursor's path in the whole tree. */
  lemma {:induction false} WriteThrough(nodes: Nodes, nodes': Nodes, lo: nat, r: nat, p: seq<string>, c: nat, key: string, cell: Cell)
    requires Valid(nodes) && Valid(nodes') && Unshared(nodes, lo) && lo <= r < |nodes|
    requires Leads(nodes, r, p, c) && c < |nodes| && ChangedAt(nodes, nodes', c)
    requires nodes'[c] == nodes[c][Str(key) := cell]
    ensures cell.Ref? ==> cell.at < |nodes'|
    ensures SetVal(Abs(nodes, r), p + [key], AbsCell(nodes', cell)) == Some(Abs(nodes', r))
    decreases |p|
  {
    WriteEntry(nodes, nodes', c, Str(key), cell);
    if p == [] {
      assert p + [key] == [key];
    } else {
      var j := nodes[r][Str(p[0])].at;
      assert ValidCell(nodes, r, nodes[r][Str(p[0])]);
      LeadsAbove(nodes, j, p[1..], c);
      WriteThrough(nodes, nodes', lo, j, p[1..], c, key, cell);
      WriteAbove(nodes, nodes', lo, r, p[0], j, p[1..] + [key], c, AbsCell(nodes', cell));
      assert p + [key] == [p[0]] + (p[1..] + [key]);
    }
  }

  lemma WriteAbove(nodes: Nodes, nodes': Nodes, lo: nat, r: nat, first: string, j: nat, rest: seq<string>, c: nat, v: Tree)
    requires Valid(nodes) && Valid(nodes') && Unshared(nodes, lo) && lo <= r && ChangedAt(nodes, nodes', c)
    requires Parent(nodes, r, Str(first), j) && j <= c && Above(nodes, j, c) && rest != [] && j < |nodes|
    requires SetVal(Abs(nodes, j), rest, v) == Some(Abs(nodes', j))
    ensures SetVal(Abs(nodes, r), [first] + rest, v) == Some(Abs(nodes', r))
  {
    hide SetVal, Unshared, Above;
    var k := Str(first);
    OtherEntries(nodes, nodes', lo, r, k, j, c);
    SetUnder(Abs(nodes, r), k, Abs(nodes, j), rest, v);
    assert Abs(nodes, r)[k := Map(Abs(nodes, j))] == Abs(nodes, r);
    assert Abs(nodes', r) == Abs(nodes, r)[k := Map(Abs(nodes', j))];
  }

  /** What a set does beyond the cursor decides whether it is blocked. */
  lemma {:induction false} BlockedBeyond(nodes: Nodes, r: nat, p: seq<string>, c: nat, rest: seq<string>)
    requires Valid(nodes) && r < |nodes| && Leads(nodes, r, p, c) && c < |nodes| && rest != []
    ensures Blocked(Abs(nodes, r), p + rest) == Blocked(Abs(nodes, c), rest)
    decreases |p|
  {
    if p == [] {
      assert p + rest == rest;
    } else {
      assert ValidCell(nodes, r, nodes[r][Str(p[0])]);
      assert (p + rest)[1..] == p[1..] + rest;
      BlockedBeyond(nodes, nodes[r][Str(p[0])].at, p[1..], c, rest);
    }
  }

  lemma LeadsHere(nodes: Nodes, r: nat, p: seq<string>)
    requires p == []
    ensures Leads(nodes, r, p, r)
  {
  }

  /** A value that is not a map, at the cursor, blocks what is to be set beyond it. */
  lemma PlainBlocks(nodes: Nodes, c: nat, rest: seq<string>)
    requires Valid(nodes) && c < |nodes| && |rest| > 1 && Str(rest[0]) in nodes[c] && nodes[c][Str(rest[0])].Plain?
    ensures Blocked(Abs(nodes, c), rest)
  {
    assert ValidCell(nodes, c, nodes[c][Str(rest[0])]);
    BlockedHere(Abs(nodes, c), rest);
  }

  class Store {
    var nodes: Nodes

    constructor ()
      ensures nodes == []
    {
      nodes := [];
    }

    /** A new empty map. */
    method Make() returns (at: nat)
      requires Valid(nodes)
      modifies this
      ensures at == old(|nodes|) && nodes == old(nodes) + [map[]] && Valid(nodes) && Abs(nodes, at) == map[]
      ensures forall lo: nat :: Unshared(old(nodes), lo) ==> Unshared(nodes, lo)
    {
      at := |nodes|;
      nodes := nodes + [map[]];
      assert Valid(nodes) by {
        forall i, k | 0 <= i < |nodes| && k in nodes[i]
          ensures ValidCell(nodes, i, nodes[i][k])
        {
          assert ValidCell(old(nodes), i, old(nodes)[i][k]);
        }
      }
    }

    /** Writes an entry; a map that it refers to must have been made for this purpose. */
    method Put(at: nat, key: Scalar, cell: Cell)
      requires Valid(nodes) && at < |nodes| && ValidCell(nodes, at, cell)
      requires cell.Ref? ==> forall i, k :: 0 <= i < |nodes| && k in nodes[i] ==> nodes[i][k] != cell
      modifies this
      ensures nodes == old(nodes)[at := old(nodes)[at][key := cell]] && Valid(nodes)
      ensures forall lo: nat :: Unshared(old(nodes), lo) ==> Unshared(nodes, lo)
    {
      nodes := nodes[at := nodes[at][key := cell]];
      assert Valid(nodes) by {
        forall i, k | 0 <= i < |nodes| && k in nodes[i]
          ensures ValidCell(nodes, i, nodes[i][k])
        {
          if i != at || k != key {
            assert ValidCell(old(nodes), i, old(nodes)[i][k]);
          }
        }
      }
    }

    /** Makes maps for a decoded value. */
    method Alloc(d: Dict) returns (at: nat)
      requires Valid(nodes)
      modifies this
      ensures Valid(nodes) && at == old(|nodes|) < |nodes| && old(nodes) <= nodes && Abs(nodes, at) == d
      ensures forall lo: nat :: Unshared(old(nodes), lo) ==> Unshared(nodes, lo)
      decreases Map(d), 0
    {
      at := Make();
      var todo := d.Keys;
      while todo != {}
        invariant todo <= d.Keys && Valid(nodes) && at < |nodes| && old(nodes) <= nodes
        invariant Abs(nodes, at).Keys == d.Keys - todo
        invariant forall k <- Abs(nodes, at) :: Abs(nodes, at)[k] == d[k]
        invariant forall lo: nat :: Unshared(old(nodes), lo) ==> Unshared(nodes, lo)
        decreases todo
      {
        var k :| k in todo;
        todo := todo - {k};
        var _ := Attach(at, k, d[k]);
      }
    }

    /** Writes a value into a map; a value that is a map is made anew. */
    method Attach(at: nat, key: Scalar, v: Tree) returns (cell: Cell)
      requires Valid(nodes) && at < |nodes|
      modifies this
      ensures Valid(nodes) && ChangedAt(old(nodes), nodes, at)
      ensures nodes[at] == old(nodes)[at][key := cell]
      ensures (cell.Ref? ==> cell.at < |nodes|) && AbsCell(nodes, cell) == v
      ensures Abs(nodes, at) == old(Abs(nodes, at))[key := v]
      ensures forall lo: nat :: Unshared(old(nodes), lo) ==> Unshared(nodes, lo)
      decreases v, 2
    {
      cell := NewCell(v);
      ghost var mid := nodes;
      Fresh(old(nodes), nodes, cell);
      Put(at, key, cell);
      AfterAttach(old(nodes), mid, nodes, at, key, cell);
    }

    /** `util.MapCopy`: nothing of the copy is shared with the original, which is untouched. */
    method MapCopy(i: nat) returns (at: nat)
      requires Valid(nodes) && i < |nodes|
      modifies this
      ensures Valid(nodes) && at == old(|nodes|) < |nodes| && old(nodes) <= nodes
      ensures Abs(nodes, at) == old(Abs(nodes, i))
      ensures forall lo: nat :: Unshared(old(nodes), lo) ==> Unshared(nodes, lo)
      decreases Map(Abs(nodes, i)), 0
    {
      ghost var d := Abs(nodes, i);
      at := Make();
      Grown(old(nodes), nodes, i);
      var todo := nodes[i].Keys;
      while todo != {}
        invariant todo <= d.Keys && Valid(nodes) && at < |nodes| && old(nodes) <= nodes
        invariant Abs(nodes, at).Keys == d.Keys - todo
        invariant forall k <- Abs(nodes, at) :: Abs(nodes, at)[k] == d[k]
        invariant forall lo: nat :: Unshared(old(nodes), lo) ==> Unshared(nodes, lo)
        decreases todo
      {
        var k :| k in todo;
        todo := todo - {k};
        Grown(old(nodes), nodes, i);
        CopyEntry(i, at, k);
      }
    }

    method CopyEntry(i: nat, at: nat, key: Scalar)
      requires Valid(nodes) && i < at < |nodes| && key in nodes[i]
      modifies this
      ensures Valid(nodes) && ChangedAt(old(nodes), nodes, at)
      ensures Abs(nodes, at) == old(Abs(nodes, at))[key := old(Abs(nodes, i))[key]]
      ensures forall lo: nat :: Unshared(old(nodes), lo) ==> Unshared(nodes, lo)
      decreases Abs(nodes, i)[key], 1
    {
      var cell := nodes[i][key];
      assert ValidCell(nodes, i, cell);
      match cell {
        case Plain(t) =>
          var copy := CopyTree(t);
          cell := Plain(copy);
        case Ref(j) =>
          var child := MapCopy(j);
          cell := Ref(child);
      }
      ghost var mid := nodes;
      Fresh(old(nodes), nodes, cell);
      Put(at, key, cell);
      AfterAttach(old(nodes), mid, nodes, at, key, cell);
    }

    /** The loop that `Parse` and `GetOrSetVal` share: the cursor moves down the key path, making
        missing maps, and the value is written through it; `ok` tells whether it was. */
    method Assign(root: nat, parts: seq<string>, v: Tree, ghost lo: nat) returns (ok: bool)
      requires Valid(nodes) && Unshared(nodes, lo) && lo <= root < |nodes| && parts != []
      modifies this
      ensures Valid(nodes) && Unshared(nodes, lo) && |old(nodes)| <= |nodes| && old(nodes)[..lo] == nodes[..lo]
      ensures var expected := SetVal(old(Abs(nodes, root)), parts, v);
        ok == expected.Some? && Abs(nodes, root) == if ok then expected.value else old(Abs(nodes, root))
    {
      hide SetVal, Blocked, Unshared, Abs, Leads;
      ghost var d := Abs(nodes, root);
      assert Leads(nodes, root, parts[..0], root) by { LeadsHere(nodes, root, parts[..0]); }
      ghost var created := false;
      var cursor := root;
      for i := 0 to |parts|
        invariant Valid(nodes) && Unshared(nodes, lo) && |old(nodes)| <= |nodes| && old(nodes)[..lo] == nodes[..lo]
        invariant i < |parts| && root <= cursor < |nodes| && Leads(nodes, root, parts[..i], cursor)
        invariant SetVal(Abs(nodes, root), parts, v) == SetVal(d, parts, v)
        invariant if created then Abs(nodes, cursor) == map[] else Abs(nodes, root) == d
      {
        var key := Str(parts[i]);
        ghost var before := nodes;
        assert parts == parts[..i] + parts[i..] && parts[..i + 1] == parts[..i] + [parts[i]];
        BlockedBeyond(nodes, root, parts[..i], cursor, parts[i..]);
        SetUnlessBlocked(d, parts, v);
        SetUnlessBlocked(Abs(nodes, root), parts, v);
        if i + 1 == |parts| {
          var cell := Attach(cursor, key, v);
          WriteThrough(before, nodes, lo, root, parts[..i], cursor, parts[i], cell);
          assert parts[..i] + [parts[i]] == parts;
          return true;
        }
        if key !in nodes[cursor] {
          cursor := MakeBelow(root, cursor, parts, i, v, lo);
          created := true;
        } else {
          match nodes[cursor][key] {
            case Plain(_) =>
              PlainBlocks(nodes, cursor, parts[i..]);
              return false;
            case Ref(next) =>
              assert ValidCell(nodes, cursor, nodes[cursor][key]);
              LeadsFurther(nodes, root, parts[..i], cursor, parts[i], next);
              cursor := next;
          }
        }
      }
    }

    /** Makes the map that is missing at the cursor, and moves the cursor there. */
    method MakeBelow(root: nat, cursor: nat, parts: seq<string>, i: nat, ghost v: Tree, ghost lo: nat) returns (next: nat)
      requires Valid(nodes) && Unshared(nodes, lo) && lo <= root <= cursor < |nodes|
      requires i + 1 < |parts| && Leads(nodes, root, parts[..i], cursor) && Str(parts[i]) !in nodes[cursor]
      modifies this
      ensures Valid(nodes) && Unshared(nodes, lo) && |old(nodes)| <= |nodes| && old(nodes)[..lo] == nodes[..lo]
      ensures cursor < next < |nodes| && Leads(nodes, root, parts[..i + 1], next) && Abs(nodes, next) == map[]
      ensures SetVal(Abs(nodes, root), parts, v) == SetVal(old(Abs(nodes, root)), parts, v)
    {
      hide SetVal, Blocked, Find, Unshared;
      ghost var before := nodes;
      ghost var done, more := parts[..i] + [parts[i]], parts[i + 1..];
      assert parts[..i + 1] == done && parts == done + more;
      MissingBeyond(nodes, root, parts[..i], cursor, parts[i]);
      var cell := Attach(cursor, Str(parts[i]), Map(map[]));
      WriteThrough(before, nodes, lo, root, parts[..i], cursor, parts[i], cell);
      CreateThenSet(Abs(before, root), done, more, v);
      LeadsStill(before, nodes, root, parts[..i], cursor);
      assert ValidCell(nodes, cursor, nodes[cursor][Str(parts[i])]);
      assert cell.Ref?;
      LeadsFurther(nodes, root, parts[..i], cursor, parts[i], cell.at);
      next := cell.at;
    }

    /** `GetOrSetVal` on the map `root`. */
    method GetOrSet(decode: string -> Tree, key: string, root: nat, value: Option<Tree>) returns (ret: Tree, root': nat)
      requires Valid(nodes) && root < |nodes|
      modifies this
      ensures Valid(nodes) && root' < |nodes| && old(nodes) <= nodes
      ensures (ret, Abs(nodes, root')) == GetOrSetVal(decode, key, old(Abs(nodes, root)), value)
    {
      var parts := Split(key, '.');
      match value {
        case None =>
          var found := Lookup(root, parts);
          ret := if found.Some? then found.value else Leaf(Str(""));
          root' := root;
        case Some(v) =>
          ghost var lo := |nodes|;
          root' := MapCopy(root);
          assert Unshared(old(nodes), lo);
          var v' := Decoded(decode, v);
          var ok := Assign(root', parts, v', lo);
          ret := if ok then v' else Leaf(Str(""));
          assert old(nodes) == nodes[..lo];
      }
    }

    method Lookup(root: nat, parts: seq<string>) returns (r: Option<Tree>)
      requires Valid(nodes) && root < |nodes| && parts != []
      ensures r == Find(Abs(nodes, root), parts)
    {
      var cursor: nat := root;
      for i := 0 to |parts|
        invariant i < |parts| && cursor < |nodes| && Find(Abs(nodes, cursor), parts[i..]) == Find(Abs(nodes, root), parts)
      {
        var key := Str(parts[i]);
        assert parts[i..][0] == parts[i] && parts[i..][1..] == parts[i + 1..];
        if key !in nodes[cursor] {
          return None;
        }
        assert ValidCell(nodes, cursor, nodes[cursor][key]);
        if i + 1 == |parts| {
          r := Read(cursor, key);
          return;
        }
        if nodes[cursor][key].Plain? {
          return None;
        }
        cursor := nodes[cursor][key].at;
      }
    }

    /** The value of an entry; a map is read as the tree it stands for. */
    method Read(at: nat, key: Scalar) returns (r: Option<Tree>)
      requires Valid(nodes) && at < |nodes| && key in nodes[at]
      ensures r == Some(Abs(nodes, at)[key])
    {
      assert ValidCell(nodes, at, nodes[at][key]);
      match nodes[at][key] {
        case Plain(t) => r := Some(t);
        case Ref(j) =>
          var m := ReadMap(j);
          r := Some(Map(m));
      }
    }

    method ReadMap(at: nat) returns (m: Dict)
      requires Valid(nodes) && at < |nodes|
      ensures m == Abs(nodes, at)
      decreases |nodes| - at, 1
    {
      m := map[];
      var todo := nodes[at].Keys;
      while todo != {}
        invariant todo <= nodes[at].Keys && m.Keys == nodes[at].Keys - todo
        invariant forall k <- m :: m[k] == Abs(nodes, at)[k]
        decreases todo
      {
        var k :| k in todo;
        todo := todo - {k};
        assert ValidCell(nodes, at, nodes[at][k]);
        match nodes[at][k] {
          case Plain(t) => m := m[k := t];
          case Ref(j) =>
            var sub := ReadMap(j);
            m := m[k := Map(sub)];
        }
      }
    }

    /** `Parse`: the assignments of the command line, written into one new tree in place. */
    method Parse(decode: string -> Tree, cmdLine: string, parseAll: bool) returns (root: nat)
      requires Valid(nodes)
      modifies this
      ensures Valid(nodes) && root < |nodes| && old(nodes) <= nodes
      ensures Abs(nodes, root) == Assigned(decode, Fields(cmdLine, NOTHING, ""), parseAll)
      ensures Gives(decode, Fields(cmdLine, NOTHING, ""), parseAll, Abs(nodes, root))
    {
      hide Unshared, Abs, SetVal, Split, SplitN, Fields, Gives, Valid;
      AssignedGives(decode, Fields(cmdLine, NOTHING, ""), parseAll);
      ghost var lo := |nodes|;
      NothingShared(nodes);
      root := Make();
      var parts := SplitCmdLine(cmdLine);
      for i := 0 to |parts|
        invariant Valid(nodes) && Unshared(nodes, lo) && lo == root < |nodes| && old(nodes) == nodes[..lo]
        invariant Abs(nodes, root) == Assigned(decode, parts[..i], parseAll)
      {
        assert parts[..i + 1][..i] == parts[..i];
        var part := parts[i];
        if "cc." <= part {
          part := part[3..];
        } else if !("rancher." <= part) {
          if !parseAll {
            continue;
          }
        }
        var kv := SplitN(part, '=', 2);
        var value := if |kv| == 1 then "true" else kv[1];
        var _ := Assign(root, Split(kv[0], '.'), decode(value), lo);
      }
      assert parts[..|parts|] == parts;
    }

    method NewCell(v: Tree) returns (cell: Cell)
      requires Valid(nodes)
      modifies this
      ensures Valid(nodes) && old(nodes) <= nodes
      ensures if v.Map? then cell == Ref(old(|nodes|)) && cell.at < |nodes| && Map(Abs(nodes, cell.at)) == v else cell == Plain(v)
      ensures forall lo: nat :: Unshared(old(nodes), lo) ==> Unshared(nodes, lo)
      decreases v, 1
    {
      cell := Plain(v);
      if v.Map? {
        var child := Alloc(v.m);
        cell := Ref(child);
      }
    }
  }

  /** Nothing is at the key of the cursor, and nothing blocks the way there. */
  lemma {:induction false} MissingBeyond(nodes: Nodes, r: nat, p: seq<string>, c: nat, key: string)
    requires Valid(nodes) && r < |nodes| && Leads(nodes, r, p, c) && c < |nodes| && Str(key) !in nodes[c]
    ensures Find(Abs(nodes, r), p + [key]) == None && !Blocked(Abs(nodes, r), p + [key])
    decreases |p|
  {
    if p == [] {
      assert p + [key] == [key];
    } else {
      assert ValidCell(nodes, r, nodes[r][Str(p[0])]);
      assert (p + [key])[1..] == p[1..] + [key];
      MissingBeyond(nodes, nodes[r][Str(p[0])].at, p[1..], c, key);
    }
  }

  lemma {:induction false} LeadsStill(nodes: Nodes, nodes': Nodes, r: nat, p: seq<string>, c: nat)
    requires Valid(nodes) && ChangedAt(nodes, nodes', c) && r < |nodes| && Leads(nodes, r, p, c)
    ensures Leads(nodes', r, p, c)
    decreases |p|
  {
    if p != [] {
      assert ValidCell(nodes, r, nodes[r][Str(p[0])]);
      LeadsAbove(nodes, nodes[r][Str(p[0])].at, p[1..], c);
      LeadsStill(nodes, nodes', nodes[r][Str(p[0])].at, p[1..], c);
    }
  }

  /** The first of the new maps has no reference to it yet. */
  lemma Fresh(nodes: Nodes, nodes': Nodes, c: Cell)
    requires Valid(nodes) && Valid(nodes') && nodes <= nodes' && (c.Ref? ==> c.at == |nodes|)
    ensures c.Ref? ==> forall i, k :: 0 <= i < |nodes'| && k in nodes'[i] ==> nodes'[i][k] != c
  {
    forall i, k | 0 <= i < |nodes'| && k in nodes'[i] && c.Ref?
      ensures nodes'[i][k] != c
    {
      assert ValidCell(nodes', i, nodes'[i][k]);
      if i < |nodes| {
        assert nodes'[i] == nodes[i];
        assert ValidCell(nodes, i, nodes[i][k]);
      }
    }
  }

  lemma AfterAttach(nodes: Nodes, mid: Nodes, nodes': Nodes, at: nat, key: Scalar, c: Cell)
    requires Valid(nodes) && Valid(mid) && Valid(nodes') && nodes <= mid && at < |nodes|
    requires nodes' == mid[at := mid[at][key := c]] && (c.Ref? ==> c.at == |nodes| < |mid|)
    ensures ChangedAt(nodes, nodes', at) && nodes'[at] == nodes[at][key := c]
    ensures AbsCell(nodes', c) == AbsCell(mid, c)
    ensures Abs(nodes', at) == Abs(nodes, at)[key := AbsCell(nodes', c)]
  {
    WriteEntry(nodes, nodes', at, key, c);
    if c.Ref? {
      assert !Above(mid, c.at, at);
      Unaffected(mid, nodes', at, c.at);
    }
  }
}
