/** The service factory of `pkg/docker`, which turns the labels io.rancher.os.after and
    io.rancher.os.before into dependency edges shared by all services. */
module Labels {
  import opened Walk
  import opened BackEdges
  import opened Round
  import opened Traversal
  import opened Text
  import opened Wrappers

  // ---------- Splitting a label value ----------

  /** `unicode.IsSpace`. */
  predicate IsSpace(c: char) {
    c in {'\t', '\n', '\U{000B}', '\U{000C}', '\r', ' ', '\U{0085}', '\U{00A0}', '\U{1680}',
          '\U{2028}', '\U{2029}', '\U{202F}', '\U{205F}', '\U{3000}'}
    || '\U{2000}' <= c <= '\U{200A}'
  }

  function TrimSpace(s: string): string {
    if s == "" then s
    else if IsSpace(s[0]) then TrimSpace(s[1..])
    else if IsSpace(s[|s| - 1]) then TrimSpace(s[..|s| - 1])
    else s
  }

  function TrimEach(parts: seq<string>): (r: seq<string>)
    ensures |r| == |parts|
  {
    if parts == [] then [] else [TrimSpace(parts[0])] + TrimEach(parts[1..])
  }

  /** `util.TrimSplit(str, ",")`. */
  function TrimSplit(s: string): seq<string> {
    TrimEach(Split(TrimSpace(s), ','))
  }

  // ---------- What a label value lists ----------

  /** Among the ASCII characters, blanks are the space and tab to carriage return. */
  lemma AsciiSpaces(c: char)
    requires c < '\U{0080}'
    ensures IsSpace(c) <==> c == ' ' || c == '\t' || c == '\n' || c == '\U{000B}' || c == '\U{000C}' || c == '\r'
  {
  }

  /** A name in a list, with the blanks around it. */
  datatype Item = Item(before: string, name: Name, after: string)

  predicate Blank(s: string) {
    forall c <- s :: IsSpace(c)
  }

  /** The name is not empty, has no comma, and neither begins nor ends with a blank. */
  predicate GoodItem(item: Item) {
    && Blank(item.before) && Blank(item.after)
    && item.name != "" && ',' !in item.name && !IsSpace(item.name[0]) && !IsSpace(item.name[|item.name| - 1])
  }

  function Pieces(items: seq<Item>): (r: seq<string>)
    ensures |r| == |items|
  {
    if items == [] then [] else [items[0].before + items[0].name + items[0].after] + Pieces(items[1..])
  }

  function Line(items: seq<Item>): string {
    Join(Pieces(items), ',')
  }

  function NamesIn(items: seq<Item>): (r: seq<Name>)
    ensures |r| == |items| && forall i :: 0 <= i < |r| ==> r[i] == items[i].name
  {
    seq(|items|, i requires 0 <= i < |items| => items[i].name)
  }

  lemma {:induction false} TrimPadded(before: string, name: string, after: string)
    requires Blank(before) && Blank(after) && name != "" && !IsSpace(name[0]) && !IsSpace(name[|name| - 1])
    ensures TrimSpace(before + name + after) == name
    decreases |before| + |after|
  {
    var s := before + name + after;
    if before != "" {
      assert s[0] == before[0] && s[1..] == before[1..] + name + after;
      TrimPadded(before[1..], name, after);
    } else if after != "" {
      assert s[0] == name[0] && s[|s| - 1] == after[|after| - 1] && s[..|s| - 1] == before + name + after[..|after| - 1];
      TrimPadded(before, name, after[..|after| - 1]);
    } else {
      assert s == name;
    }
  }

  lemma {:induction false} TrimPieces(items: seq<Item>)
    requires forall item <- items :: GoodItem(item)
    ensures TrimEach(Pieces(items)) == NamesIn(items)
    ensures forall piece <- Pieces(items) :: ',' !in piece
    decreases |items|
  {
    if items != [] {
      var item := items[0];
      assert item in items && GoodItem(item);
      TrimPadded(item.before, item.name, item.after);
      assert forall x <- items[1..] :: x in items;
      TrimPieces(items[1..]);
      assert NamesIn(items) == [item.name] + NamesIn(items[1..]);
      assert !IsSpace(',');
    }
  }

  /** Without the blanks at its beginning and end, a list begins and ends with a name. */
  lemma {:induction false} TrimWritten(items: seq<Item>) returns (core: seq<Item>)
    requires items != [] && forall item <- items :: GoodItem(item)
    ensures (forall item <- core :: GoodItem(item)) && NamesIn(core) == NamesIn(items) && core != []
    ensures TrimSpace(Line(items)) == Line(core)
  {
    hide TrimSpace, Line, IsSpace;
    var last := |items| - 1;
    var bare := items[last := items[last].(after := "")];
    JoinLast(items);
    core := bare[0 := bare[0].(before := "")];
    CoreIsGood(items, core);
    JoinFirst(bare);
    var text := Line(core);
    assert Line(items) == items[0].before + text + items[last].after;
    JoinEnds(core);
    assert GoodItem(items[0]) && GoodItem(items[last]);
    TrimPadded(items[0].before, text, items[last].after);
  }

  lemma CoreIsGood(items: seq<Item>, core: seq<Item>)
    requires |core| == |items| && forall item <- items :: GoodItem(item)
    requires forall i :: 0 <= i < |items| ==>
      core[i].name == items[i].name && core[i].before in [items[i].before, ""] && core[i].after in [items[i].after, ""]
    ensures (forall item <- core :: GoodItem(item)) && NamesIn(core) == NamesIn(items)
  {
    forall item <- core
      ensures GoodItem(item)
    {
      var i :| 0 <= i < |core| && core[i] == item;
      assert GoodItem(items[i]);
    }
  }

  lemma LineHead(items: seq<Item>)
    requires items != []
    ensures var piece := items[0].before + items[0].name + items[0].after;
      Line(items) == if |items| == 1 then piece else piece + "," + Line(items[1..])
    ensures var piece := items[0].before + items[0].name + items[0].after;
      Line(items) == piece + if |items| == 1 then "" else "," + Line(items[1..])
  {
    assert Pieces(items)[1..] == Pieces(items[1..]);
  }

  lemma BeforeFirst(before: string, name: string, after: string, rest: string)
    ensures before + name + after + rest == before + ("" + name + after + rest)
  {
  }

  lemma JoinFirst(items: seq<Item>)
    requires items != []
    ensures Line(items) == items[0].before + Line(items[0 := items[0].(before := "")])
  {
    hide Line;
    var core := items[0 := items[0].(before := "")];
    assert core[1..] == items[1..];
    LineHead(items);
    LineHead(core);
    BeforeFirst(items[0].before, items[0].name, items[0].after, if |items| == 1 then "" else "," + Line(items[1..]));
  }

  lemma {:induction false} JoinLast(items: seq<Item>)
    requires items != []
    ensures var last := |items| - 1;
      Line(items) == Line(items[last := items[last].(after := "")]) + items[last].after
    decreases |items|
  {
    hide Line;
    var last := |items| - 1;
    var bare := items[last := items[last].(after := "")];
    LineHead(items);
    LineHead(bare);
    if last > 0 {
      assert bare[1..] == items[1..][last - 1 := items[1..][last - 1].(after := "")];
      JoinLast(items[1..]);
    }
  }

  lemma {:induction false} JoinEnds(items: seq<Item>)
    requires items != [] && (forall item <- items :: item.name != "") && items[|items| - 1].after == ""
    ensures var text, last := Line(items), items[|items| - 1].name;
      && text != "" && text[|text| - 1] == last[|last| - 1]
      && (items[0].before == "" ==> text[0] == items[0].name[0])
    decreases |items|
  {
    hide Line;
    assert items[0] in items;
    LineHead(items);
    if |items| > 1 {
      assert forall x <- items[1..] :: x in items;
      JoinEnds(items[1..]);
    }
  }

  /** A list of names, with commas between them and any blanks around them, lists these names. */
  lemma ListedAreNames(items: seq<Item>)
    requires items != [] && forall item <- items :: GoodItem(item)
    ensures Listed(Line(items)) == NamesIn(items)
  {
    var core := TrimWritten(items);
    TrimPieces(core);
    SplitJoin(Pieces(core), ',');
    JoinNotEmpty(items);
  }

  lemma JoinNotEmpty(items: seq<Item>)
    requires items != [] && forall item <- items :: item.name != ""
    ensures Line(items) != ""
  {
    JoinLast(items);
    var bare := items[|items| - 1 := items[|items| - 1].(after := "")];
    forall item <- bare
      ensures item.name != ""
    {
      var i :| 0 <= i < |bare| && bare[i] == item;
      assert items[i] in items;
    }
    JoinEnds(bare);
  }

  /** The label value is a list of these names; a missing label is an empty list. */
  ghost predicate Writes(value: string, names: seq<Name>) {
    || (value == "" && names == [])
    || exists items :: items != [] && (forall item <- items :: GoodItem(item)) && value == Line(items) && names == NamesIn(items)
  }

  lemma ListedIsWritten(value: string, names: seq<Name>)
    requires Writes(value, names)
    ensures Listed(value) == names
  {
    if items :| items != [] && (forall item <- items :: GoodItem(item)) && value == Line(items) && names == NamesIn(items) {
      ListedAreNames(items);
    }
  }

  /** There is one alias; every other name stands for itself. */
  lemma Aliases(n: Name)
    ensures Alias("cloud-init") == "cloud-init-execute" && (n != "cloud-init" ==> Alias(n) == n)
  {
  }

  // ---------- The factory ----------

  /** The two label values of a service; a missing label is empty. */
  datatype Service = Service(name: Name, afterLabel: string, beforeLabel: string)

  function Alias(dep: Name): Name {
    if dep == "cloud-init" then "cloud-init-execute" else dep
  }

  type Deps = map<Name, seq<Name>>

  function DepsOf(deps: Deps, n: Name): seq<Name> {
    if n in deps then deps[n] else []
  }

  function Append(deps: Deps, n: Name, dep: Name): Deps {
    deps[n := DepsOf(deps, n) + [dep]]
  }

  function Listed(value: string): seq<Name> {
    if value == "" then [] else TrimSplit(value)
  }

  function AddAfter(deps: Deps, name: Name, names: seq<Name>): Deps
    decreases |names|
  {
    if names == [] then deps else AddAfter(Append(deps, name, Alias(names[0])), name, names[1..])
  }

  function AddBefore(deps: Deps, name: Name, names: seq<Name>): Deps
    decreases |names|
  {
    if names == [] then deps else AddBefore(Append(deps, Alias(names[0]), name), name, names[1..])
  }

  function Created(deps: Deps, s: Service): Deps {
    AddBefore(AddAfter(deps, s.name, Listed(s.afterLabel)), s.name, Listed(s.beforeLabel))
  }

  /** The shared map after the factory has created these services, in this order. */
  function CreatedAll(made: seq<Service>): Deps {
    if made == [] then map[] else Created(CreatedAll(made[..|made| - 1]), made[|made| - 1])
  }

  class ServiceFactory {
    var deps: Deps

    constructor ()
      ensures deps == CreatedAll([])
    {
      deps := map[];
    }

    method Create(s: Service)
      modifies this
      ensures deps == Created(old(deps), s)
    {
      if s.afterLabel != "" {
        var names := TrimSplit(s.afterLabel);
        for i := 0 to |names|
          invariant AddAfter(old(deps), s.name, names) == AddAfter(deps, s.name, names[i..])
        {
          assert names[i..][0] == names[i] && names[i..][1..] == names[i + 1..];
          var dep := names[i];
          if dep == "cloud-init" {
            dep := "cloud-init-execute";
          }
          deps := deps[s.name := DepsOf(deps, s.name) + [dep]];
        }
      }
      ghost var mid := deps;
      assert mid == AddAfter(old(deps), s.name, Listed(s.afterLabel));
      if s.beforeLabel != "" {
        var names := TrimSplit(s.beforeLabel);
        for i := 0 to |names|
          invariant AddBefore(mid, s.name, names) == AddBefore(deps, s.name, names[i..])
        {
          assert names[i..][0] == names[i] && names[i..][1..] == names[i + 1..];
          var dep := names[i];
          if dep == "cloud-init" {
            dep := "cloud-init-execute";
          }
          deps := deps[dep := DepsOf(deps, dep) + [s.name]];
        }
      }
    }
  }

  // ---------- Which edges the labels give ----------

  ghost predicate AskedAfter(s: Service, b: Name, a: Name) {
    s.name == b && exists x <- Listed(s.afterLabel) :: Alias(x) == a
  }

  ghost predicate AskedBefore(s: Service, b: Name, a: Name) {
    s.name == a && exists x <- Listed(s.beforeLabel) :: Alias(x) == b
  }

  /** The labels of `s` ask for `a` to be done before `b`. */
  ghost predicate Asks(s: Service, b: Name, a: Name) {
    AskedAfter(s, b, a) || AskedBefore(s, b, a)
  }

  lemma {:induction false} AddAfterAdds(deps: Deps, name: Name, names: seq<Name>, b: Name, a: Name)
    ensures a in DepsOf(AddAfter(deps, name, names), b)
       <==> a in DepsOf(deps, b) || (b == name && exists x <- names :: Alias(x) == a)
    decreases |names|
  {
    if names != [] {
      var deps' := Append(deps, name, Alias(names[0]));
      AddAfterAdds(deps', name, names[1..], b, a);
      assert a in DepsOf(deps', b) <==> a in DepsOf(deps, b) || (b == name && a == Alias(names[0]));
      assert forall x :: x in names <==> x == names[0] || x in names[1..];
    }
  }

  lemma {:induction false} AddBeforeAdds(deps: Deps, name: Name, names: seq<Name>, b: Name, a: Name)
    ensures a in DepsOf(AddBefore(deps, name, names), b)
       <==> a in DepsOf(deps, b) || (a == name && exists x <- names :: Alias(x) == b)
    decreases |names|
  {
    if names != [] {
      var deps' := Append(deps, Alias(names[0]), name);
      AddBeforeAdds(deps', name, names[1..], b, a);
      assert a in DepsOf(deps', b) <==> a in DepsOf(deps, b) || (a == name && b == Alias(names[0]));
      assert forall x :: x in names <==> x == names[0] || x in names[1..];
    }
  }

  /** The shared map says exactly what the labels say, in whatever order services are created. */
  lemma {:induction false} EdgesAreLabels(made: seq<Service>, b: Name, a: Name)
    ensures a in DepsOf(CreatedAll(made), b) <==> exists s <- made :: Asks(s, b, a)
  {
    if made != [] {
      var front, s := made[..|made| - 1], made[|made| - 1];
      EdgesAreLabels(front, b, a);
      AddAfterAdds(CreatedAll(front), s.name, Listed(s.afterLabel), b, a);
      AddBeforeAdds(AddAfter(CreatedAll(front), s.name, Listed(s.afterLabel)), s.name, Listed(s.beforeLabel), b, a);
      assert s in made && forall x <- front :: x in made;
      assert forall x <- made :: x in front || x == s;
      assert a in DepsOf(CreatedAll(made), b) <==> a in DepsOf(CreatedAll(front), b) || Asks(s, b, a);
    }
  }

  // ---------- The edges of labels that list names ----------

  /** A service with the names that its labels list. */
  datatype Wish = Wish(name: Name, after: seq<Name>, before: seq<Name>)

  ghost predicate WrittenAs(made: seq<Service>, wishes: seq<Wish>) {
    && |made| == |wishes|
    && forall i :: 0 <= i < |made| ==> WrittenBy(made[i], wishes[i])
  }

  ghost predicate WrittenBy(s: Service, w: Wish) {
    s.name == w.name && Writes(s.afterLabel, w.after) && Writes(s.beforeLabel, w.before)
  }

  /** The name `x` in a label means the service `n`: "cloud-init" means "cloud-init-execute", every
      other name itself. */
  predicate Means(x: Name, n: Name) {
    n == if x == "cloud-init" then "cloud-init-execute" else x
  }

  /** `b` is to run after `a`, as `b` lists `a` after itself or `a` lists `b` before itself. */
  ghost predicate Wants(w: Wish, b: Name, a: Name) {
    (w.name == b && exists x <- w.after :: Means(x, a)) || (w.name == a && exists x <- w.before :: Means(x, b))
  }

  lemma AsksIsWants(s: Service, w: Wish, b: Name, a: Name)
    requires WrittenBy(s, w)
    ensures Asks(s, b, a) <==> Wants(w, b, a)
  {
    hide Writes, Listed;
    ListedIsWritten(s.afterLabel, w.after);
    ListedIsWritten(s.beforeLabel, w.before);
    assert forall x, n :: Alias(x) == n <==> Means(x, n);
  }

  /** For labels that list names, the shared map has exactly the edges that the lists ask for. */
  lemma EdgesAreWishes(made: seq<Service>, wishes: seq<Wish>, b: Name, a: Name)
    requires WrittenAs(made, wishes)
    ensures a in DepsOf(CreatedAll(made), b) <==> exists w <- wishes :: Wants(w, b, a)
  {
    hide WrittenBy, Asks, Wants, CreatedAll;
    EdgesAreLabels(made, b, a);
    forall i | 0 <= i < |made|
      ensures Asks(made[i], b, a) <==> Wants(wishes[i], b, a)
    {
      AsksIsWants(made[i], wishes[i], b, a);
    }
    if s :| s in made && Asks(s, b, a) {
      var i :| 0 <= i < |made| && made[i] == s;
      assert wishes[i] in wishes;
    }
    if w :| w in wishes && Wants(w, b, a) {
      var i :| 0 <= i < |wishes| && wishes[i] == w;
      assert made[i] in made;
    }
  }

  /** How many of the names mean `n`. */
  function Times(names: seq<Name>, n: Name): nat
    decreases |names|
  {
    if names == [] then 0 else (if Means(names[0], n) then 1 else 0) + Times(names[1..], n)
  }

  lemma {:induction false} AddAfterAppends(deps: Deps, name: Name, names: seq<Name>, b: Name)
    ensures |DepsOf(AddAfter(deps, name, names), b)| == |DepsOf(deps, b)| + if b == name then |names| else 0
    ensures DepsOf(deps, b) <= DepsOf(AddAfter(deps, name, names), b)
    ensures b == name ==> forall i :: 0 <= i < |names| ==> Means(names[i], DepsOf(AddAfter(deps, name, names), b)[|DepsOf(deps, b)| + i])
    decreases |names|
  {
    if names != [] {
      AddAfterAppends(Append(deps, name, Alias(names[0])), name, names[1..], b);
    }
  }

  lemma {:induction false} AddBeforeAppends(deps: Deps, name: Name, names: seq<Name>, b: Name)
    ensures DepsOf(AddBefore(deps, name, names), b) == DepsOf(deps, b) + seq(Times(names, b), _ => name)
    decreases |names|
  {
    if names != [] {
      AddBeforeAppends(Append(deps, Alias(names[0]), name), name, names[1..], b);
    }
  }

  /** Creating a service only ever appends: first what its after label lists, in order, then itself
      once for every time that its before label lists `b`. */
  lemma CreatedInOrder(deps: Deps, s: Service, w: Wish, b: Name)
    requires WrittenBy(s, w)
    ensures var before, after, n := DepsOf(deps, b), DepsOf(Created(deps, s), b), if s.name == b then |w.after| else 0;
      && before <= after && |after| == |before| + n + Times(w.before, b)
      && (forall i :: 0 <= i < n ==> Means(w.after[i], after[|before| + i]))
      && (forall i :: |before| + n <= i < |after| ==> after[i] == s.name)
  {
    hide Writes, Listed, AddAfter, AddBefore;
    ListedIsWritten(s.afterLabel, w.after);
    ListedIsWritten(s.beforeLabel, w.before);
    AddAfterAppends(deps, s.name, w.after, b);
    AddBeforeAppends(AddAfter(deps, s.name, w.after), s.name, w.before, b);
  }

  // ---------- DependentServices ----------

  /** What `DependentServices` of pkg/docker looks at besides the labels: the relationships of
      the compose configuration, the log driver, the scope label, and whether the image is
      missing locally. */
  datatype Config = Config(base: seq<Rel>, logging: Option<string>, logDriver: string, scope: string, missingImage: bool)

  /** The name part of a "name:alias" string. */
  function NameOf(nameAlias: string): Name {
    Split(nameAlias, ':')[0]
  }

  /** `appendLink`: nothing is added for a name that is not registered. */
  function AppendLink(rels: seq<Rel>, name: string, optional: bool, registered: set<Name>): seq<Rel> {
    if name in registered then rels + [Rel(NameOf(name), optional)] else rels
  }

  function AppendLinks(rels: seq<Rel>, names: seq<Name>, registered: set<Name>): seq<Rel>
    decreases |names|
  {
    if names == [] then rels else AppendLinks(AppendLink(rels, names[0], true, registered), names[1..], registered)
  }

  predicate RequiresSyslog(c: Config) {
    if c.logging.Some? then c.logging.value == "syslog" else c.logDriver == "syslog"
  }

  predicate RequiresUserDocker(c: Config) {
    c.scope != "system"
  }

  function Implied(c: Config, rels: seq<Rel>, registered: set<Name>): seq<Rel> {
    var rels := if RequiresSyslog(c) then AppendLink(rels, "syslog", false, registered) else rels;
    if RequiresUserDocker(c) then AppendLink(rels, "docker", false, registered)
    else if c.missingImage then AppendLink(rels, "network", false, registered)
    else rels
  }

  function Dependencies(deps: Deps, name: Name, c: Config, registered: set<Name>): seq<Rel> {
    Implied(c, AppendLinks(c.base, DepsOf(deps, name), registered), registered)
  }

  method DependentServices(factory: ServiceFactory, name: Name, c: Config, registered: set<Name>) returns (rels: seq<Rel>)
    ensures rels == Dependencies(factory.deps, name, c, registered)
  {
    rels := c.base;
    var names := DepsOf(factory.deps, name);
    for i := 0 to |names|
      invariant AppendLinks(c.base, names, registered) == AppendLinks(rels, names[i..], registered)
    {
      assert names[i..][0] == names[i] && names[i..][1..] == names[i + 1..];
      rels := AppendLink(rels, names[i], true, registered);
    }
    if RequiresSyslog(c) {
      rels := AppendLink(rels, "syslog", false, registered);
    }
    if RequiresUserDocker(c) {
      rels := AppendLink(rels, "docker", false, registered);
    } else if c.missingImage {
      rels := AppendLink(rels, "network", false, registered);
    }
  }

  lemma {:induction false} LinksAppended(rels: seq<Rel>, names: seq<Name>, registered: set<Name>, rel: Rel)
    ensures rel in AppendLinks(rels, names, registered)
       <==> rel in rels || exists n <- names :: n in registered && rel == Rel(NameOf(n), true)
    decreases |names|
  {
    if names != [] {
      LinksAppended(AppendLink(rels, names[0], true, registered), names[1..], registered, rel);
      assert forall x :: x in names <==> x == names[0] || x in names[1..];
    }
  }

  /** The edges of a service: those of the compose configuration, an optional one per registered
      name in the shared map, and the required ones on syslog and on docker or network. */
  lemma DependenciesAre(deps: Deps, name: Name, c: Config, registered: set<Name>, rel: Rel)
    ensures rel in Dependencies(deps, name, c, registered) <==>
      || rel in c.base
      || (exists n <- DepsOf(deps, name) :: n in registered && rel == Rel(NameOf(n), true))
      || ImpliedRel(c, registered, rel)
  {
    var rels := AppendLinks(c.base, DepsOf(deps, name), registered);
    LinksAppended(c.base, DepsOf(deps, name), registered, rel);
    ImpliedAre(c, rels, registered, rel);
  }

  /** Syslog for a service that logs to it: what is set under logging counts, the log driver only
      without that. Docker for one that is not a system service, network for a system service
      without its image. */
  ghost predicate ImpliedRel(c: Config, registered: set<Name>, rel: Rel) {
    || (rel == Rel("syslog", false) && "syslog" in registered &&
        if c.logging.Some? then c.logging.value == "syslog" else c.logDriver == "syslog")
    || (rel == Rel("docker", false) && "docker" in registered && c.scope != "system")
    || (rel == Rel("network", false) && "network" in registered && c.scope == "system" && c.missingImage)
  }

  lemma ImpliedAre(c: Config, rels: seq<Rel>, registered: set<Name>, rel: Rel)
    ensures rel in Implied(c, rels, registered) <==> rel in rels || ImpliedRel(c, registered, rel)
  {
    var rels1 := if RequiresSyslog(c) then AppendLink(rels, "syslog", false, registered) else rels;
    var last := if RequiresUserDocker(c) then "docker" else "network";
    assert ':' !in "syslog" && ':' !in "docker" && ':' !in "network";
    LinkAppended(rels, "syslog", registered, rel);
    LinkAppended(rels1, last, registered, rel);
  }

  lemma LinkAppended(rels: seq<Rel>, name: string, registered: set<Name>, rel: Rel)
    requires ':' !in name
    ensures rel in AppendLink(rels, name, false, registered) <==> rel in rels || (name in registered && rel == Rel(name, false))
  {
    PlainName(name);
  }

  lemma PlainName(n: Name)
    requires ':' !in n
    ensures NameOf(n) == n
  {
    SplitFree(n, ':');
  }

  lemma AliasedName(n: Name, alias: string)
    requires ':' !in n
    ensures NameOf(n + ":" + alias) == n
  {
    SplitFirst(n, alias, ':');
  }

  // ---------- Ordering from labels ----------

  /** `b` lists `a` in its after label, or `a` lists `b` in its before label. */
  ghost predicate OrderedByLabel(made: seq<Service>, b: Name, a: Name) {
    exists s <- made :: Asks(s, b, a)
  }

  /** For every creation order, in every round of every run: if the labels put `a` before `b`, both
      are loaded and `a` is registered under a name without a colon, then in a dependency-ordered
      round the action of `b` does not run before `a` is done or Ignored, unless a walk broke the
      edge: the one of this round, or one since `b` was loaded. */
  lemma LabelsOrderActions(made: seq<Service>, registered: set<Name>, b: Name, a: Name, c: Config,
                           run: seq<Turn>, loaded: seq<set<Name>>, names: set<Name>,
                           g: Graph, failing: set<nat>, order: seq<Name>, p: Plan,
                           tr: seq<Snapshot>, schedule: seq<Thread>, i: nat)
    requires OrderedByLabel(made, b, a) && a in registered && ':' !in a
    requires a in g && b in g && g[b] == Dependencies(CreatedAll(made), b, c, registered)
    requires IsTraversal(run, loaded) && p.ordered
    requires Planned(g, failing, order, Reloaded(LastViews(run), names), p)
    requires IsRun(p, Started(g, failing, order, Reloaded(LastViews(run), names)), tr, schedule) && i < |tr|
    requires b in tr[i].ws && tr[i].ws[b].runs > Reloaded(LastViews(run), names)[b].runs
    ensures IsDone(tr[i], a) || BrokenBy(g, failing, order, b, a)
      || (b !in names && exists j :: BrokenSince(run, loaded, j, |run|, b, a))
  {
    LabelIsEdge(made, registered, b, a, c);
    OrderedInEveryRound(run, loaded, names, g, failing, order, p, tr, schedule, i, b, Rel(a, true));
  }

  lemma LabelIsEdge(made: seq<Service>, registered: set<Name>, b: Name, a: Name, c: Config)
    requires OrderedByLabel(made, b, a) && a in registered && ':' !in a
    ensures Rel(a, true) in Dependencies(CreatedAll(made), b, c, registered)
  {
    EdgesAreLabels(made, b, a);
    PlainName(a);
    DependenciesAre(CreatedAll(made), b, c, registered, Rel(a, true));
  }

  /** A walk breaks the edge of a label exactly when it does not launch `a` before `b`, and only
      when the edge lies on a cycle. (When `a` asks for `b` as well, a walk breaks one of the two
      edges and keeps the other: `BackEdges.OneWayStays`.) */
  lemma LabelKeptIffLaunchedBefore(made: seq<Service>, registered: set<Name>, b: Name, a: Name, c: Config,
                                   g: Graph, failing: set<nat>, order: seq<Name>, i: nat)
    requires OrderedByLabel(made, b, a) && a in registered && ':' !in a
    requires a in g && b in g && g[b] == Dependencies(CreatedAll(made), b, c, registered)
    requires Covers(g, order)
    requires var log := WalkAll(g, failing, START, order).t.log; i < |log| && log[i] == b
    ensures BrokenBy(g, failing, order, b, a) <==> a !in WalkAll(g, failing, START, order).t.log[..i]
    ensures BrokenBy(g, failing, order, b, a) ==>
      exists path :: ClosesCycle(g, path) && path[|path| - 2] == b && path[|path| - 1] == a
  {
    LabelIsEdge(made, registered, b, a, c);
    IgnoredIffForward(g, failing, order, i, Rel(a, true));
    if BrokenBy(g, failing, order, b, a) {
      IgnoredOnCycle(g, failing, order, b, a);
    }
  }

  /** The same for labels that list names. */
  lemma WishesOrderActions(made: seq<Service>, wishes: seq<Wish>, w: Wish, registered: set<Name>, b: Name, a: Name, c: Config,
                           run: seq<Turn>, loaded: seq<set<Name>>, names: set<Name>,
                           g: Graph, failing: set<nat>, order: seq<Name>, p: Plan,
                           tr: seq<Snapshot>, schedule: seq<Thread>, i: nat)
    requires WrittenAs(made, wishes) && w in wishes && Wants(w, b, a) && a in registered && ':' !in a
    requires a in g && b in g && g[b] == Dependencies(CreatedAll(made), b, c, registered)
    requires IsTraversal(run, loaded) && p.ordered
    requires Planned(g, failing, order, Reloaded(LastViews(run), names), p)
    requires IsRun(p, Started(g, failing, order, Reloaded(LastViews(run), names)), tr, schedule) && i < |tr|
    requires b in tr[i].ws && tr[i].ws[b].runs > Reloaded(LastViews(run), names)[b].runs
    ensures IsDone(tr[i], a) || BrokenBy(g, failing, order, b, a)
      || (b !in names && exists j :: BrokenSince(run, loaded, j, |run|, b, a))
  {
    hide WrittenBy, Asks, Wants, IsTraversal, Planned, IsRun, Dependencies;
    var k :| 0 <= k < |wishes| && wishes[k] == w;
    AsksIsWants(made[k], w, b, a);
    assert made[k] in made;
    LabelsOrderActions(made, registered, b, a, c, run, loaded, names, g, failing, order, p, tr, schedule, i);
  }
}
