/** The objects of `pkg/libcompose/project`: the service wrappers and the project that walks
    over them, proved against the specifications in `Walk`, `Round` and `Traversal`. */
module Project {
  import opened Walk
  import opened Round
  import opened Traversal
  import opened Actions
  import opened Wrappers

  class ServiceWrapper {
    const name: Name
    var done: int
    var state: State
    var err: Err
    var ignored: set<Name>
    var runs: nat

    function View(): Wrapper
      reads this
    {
      Wrapper(done, state, err, ignored, runs)
    }

    constructor (name: Name)
      ensures this.name == name && View() == Wrapper(0, Unknown, NoErr, {}, 0)
    {
      this.name := name;
      done, state, err, ignored, runs := 0, Unknown, NoErr, {}, 0;
    }

    method IgnoreDep(target: Name)
      modifies this
      ensures View() == old(View()).(ignored := old(ignored) + {target})
    {
      ignored := ignored + {target};
    }

    /** `created` tells whether `CreateService` would succeed; it is only asked for a wrapper
        that has not been executed. */
    method Reset(created: bool) returns (ok: bool)
      modifies this
      ensures ok == (old(state) == Executed || created)
      ensures View() == if ok then ResetOf(old(View())) else old(View())
    {
      if state != Executed {
        if !created {
          return false;
        }
      }
      if err == Restart {
        err := NoErr;
      }
      done := done + 1;
      return true;
    }

    method Ignore()
      modifies this
      ensures View() == old(View()).(state := Executed, done := old(done) - 1)
    {
      state := Executed;
      done := done - 1;
    }

    /** The next atomic step of the goroutine that runs `Do`. */
    method DoStep(p: Plan, pc: Pc, wrappers: map<Name, ServiceWrapper>) returns (pc': Pc)
      requires name in wrappers && wrappers[name] == this && name in p.waits && name in p.acts
      modifies this
      ensures (pc', View()) == old(Move(p, Views(wrappers), pc, name))
    {
      pc' := pc;
      match pc
      case Entering =>
        if state == Executed {
          pc' := Leaving;
        } else {
          pc' := Waiting(if p.ordered then 0 else |p.waits[name]|);
        }
      case Waiting(i) =>
        if i >= |p.waits[name]| {
          state := Executed;
          runs := runs + 1;
          pc' := Acting;
        } else {
          var target := p.waits[name][i];
          if target !in ignored && target in wrappers && wrappers[target].err == Restart {
            err := Restart;
            pc' := Leaving;
          } else {
            pc' := Waiting(i + 1);
          }
        }
      case Acting =>
        err := p.acts[name];
        pc' := Leaving;
      case Leaving =>
        done := done - 1;
        pc' := Gone;
      case _ =>
    }
  }

  function Views(wrappers: map<Name, ServiceWrapper>): (r: map<Name, Wrapper>)
    reads wrappers.Values
    ensures r.Keys == wrappers.Keys
  {
    map n | n in wrappers :: wrappers[n].View()
  }

  ghost predicate Named(wrappers: map<Name, ServiceWrapper>) {
    forall n <- wrappers :: wrappers[n].name == n
  }

  /** The wrapper of `n` in the middle of a walk: its own ignored edges are recorded, and if it
      has been left without being selected it has been ignored. */
  function MarkedAt(w: Wrapper, selected: set<Name>, broken: seq<seq<Name>>, log: seq<Name>, n: Name): Wrapper {
    var w := w.(ignored := w.ignored + IgnoredTargets(broken, n));
    if n in log && !IsSelected(selected, n) then w.(state := Executed, done := w.done - 1) else w
  }

  lemma WalkNothing(g: Graph, failing: set<nat>, t: Trail)
    ensures WalkAll(g, failing, t, []) == Done(t)
  {
  }

  lemma WalkAllLast(g: Graph, failing: set<nat>, t: Trail, order: seq<Name>, n: Name)
    requires n in g && forall m <- order :: m in g
    ensures forall m <- order + [n] :: m in g
    ensures var r := WalkAll(g, failing, t, order);
      WalkAll(g, failing, t, order + [n]) == if r.Failed? then r else StartService(g, failing, [], r.t, n)
  {
    WalkAllThen(g, failing, t, order, [n]);
    var r := WalkAll(g, failing, t, order);
    assert [n][1..] == [] && [n][0] == n;
    assert WalkAll(g, failing, r.t, [n]) == StartService(g, failing, [], r.t, n);
  }

  /** A walk that failed is the same for every continuation of the order. */
  lemma RestOfOrder(g: Graph, failing: set<nat>, order: seq<Name>, todo: set<Name>) returns (all: seq<Name>)
    requires todo <= g.Keys && forall n :: n in g <==> n in order || n in todo
    requires WalkAll(g, failing, START, order).Failed?
    ensures Covers(g, all) && WalkAll(g, failing, START, all) == WalkAll(g, failing, START, order)
  {
    all := order;
    if todo != {} {
      var m :| m in todo;
      var rest := OrderFrom(todo, m);
      WalkAllThen(g, failing, START, order, rest);
      all := order + rest;
    }
  }

  lemma NoMarks(w: Wrapper, selected: set<Name>, n: Name)
    ensures MarkedAt(w, selected, [], [], n) == w
  {
    assert w.ignored + {} == w.ignored;
  }

  lemma MarkBreak(w: Wrapper, selected: set<Name>, broken: seq<seq<Name>>, log: seq<Name>, path: seq<Name>, n: Name)
    requires |path| >= 2
    ensures var before := MarkedAt(w, selected, broken, log, n);
      MarkedAt(w, selected, broken + [path], log, n)
      == if n == path[|path| - 2] then before.(ignored := before.ignored + {path[|path| - 1]}) else before
  {
    IgnoredTargetsOfBreak(broken, path, n);
    assert IgnoredTargets(broken, n) + {} == IgnoredTargets(broken, n);
    assert w.ignored + (IgnoredTargets(broken, n) + {path[|path| - 1]}) == (w.ignored + IgnoredTargets(broken, n)) + {path[|path| - 1]};
  }

  /** Only services entered during a call are logged by it. */
  lemma {:induction false} StartLogsNew(g: Graph, failing: set<nat>, history: seq<Name>, t: Trail, w: Name)
    requires w in g
    ensures var r := StartService(g, failing, history, t, w);
      forall n <- r.t.log :: n in t.log || n !in t.launched
    decreases g.Keys - t.launched, 0
  {
    if w !in t.launched {
      VisitLogsNew(g, failing, history + [w], t.(launched := t.launched + {w}), g[w]);
    }
  }

  lemma {:induction false} VisitLogsNew(g: Graph, failing: set<nat>, history: seq<Name>, t: Trail, rels: seq<Rel>)
    ensures var r := VisitDeps(g, failing, history, t, rels);
      forall n <- r.t.log :: n in t.log || n !in t.launched
    decreases g.Keys - t.launched, 1 + |rels|
  {
    if rels != [] {
      var target := rels[0].target;
      if target !in g {
        VisitLogsNew(g, failing, history, t, rels[1..]);
      } else if target in history {
        VisitLogsNew(g, failing, history, t.(broken := t.broken + [history + [target]]), rels[1..]);
      } else {
        StartLogsNew(g, failing, history, t, target);
        VisitLogsNew(g, failing, history, StartService(g, failing, history, t, target).t, rels[1..]);
      }
    }
  }

  /** What the model takes from outside, per round `k`: whether the service factory succeeds, the
      relationships of a service as the walk and its goroutine see them, which cycle actions fail,
      what the actions return, and the names that the reload callback passes to `AddConfig`, given
      the names that have asked for a restart so far. */
  datatype World = World(
    creates: (nat, Name) -> bool,
    deps: (nat, Name) -> seq<Rel>,
    waits: (nat, Name) -> seq<Name>,
    failing: nat -> set<nat>,
    acts: (nat, Name) -> Err,
    reloads: (nat, set<Name>) -> seq<Name>)

  /** The two calls of `DependentServices` in a round agree on the targets, and reloading only
      adds names of the finite set `names` that have not asked for a restart. */
  ghost predicate Lawful(world: World, names: set<Name>) {
    && (forall k, n, d :: d in world.waits(k, n) <==> exists rel <- world.deps(k, n) :: rel.target == d)
    && (forall k, asked, n :: n in world.reloads(k, asked) ==> n in names && n !in asked)
  }

  function SetOf(list: seq<Name>): set<Name> {
    set n | n in list
  }

  /** The relationships of the services `names` in round `k`. */
  function Relationships(world: World, k: nat, names: set<Name>): Graph {
    map n | n in names :: world.deps(k, n)
  }

  /** `loadWrappers` gets through the list up to the first name that cannot be created: one that is
      not configured, or that the factory refuses. */
  ghost predicate LoadedFrom(world: World, k: nat, configs: set<Name>, list: seq<Name>, loaded: set<Name>) {
    exists j: nat :: LoadsPrefix(world, k, configs, list, loaded, j) && (j < |list| ==> !(list[j] in configs && world.creates(k, list[j])))
  }

  ghost predicate LoadsPrefix(world: World, k: nat, configs: set<Name>, list: seq<Name>, loaded: set<Name>, j: nat) {
    && j <= |list| && (forall n :: n in loaded <==> n in list[..j])
    && forall n <- list[..j] :: (n in configs && world.creates(k, n))
  }

  /** Round `k` saw what the world offers. */
  ghost predicate PlayedBy(world: World, selected: set<Name>, ordered: bool, k: nat, t: Turn) {
    && t.g == Relationships(world, k, t.before.Keys) && t.failing == world.failing(k)
    && t.plan.selected == selected && t.plan.ordered == ordered
    && forall n <- t.before ::
      && n in t.plan.acts && t.plan.acts[n] == world.acts(k, n)
      && n in t.plan.waits && t.plan.waits[n] == world.waits(k, n)
  }

  /** What the reload callback adds between round `k` and the next. */
  function Added(world: World, run: seq<Turn>, k: nat): seq<Name>
    requires k < |run|
  {
    world.reloads(k, RestartedBefore(run, k + 1))
  }

  /** The configured names when round `k` starts. */
  ghost function ConfigsAt(world: World, configs: set<Name>, run: seq<Turn>, k: nat): set<Name>
    requires k <= |run|
  {
    if k == 0 then configs else ConfigsAt(world, configs, run, k - 1) + SetOf(Added(world, run, k - 1))
  }

  /** Round `k` began with the configured names, or with those that were just added. */
  ghost predicate LoadedAt(world: World, configs: set<Name>, run: seq<Turn>, k: nat, loaded: set<Name>)
    requires k <= |run|
  {
    exists list :: LoadedFrom(world, k, ConfigsAt(world, configs, run, k), list, loaded)
      && if k == 0 then forall n :: n in list <==> n in configs else list == Added(world, run, k - 1)
  }

  /** Every round of the run was played by the world, from the configured names `configs`. */
  ghost predicate Genuine(world: World, selected: set<Name>, ordered: bool, configs: set<Name>, run: seq<Turn>, loaded: seq<set<Name>>) {
    && |run| == |loaded|
    && (forall k :: 0 <= k < |run| ==> PlayedBy(world, selected, ordered, k, run[k]))
    && (forall k :: 0 <= k < |run| ==> LoadedAt(world, configs, run, k, loaded[k]))
  }

  lemma {:induction false} ConfigsPrefix(world: World, configs: set<Name>, run: seq<Turn>, t: Turn, k: nat)
    requires k <= |run|
    ensures ConfigsAt(world, configs, run + [t], k) == ConfigsAt(world, configs, run, k)
    ensures k > 0 ==> Added(world, run + [t], k - 1) == Added(world, run, k - 1)
  {
    RestartedBeforePrefix(run, t, k);
    if k > 0 {
      ConfigsPrefix(world, configs, run, t, k - 1);
    }
  }

  lemma LoadedPrefix(world: World, configs: set<Name>, run: seq<Turn>, t: Turn, k: nat, loaded: set<Name>)
    requires k <= |run| && LoadedAt(world, configs, run, k, loaded)
    ensures LoadedAt(world, configs, run + [t], k, loaded)
  {
    hide LoadedFrom;
    ConfigsPrefix(world, configs, run, t, k);
    var list :| LoadedFrom(world, k, ConfigsAt(world, configs, run, k), list, loaded)
      && if k == 0 then forall n :: n in list <==> n in configs else list == Added(world, run, k - 1);
    assert LoadedFrom(world, k, ConfigsAt(world, configs, run + [t], k), list, loaded);
  }

  lemma GenuineNext(world: World, selected: set<Name>, ordered: bool, configs: set<Name>, run: seq<Turn>, loaded: seq<set<Name>>,
                    t: Turn, added: set<Name>)
    requires Genuine(world, selected, ordered, configs, run, loaded)
    requires PlayedBy(world, selected, ordered, |run|, t) && LoadedAt(world, configs, run, |run|, added)
    ensures Genuine(world, selected, ordered, configs, run + [t], loaded + [added])
  {
    hide PlayedBy, LoadedAt;
    forall k | 0 <= k < |run + [t]|
      ensures LoadedAt(world, configs, run + [t], k, (loaded + [added])[k])
    {
      LoadedPrefix(world, configs, run, t, k, (loaded + [added])[k]);
    }
  }

  /** When the next round starts, `configs` and `reload` are what the rounds so far have led to. */
  ghost predicate Current(world: World, configs0: set<Name>, run: seq<Turn>, configs: set<Name>, reload: seq<Name>) {
    configs == ConfigsAt(world, configs0, run, |run|) && (run != [] ==> reload == Added(world, run, |run| - 1))
  }

  lemma CurrentLoads(world: World, configs0: set<Name>, run: seq<Turn>, configs: set<Name>, list: seq<Name>, reload: seq<Name>, loaded: set<Name>)
    requires Current(world, configs0, run, configs, reload) && LoadedFrom(world, |run|, configs, list, loaded)
    requires if run == [] then forall n :: n in list <==> n in configs else list == reload
    ensures LoadedAt(world, configs0, run, |run|, loaded)
  {
    hide LoadedFrom;
  }

  /** The configured names grow by those that the reload callback adds. */
  lemma CurrentNext(world: World, configs0: set<Name>, run: seq<Turn>, configs: set<Name>, t: Turn, asked: set<Name>, reload: seq<Name>)
    requires configs == ConfigsAt(world, configs0, run, |run|)
    requires asked == RestartedBefore(run + [t], |run| + 1) && reload == world.reloads(|run|, asked)
    ensures Current(world, configs0, run + [t], configs + SetOf(reload), reload)
  {
    ConfigsPrefix(world, configs0, run, t, |run|);
  }

  datatype Result =
    | Finished(firstError: Err)
    | NoSuchService(name: Name)
    | WalkFailed(why: Failure)
    | ResetFailed

  function Loaded(ws: map<Name, Wrapper>, names: set<Name>): map<Name, Wrapper> {
    map n | n in ws.Keys + names :: if n in names then FRESH else ws[n]
  }

  function AllReset(ws: map<Name, Wrapper>): map<Name, Wrapper> {
    map n | n in ws :: ResetOf(ws[n])
  }

  lemma LoadedIsReloaded(ws: map<Name, Wrapper>, ws': map<Name, Wrapper>)
    requires ws' == AllReset(ws)
    ensures forall names :: Loaded(ws', names) == Reloaded(ws, names)
  {
  }

  lemma LoadedOne(ws: map<Name, Wrapper>, name: Name)
    ensures Loaded(ws, {name}) == ws[name := FRESH]
  {
  }

  lemma LoadedTwice(ws: map<Name, Wrapper>, names: set<Name>, name: Name)
    ensures Loaded(Loaded(ws, names), {name}) == Loaded(ws, names + {name})
  {
  }

  lemma NothingLoaded(world: World, k: nat, configs: set<Name>, list: seq<Name>, ws: map<Name, Wrapper>)
    ensures LoadsPrefix(world, k, configs, list, {}, 0) && Loaded(ws, {}) == ws
  {
    assert list[..0] == [];
  }

  lemma OneMoreLoaded(world: World, k: nat, configs: set<Name>, list: seq<Name>, loaded: set<Name>, i: nat)
    requires LoadsPrefix(world, k, configs, list, loaded, i) && i < |list| && (list[i] in configs && world.creates(k, list[i]))
    ensures LoadsPrefix(world, k, configs, list, loaded + {list[i]}, i + 1)
  {
    assert list[..i + 1] == list[..i] + [list[i]];
  }

  lemma RestartNeeded(run: seq<Turn>, selected: set<Name>)
    requires run != [] && run[|run| - 1].plan.selected == selected && RestartFound(LastViews(run), selected)
    ensures Restarts(run[|run| - 1])
  {
  }

  lemma LawfulReload(world: World, names: set<Name>, k: nat, asked: set<Name>)
    requires Lawful(world, names)
    ensures forall n <- world.reloads(k, asked) :: n in names && n !in asked
  {
  }

  /** `firstError` is the error of a selected wrapper that failed, if there is one. */
  ghost predicate ErrorFound(views: map<Name, Wrapper>, selected: set<Name>, firstError: Err) {
    if firstError == NoErr then forall n <- views :: IsSelected(selected, n) ==> !views[n].err.Failure?
    else exists n <- views :: IsSelected(selected, n) && views[n].err == firstError && firstError.Failure?
  }

  /** What has been done for the services when `traverse` returns normally. Of the loaded services
      exactly the selected ones, or all when none is selected, have run their action, once. Each
      carries what the action returned in the round in which it ran, without a request for a
      restart. The error returned is that of an action, if one failed in any round. */
  ghost predicate Delivered(world: World, selected: set<Name>, run: seq<Turn>, loaded: seq<set<Name>>,
                            views: map<Name, Wrapper>, firstError: Err) {
    && (forall n <- views ::
          if selected == {} || n in selected
          then views[n].state == Executed && views[n].runs == 1 && exists k :: RanIn(run, loaded, k, n)
          else views[n].runs == 0 && views[n].err == NoErr)
    && (forall k, n :: RanIn(run, loaded, k, n) ==>
          n in views && views[n].err == if world.acts(k, n) == Restart then NoErr else world.acts(k, n))
    && (firstError == NoErr <==> forall k, n :: RanIn(run, loaded, k, n) ==> !world.acts(k, n).Failure?)
    && (firstError != NoErr ==> exists k, n :: RanIn(run, loaded, k, n) && world.acts(k, n) == firstError)
  }

  lemma ActsOf(world: World, selected: set<Name>, ordered: bool, configs: set<Name>, run: seq<Turn>, loaded: seq<set<Name>>, k: nat, n: Name)
    requires Genuine(world, selected, ordered, configs, run, loaded) && RanIn(run, loaded, k, n)
    ensures n in run[k].plan.acts && run[k].plan.acts[n] == world.acts(k, n)
  {
    assert PlayedBy(world, selected, ordered, k, run[k]);
  }

  lemma GenuineSelection(world: World, selected: set<Name>, ordered: bool, configs: set<Name>, run: seq<Turn>, loaded: seq<set<Name>>)
    requires Genuine(world, selected, ordered, configs, run, loaded)
    ensures ForSelection(run, selected) && |run| == |loaded|
  {
  }

  lemma ErrIsDelivered(world: World, selected: set<Name>, ordered: bool, configs: set<Name>, run: seq<Turn>, loaded: seq<set<Name>>,
                       k: nat, n: Name)
    requires IsTraversal(run, loaded) && Genuine(world, selected, ordered, configs, run, loaded)
    requires run != [] && !Restarts(run[|run| - 1]) && RanIn(run, loaded, k, n)
    ensures (selected == {} || n in selected) && n in LastViews(run)
    ensures LastViews(run)[n].err == if world.acts(k, n) == Restart then NoErr else world.acts(k, n)
  {
    hide IsTraversal, Genuine, Restarts, RanIn;
    GenuineSelection(world, selected, ordered, configs, run, loaded);
    ActsOf(world, selected, ordered, configs, run, loaded, k, n);
    EndsWithReturned(run, loaded, selected, k, n);
  }

  lemma RunIsDelivered(world: World, selected: set<Name>, ordered: bool, configs: set<Name>, run: seq<Turn>, loaded: seq<set<Name>>,
                       n: Name)
    requires IsTraversal(run, loaded) && Genuine(world, selected, ordered, configs, run, loaded)
    requires run != [] && !Restarts(run[|run| - 1]) && n in LastViews(run)
    ensures var w := LastViews(run)[n];
      if selected == {} || n in selected then w.state == Executed && w.runs == 1 && exists k :: RanIn(run, loaded, k, n)
      else w.runs == 0 && w.err == NoErr
  {
    hide IsTraversal, Genuine, Restarts;
    GenuineSelection(world, selected, ordered, configs, run, loaded);
    OnlySelectedRun(run, loaded, selected, |run| - 1, n);
    KeysStay(run, loaded, configs);
    if selected == {} || n in selected {
      NormalEnd(run, loaded, n);
      var j := RanSince(run, loaded, |run| - 1, n);
      assert RanIn(run, loaded, j, n);
    }
  }

  lemma Deliver(world: World, selected: set<Name>, ordered: bool, configs: set<Name>, run: seq<Turn>, loaded: seq<set<Name>>, firstError: Err)
    requires IsTraversal(run, loaded) && Genuine(world, selected, ordered, configs, run, loaded)
    requires run != [] && !Restarts(run[|run| - 1]) && ErrorFound(LastViews(run), selected, firstError)
    ensures Delivered(world, selected, run, loaded, LastViews(run), firstError)
  {
    hide IsTraversal, Genuine, Restarts, RanIn, LastViews;
    var views := LastViews(run);
    forall n <- views
      ensures if selected == {} || n in selected then views[n].state == Executed && views[n].runs == 1 && exists k :: RanIn(run, loaded, k, n)
              else views[n].runs == 0 && views[n].err == NoErr
    {
      RunIsDelivered(world, selected, ordered, configs, run, loaded, n);
    }
    forall k, n | RanIn(run, loaded, k, n)
      ensures (selected == {} || n in selected) && n in views
      ensures views[n].err == if world.acts(k, n) == Restart then NoErr else world.acts(k, n)
    {
      ErrIsDelivered(world, selected, ordered, configs, run, loaded, k, n);
    }
    if firstError != NoErr {
      var n :| n in views && IsSelected(selected, n) && views[n].err == firstError && firstError.Failure?;
      var k :| RanIn(run, loaded, k, n);
      assert world.acts(k, n) == firstError;
    }
  }

  /** What `traverse` has achieved when it returns from its last round: every selected service
      has been executed, and an error is reported if and only if one of them failed. */
  ghost predicate Succeeded(views: map<Name, Wrapper>, selected: set<Name>, firstError: Err) {
    && ErrorFound(views, selected, firstError)
    && forall n <- views :: IsSelected(selected, n) ==> views[n].state == Executed && views[n].err != Restart
  }

  /** Why `traverse` may return without having finished, in round `k`. */
  ghost predicate Justified(r: Result, world: World, k: nat, configs: set<Name>, selected: set<Name>, views: map<Name, Wrapper>) {
    match r
    case Finished(_) => true
    case NoSuchService(name) => name in selected && name !in views
    case WalkFailed(why) => FailsWith(Relationships(world, k, views.Keys), world.failing(k), why)
    case ResetFailed => exists n <- views :: views[n].state == Unknown && !(n in configs && world.creates(k, n))
  }

  lemma ResetIsJustified(world: World, k: nat, configs: set<Name>, selected: set<Name>, wrappers: map<Name, ServiceWrapper>)
    requires exists n <- wrappers :: wrappers[n].state == Unknown && !(n in configs && world.creates(k, n))
    ensures Justified(ResetFailed, world, k, configs, selected, Views(wrappers))
  {
    var n :| n in wrappers && wrappers[n].state == Unknown && !(n in configs && world.creates(k, n));
    assert Views(wrappers)[n].state == Unknown;
  }

  lemma AddedAreNamed(world: World, k: nat, configs: set<Name>, list: seq<Name>, added: set<Name>)
    requires LoadedFrom(world, k, configs, list, added)
    ensures forall n <- added :: n in list && n in configs
  {
  }

  lemma SelectionOf(world: World, selected: set<Name>, ordered: bool, k: nat, t: Turn)
    requires PlayedBy(world, selected, ordered, k, t)
    ensures t.plan.selected == selected
  {
  }

  lemma CurrentConfigs(world: World, configs0: set<Name>, run: seq<Turn>, configs: set<Name>, reload: seq<Name>)
    requires Current(world, configs0, run, configs, reload)
    ensures configs == ConfigsAt(world, configs0, run, |run|)
  {
  }

  lemma ForServices(services: seq<Name>, world: World, run: seq<Turn>, loaded: seq<set<Name>>, views: map<Name, Wrapper>, firstError: Err)
    requires Delivered(world, SetOf(services), run, loaded, views, firstError)
    ensures forall n <- views ::
      && (services == [] || n in services ==> views[n].state == Executed && views[n].runs == 1)
      && (services != [] && n !in services ==> views[n].runs == 0 && views[n].err == NoErr)
  {
    assert services != [] ==> services[0] in SetOf(services);
  }

  /** Before the first round. */
  lemma StartsGenuine(world: World, selected: set<Name>, ordered: bool, names: set<Name>, configs: set<Name>)
    ensures History(names, [], [], {}, map[]) && Genuine(world, selected, ordered, configs, [], [])
    ensures Named(map[]) && forall reload :: Current(world, configs, [], configs, reload)
  {
  }

  lemma HistoryAsked(names: set<Name>, run: seq<Turn>, loaded: seq<set<Name>>, asked: set<Name>, views: map<Name, Wrapper>)
    requires History(names, run, loaded, asked, views)
    ensures asked == RestartedBefore(run, |run|)
  {
  }

  class Project {
    var asked: set<Name>                       // the names whose action has returned ErrRestart
    var configs: set<Name>                     // ServiceConfigs
    var reload: seq<Name>
    var wrappers: map<Name, ServiceWrapper>
    var launched: set<Name>
    var broken: seq<seq<Name>>                 // the cycles reported as ignored
    var log: seq<Name>                         // the order of launches and Ignores

    function TrailOf(): Trail
      reads this
    {
      Trail(launched, broken, log)
    }

    /** The wrappers `ws` with the marks that the walk has left on them so far. */
    ghost predicate Marks(ws: map<Name, Wrapper>, selected: set<Name>)
      reads this, wrappers.Values
    {
      wrappers.Keys == ws.Keys &&
      forall n <- wrappers :: wrappers[n].name == n && wrappers[n].View() == MarkedAt(ws[n], selected, broken, log, n)
    }

    /** The dependency of `wrapper` on `target` is optional and closes the cycle `path`. */
    method IgnoreBackEdge(path: seq<Name>, selected: set<Name>, wrapper: ServiceWrapper, target: Name,
                          ghost ws: map<Name, Wrapper>)
      requires Marks(ws, selected) && wrapper.name in wrappers && wrappers[wrapper.name] == wrapper
      requires path != [] && path[|path| - 1] == wrapper.name
      modifies this`broken, wrapper
      ensures broken == old(broken) + [path + [target]]
      ensures Marks(ws, selected)
    {
      var cycle := path + [target];
      assert cycle[|cycle| - 2] == wrapper.name;
      forall n <- wrappers {
        MarkBreak(ws[n], selected, broken, log, cycle, n);
      }
      wrapper.IgnoreDep(target);
      broken := broken + [cycle];
    }

    /** All dependencies of the wrapper are dealt with: launch or ignore it. */
    method Launch(selected: set<Name>, wrapper: ServiceWrapper, ghost ws: map<Name, Wrapper>)
      requires Marks(ws, selected) && wrapper.name in wrappers && wrappers[wrapper.name] == wrapper
      requires wrapper.name !in log
      modifies this`log, wrapper
      ensures log == old(log) + [wrapper.name]
      ensures Marks(ws, selected)
    {
      if IsSelected(selected, wrapper.name) {
        // go action(wrapper, wrappers)
      } else {
        wrapper.Ignore();
      }
      log := log + [wrapper.name];
    }

    method StartService(g: Graph, failing: set<nat>, history: seq<Name>, selected: set<Name>,
                        wrapper: ServiceWrapper, ghost ws: map<Name, Wrapper>)
      returns (err: Option<Failure>)
      requires Marks(ws, selected) && g.Keys == wrappers.Keys
      requires wrapper.name in wrappers && wrappers[wrapper.name] == wrapper
      requires forall n <- log :: n in launched
      modifies this`launched, this`broken, this`log, wrappers.Values
      ensures old(Walk.StartService(g, failing, history, TrailOf(), wrapper.name))
           == if err.None? then Done(TrailOf()) else Failed(TrailOf(), err.value)
      ensures Marks(ws, selected) && forall n <- log :: n in launched
      decreases g.Keys - launched, 0
    {
      var name := wrapper.name;
      if name in launched {
        return None;
      }
      launched := launched + {name};
      VisitLogsNew(g, failing, history + [name], TrailOf(), g[name]);
      err := VisitDeps(g, failing, history + [name], selected, wrapper, ws);
      if err.None? {
        Launch(selected, wrapper, ws);
      }
    }

    /** The loop of `startService` over the dependencies of the wrapper. */
    method VisitDeps(g: Graph, failing: set<nat>, path: seq<Name>, selected: set<Name>,
                     wrapper: ServiceWrapper, ghost ws: map<Name, Wrapper>)
      returns (err: Option<Failure>)
      requires Marks(ws, selected) && g.Keys == wrappers.Keys
      requires wrapper.name in wrappers && wrappers[wrapper.name] == wrapper
      requires path != [] && path[|path| - 1] == wrapper.name
      requires forall n <- log :: n in launched
      modifies this`launched, this`broken, this`log, wrappers.Values
      ensures old(Walk.VisitDeps(g, failing, path, TrailOf(), g[wrapper.name]))
           == if err.None? then Done(TrailOf()) else Failed(TrailOf(), err.value)
      ensures Marks(ws, selected) && forall n <- log :: n in launched
      decreases g.Keys - launched, 1
    {
      hide MarkedAt;
      var rels := g[wrapper.name];
      ghost var all := Walk.VisitDeps(g, failing, path, TrailOf(), rels);
      for i := 0 to |rels|
        invariant Marks(ws, selected) && old(launched) <= launched && forall n <- log :: n in launched
        invariant all == Walk.VisitDeps(g, failing, path, TrailOf(), rels[i..])
      {
        var target := rels[i].target;
        assert rels[i..][0] == rels[i] && rels[i..][1..] == rels[i + 1..];
        if target !in wrappers {
          continue;
        }
        if target in path {
          if !rels[i].optional {
            return Some(Cycle(path + [target]));
          }
          var calls := |broken|;
          IgnoreBackEdge(path, selected, wrapper, target, ws);
          if calls in failing {
            return Some(CycleAction(path + [target]));
          }
        } else {
          err := StartService(g, failing, path, selected, wrappers[target], ws);
          if err.Some? {
            return;
          }
        }
      }
      err := None;
    }

    /** The loop of `traverse` that starts every wrapper: a Go map is visited in any order. */
    method StartAll(g: Graph, failing: set<nat>, selected: set<Name>, ghost ws: map<Name, Wrapper>)
      returns (err: Option<Failure>, ghost order: seq<Name>)
      requires wrappers.Keys == g.Keys && ws == Views(wrappers)
      requires Named(wrappers)
      modifies this`launched, this`broken, this`log, wrappers.Values
      ensures Covers(g, order)
      ensures WalkAll(g, failing, START, order) == if err.None? then Done(TrailOf()) else Failed(TrailOf(), err.value)
      ensures Marks(ws, selected)
    {
      hide Walk.StartService, Walk.WalkAll, MarkedAt;
      launched, broken, log := {}, [], [];
      WalkNothing(g, failing, START);
      err, order := None, [];
      var todo := wrappers.Keys;
      forall n <- wrappers {
        NoMarks(ws[n], selected, n);
      }
      while todo != {}
        invariant err.None? && Marks(ws, selected) && forall n <- log :: n in launched
        invariant todo <= g.Keys && forall n :: n in g <==> n in order || n in todo
        invariant WalkAll(g, failing, START, order) == Done(TrailOf())
        decreases todo
      {
        var n :| n in todo;
        todo := todo - {n};
        WalkAllLast(g, failing, START, order, n);
        err := StartService(g, failing, [], selected, wrappers[n], ws);
        order := order + [n];
        if err.Some? {
          order := RestOfOrder(g, failing, order, todo);
          return;
        }
      }
    }

    /** Lets the launched goroutines run, in any order in which their steps can be taken, until
        all are finished. */
    method RunGoroutines(p: Plan, ghost ws: map<Name, Wrapper>)
      requires Marks(ws, p.selected) && p.log == log
      requires Ready(p, WithIgnored(ws, broken))
      requires forall n <- wrappers :: n in log
      modifies wrappers.Values
      ensures Views(wrappers) == Final(p, WithIgnored(ws, broken))
    {
      hide Ready, Settles, Round.Inv, Final;
      var pcs := map n | n in wrappers :: if IsSelected(p.selected, n) then Entering else Gone;
      AfterWalk(p, ws, broken, pcs, Views(wrappers));
      Drain(p, Snapshot(|log|, pcs, Views(wrappers)), WithIgnored(ws, broken), Final(p, WithIgnored(ws, broken)));
    }

    method Drain(p: Plan, start: Snapshot, ghost ws: map<Name, Wrapper>, ghost final: map<Name, Wrapper>)
      requires Ready(p, ws) && Settles(p, ws, final) && Round.Inv(p, ws, final, start)
      requires start.ws == Views(wrappers) && start.next == |p.log|
      requires Named(wrappers) && forall n <- wrappers :: n in p.log
      modifies wrappers.Values
      ensures Views(wrappers) == final
    {
      var s := start;
      while Running(s.pc) != {}
        invariant Round.Inv(p, ws, final, s) && s.ws == Views(wrappers) && s.next == |p.log|
        decreases TotalLeft(p, s.pc, |p.log|)
      {
        SomeoneCanStep(p, ws, final, s);
        var n :| n in wrappers && CanStep(p, s, n);
        StepIsProgress(p, ws, final, s, n);
        var pc := Advance(p, s.pc[n], n);
        s := Snapshot(s.next, s.pc[n := pc], Views(wrappers));
      }
      AllGoneIsFinal(p, ws, final, s);
    }

    method Advance(p: Plan, pc: Pc, n: Name) returns (pc': Pc)
      requires n in wrappers && n in p.waits && n in p.acts && Named(wrappers)
      modifies wrappers[n]
      ensures var (pc1, w1) := Move(p, old(Views(wrappers)), pc, n);
        pc' == pc1 && Views(wrappers) == old(Views(wrappers))[n := w1]
    {
      pc' := wrappers[n].DoStep(p, pc, wrappers);
    }

    method AddConfig(name: Name)
      modifies this`configs, this`reload
      ensures configs == old(configs) + {name} && reload == old(reload) + [name]
    {
      configs := configs + {name};
      reload := reload + [name];
    }

    /** `newServiceWrapper`, entered in the wrapper map unless its `Reset` fails. */
    method LoadWrapper(k: nat, world: World, name: Name) returns (ok: bool)
      requires Named(wrappers)
      modifies this`wrappers
      ensures Named(wrappers) && forall n <- wrappers :: wrappers[n] in old(wrappers.Values) || fresh(wrappers[n])
      ensures ok == (name in configs && world.creates(k, name))
      ensures Views(wrappers) == if ok then Loaded(old(Views(wrappers)), {name}) else old(Views(wrappers))
    {
      hide Loaded;
      LoadedOne(Views(wrappers), name);
      var wrapper := new ServiceWrapper(name);
      ok := wrapper.Reset((name in configs && world.creates(k, name)));
      if ok {
        wrappers := wrappers[name := wrapper];
      }
    }

    /** Loads each name, up to the first that fails; `traverse` does not look at the error. */
    method LoadWrappers(k: nat, world: World, list: seq<Name>) returns (ghost loaded: set<Name>)
      requires Named(wrappers)
      modifies this`wrappers
      ensures Named(wrappers) && forall n <- wrappers :: wrappers[n] in old(wrappers.Values) || fresh(wrappers[n])
      ensures LoadedFrom(world, k, configs, list, loaded)
      ensures Views(wrappers) == Loaded(old(Views(wrappers)), loaded)
    {
      hide LoadsPrefix, Loaded;
      loaded := {};
      NothingLoaded(world, k, configs, list, old(Views(wrappers)));
      for i := 0 to |list|
        invariant LoadsPrefix(world, k, configs, list, loaded, i)
        invariant Named(wrappers) && forall n <- wrappers :: wrappers[n] in old(wrappers.Values) || fresh(wrappers[n])
        invariant Views(wrappers) == Loaded(old(Views(wrappers)), loaded)
      {
        var ok := LoadWrapper(k, world, list[i]);
        if !ok {
          return;
        }
        LoadedTwice(old(Views(wrappers)), loaded, list[i]);
        OneMoreLoaded(world, k, configs, list, loaded, i);
        loaded := loaded + {list[i]};
      }
    }

    /** Resets every wrapper; the first failure ends it. */
    method ResetAll(k: nat, world: World) returns (ok: bool)
      requires Named(wrappers)
      modifies wrappers.Values
      ensures ok ==> Views(wrappers) == AllReset(old(Views(wrappers)))
      ensures ok == forall n <- wrappers :: wrappers[n].state == Executed || (n in configs && world.creates(k, n))
      ensures Named(wrappers)
    {
      var todo := wrappers.Keys;
      while todo != {}
        invariant todo <= wrappers.Keys
        invariant forall n <- wrappers ::
          wrappers[n].View() == if n in todo then old(Views(wrappers))[n] else ResetOf(old(Views(wrappers))[n])
        invariant forall n <- wrappers :: n in todo || wrappers[n].state == Executed || (n in configs && world.creates(k, n))
        decreases todo
      {
        var n :| n in todo;
        todo := todo - {n};
        ok := wrappers[n].Reset((n in configs && world.creates(k, n)));
        if !ok {
          return;
        }
      }
      return true;
    }

    /** Waits for the selected wrappers, in any order. */
    method Collect(selected: set<Name>) returns (restart: bool, firstError: Err)
      ensures restart == RestartFound(Views(wrappers), selected)
      ensures ErrorFound(Views(wrappers), selected, firstError)
    {
      restart, firstError := false, NoErr;
      var todo := wrappers.Keys;
      while todo != {}
        invariant todo <= wrappers.Keys && firstError != Restart
        invariant restart <==> exists n <- wrappers :: n !in todo && IsSelected(selected, n) && wrappers[n].err == Restart
        invariant firstError == NoErr <==>
          forall n <- wrappers :: n !in todo && IsSelected(selected, n) ==> !wrappers[n].err.Failure?
        invariant firstError != NoErr ==> exists n <- wrappers :: IsSelected(selected, n) && wrappers[n].err == firstError
        decreases todo
      {
        var n :| n in todo;
        todo := todo - {n};
        if IsSelected(selected, n) {
          if wrappers[n].err == Restart {
            restart := true;
          } else if wrappers[n].err != NoErr && firstError == NoErr {
            firstError := wrappers[n].err;
          }
        }
      }
    }

    /** The middle of `traverse`: the walk, and the goroutines it launches. */
    method PlayRound(k: nat, selected: set<Name>, ordered: bool, world: World, ghost names: set<Name>)
      returns (err: Option<Failure>, ghost t: Turn)
      requires Lawful(world, names) && Armed(Views(wrappers))
      requires Named(wrappers)
      modifies this`launched, this`broken, this`log, wrappers.Values
      ensures t.before == old(Views(wrappers)) && t.after == Views(wrappers)
      ensures PlayedBy(world, selected, ordered, k, t)
      ensures if err.None? then Completed(t) else FailsWith(Relationships(world, k, wrappers.Keys), world.failing(k), err.value)
    {
      hide Ready, Final, FailsWith, Completed, Planned, Lawful, Sound, PlayedBy, PlanOf, WalkAll, Armed;
      ghost var before := Views(wrappers);
      var g := Relationships(world, k, wrappers.Keys);
      ghost var order;
      err, order := StartAll(g, world.failing(k), selected, before);
      var plan := PlanOf(world, k, selected, ordered, wrappers.Keys, log);
      PlanFits(world, names, k, selected, ordered, order, before, log);
      if err.None? {
        WalkMakesReady(g, world.failing(k), order, before, plan);
        LaunchOrder(g, world.failing(k), order);
        RunGoroutines(plan, before);
        RoundCompleted(g, world.failing(k), order, before, plan);
      } else {
        WalkFails(g, world.failing(k), order);
      }
      t := Turn(before, Views(wrappers), g, world.failing(k), order, plan);
      RoundPlayed(world, k, selected, ordered, t, log);
    }

    /** The head of `traverse`: the wrappers of the next round. */
    method Prepare(start: bool, k: nat, world: World) returns (ok: bool, ghost added: set<Name>, ghost list: seq<Name>)
      requires Named(wrappers)
      requires start ==> wrappers == map[]
      modifies this`wrappers, this`reload, wrappers.Values
      ensures Named(wrappers) && forall n <- wrappers :: wrappers[n] in old(wrappers.Values) || fresh(wrappers[n])
      ensures if !ok then !start && exists n <- wrappers :: wrappers[n].state == Unknown && !(n in configs && world.creates(k, n))
        else
          && Views(wrappers) == Reloaded(old(Views(wrappers)), added) && reload == []
          && LoadedFrom(world, k, configs, list, added)
          && if start then forall n :: n in list <==> n in configs else list == old(reload)
    {
      hide Views, Named, Loaded, Reloaded, LoadedFrom;
      ok, added, list := true, {}, reload;
      if start {
        var keys := Listing(configs);
        list := keys;
        LoadedIsReloaded(map[], map[]);
        added := LoadWrappers(k, world, keys);
      } else {
        LoadedIsReloaded(Views(wrappers), AllReset(Views(wrappers)));
        ok := ResetAll(k, world);
        if !ok {
          return;
        }
        added := LoadWrappers(k, world, reload);
      }
      reload := [];
    }

    /** The reload callback, as far as the project is concerned: a number of `AddConfig` calls. */
    method ReloadCallback(k: nat, world: World)
      requires reload == []
      modifies this`configs, this`reload
      ensures reload == world.reloads(k, asked) && configs == old(configs) + SetOf(reload)
    {
      var names := world.reloads(k, asked);
      for i := 0 to |names|
        invariant reload == names[..i] && configs == old(configs) + SetOf(reload)
      {
        AddConfig(names[i]);
      }
    }

    /** One more round of the run, from wrappers that have just been prepared. */
    method PlayTurn(k: nat, selected: set<Name>, ordered: bool, world: World, ghost names: set<Name>,
                    ghost run: seq<Turn>, ghost loaded: seq<set<Name>>, ghost added: set<Name>)
      returns (err: Option<Failure>, ghost t: Turn)
      requires Lawful(world, names) && History(names, run, loaded, asked, LastViews(run))
      requires Views(wrappers) == Reloaded(LastViews(run), added) && added <= names
      requires run != [] ==> Restarts(run[|run| - 1]) && added !! asked
      requires Named(wrappers)
      modifies this`launched, this`broken, this`log, this`asked, wrappers.Values
      ensures err.Some? ==> FailsWith(Relationships(world, k, wrappers.Keys), world.failing(k), err.value)
      ensures err.None? ==>
        && History(names, run + [t], loaded + [added], asked, Views(wrappers))
        && |run| <= |names| && PlayedBy(world, selected, ordered, k, t)
    {
      hide Completed, IsTraversal, History, Restarts, Reloaded, FailsWith, Lawful, Named, PlayedBy, Relationships;
      HistoryArmed(names, run, loaded, asked, LastViews(run), added);
      var before := Views(wrappers);
      err, t := PlayRound(k, selected, ordered, world, names);
      if err.None? {
        HistoryNext(names, run, loaded, asked, LastViews(run), t, added);
        assert Asking(before) == AskedForRestart(t);
        asked := asked + Asking(before);
      }
    }

    /** `traverse` up to the point where it waits for the selected wrappers; `stop` is the error
        with which it may return before. */
    method OneRound(start: bool, k: nat, selected: set<Name>, ordered: bool, world: World, ghost names: set<Name>,
                    ghost configs0: set<Name>, ghost run: seq<Turn>, ghost loaded: seq<set<Name>>)
      returns (stop: Option<Result>, ghost t: Turn, ghost added: set<Name>)
      requires Lawful(world, names) && History(names, run, loaded, asked, Views(wrappers)) && Named(wrappers)
      requires Genuine(world, selected, ordered, configs0, run, loaded) && Current(world, configs0, run, configs, reload)
      requires Views(wrappers) == LastViews(run) && start == (run == []) && k == |run|
      requires if start then configs <= names else Restarts(run[k - 1]) && forall n <- reload :: n in names && n !in asked
      modifies this, wrappers.Values
      ensures configs == old(configs)
      ensures stop.Some? ==> !stop.value.Finished? && Justified(stop.value, world, k, configs, selected, Views(wrappers))
      ensures stop.None? ==>
        && History(names, run + [t], loaded + [added], asked, Views(wrappers))
        && Genuine(world, selected, ordered, configs0, run + [t], loaded + [added])
        && Views(wrappers) == t.after && t.plan.selected == selected
        && selected <= wrappers.Keys
        && Named(wrappers) && reload == [] && |run| <= |names|
        && (forall n <- wrappers :: wrappers[n] in old(wrappers.Values) || fresh(wrappers[n]))
    {
      hide Completed, IsTraversal, History, Restarts, Reloaded, Views, Lawful, FailsWith, Named, Genuine, Current, LoadedFrom, LoadedAt, PlayedBy;
      t := Turn(map[], map[], map[], {}, [], Plan([], {}, ordered, map[], map[]));
      var ok;
      ghost var list;
      ok, added, list := Prepare(start, k, world);
      if !ok {
        ResetIsJustified(world, k, configs, selected, wrappers);
        stop := Some(ResetFailed);
        return;
      }
      AddedAreNamed(world, k, configs, list, added);
      CurrentLoads(world, configs0, run, configs, list, old(reload), added);
      var missing := set s | s in selected && s !in wrappers;
      if missing != {} {
        var s :| s in missing;
        stop := Some(NoSuchService(s));
        return;
      }
      assert forall s <- selected :: s !in missing;
      var err;
      err, t := PlayTurn(k, selected, ordered, world, names, run, loaded, added);
      if err.Some? {
        stop := Some(WalkFailed(err.value));
        return;
      }
      HistoryIs(names, run + [t], loaded + [added], asked, Views(wrappers));
      GenuineNext(world, selected, ordered, configs0, run, loaded, t, added);
      SelectionOf(world, selected, ordered, k, t);
      stop := None;
    }

    /** Between two rounds. */
    method Reload(k: nat, world: World, ghost names: set<Name>, ghost configs0: set<Name>, ghost run: seq<Turn>,
                  ghost loaded: seq<set<Name>>, ghost t: Turn)
      requires Lawful(world, names) && History(names, run + [t], loaded, asked, Views(wrappers))
      requires k == |run| && configs == ConfigsAt(world, configs0, run, k) && reload == []
      modifies this`configs, this`reload
      ensures Current(world, configs0, run + [t], configs, reload)
      ensures forall n <- reload :: n in names && n !in asked
    {
      hide Completed, IsTraversal, Views, Lawful, RestartedBefore, Current;
      HistoryAsked(names, run + [t], loaded, asked, Views(wrappers));
      ghost var before := configs;
      ReloadCallback(k, world);
      LawfulReload(world, names, k, asked);
      CurrentNext(world, configs0, run, before, t, asked, reload);
    }

    method Traverse(start: bool, k: nat, selected: set<Name>, ordered: bool, world: World,
                    ghost names: set<Name>, ghost configs0: set<Name>, ghost run: seq<Turn>, ghost loaded: seq<set<Name>>)
      returns (r: Result, ghost run': seq<Turn>, ghost loaded': seq<set<Name>>)
      requires Lawful(world, names) && History(names, run, loaded, asked, Views(wrappers)) && Named(wrappers)
      requires Genuine(world, selected, ordered, configs0, run, loaded) && Current(world, configs0, run, configs, reload)
      requires Views(wrappers) == LastViews(run) && start == (run == []) && k == |run|
      requires if start then configs <= names else Restarts(run[k - 1]) && forall n <- reload :: n in names && n !in asked
      modifies this, wrappers.Values
      ensures IsTraversal(run', loaded') && Genuine(world, selected, ordered, configs0, run', loaded')
      ensures r.Finished? ==>
        && run' != [] && Views(wrappers) == LastViews(run') && !Restarts(run'[|run'| - 1])
        && selected <= wrappers.Keys && Succeeded(Views(wrappers), selected, r.firstError)
        && Delivered(world, selected, run', loaded', Views(wrappers), r.firstError)
      ensures Justified(r, world, |run'|, configs, selected, Views(wrappers))
      decreases |names| + 1 - k
    {
      hide Completed, IsTraversal, History, Views, Lawful, FailsWith, Named, RestartFound, ErrorFound, Delivered, Genuine, Current, Relationships, RestartedBefore, ConfigsAt;
      run', loaded' := run, loaded;
      HistoryIs(names, run, loaded, asked, Views(wrappers));
      CurrentConfigs(world, configs0, run, configs, reload);
      var stop;
      ghost var t, added;
      stop, t, added := OneRound(start, k, selected, ordered, world, names, configs0, run, loaded);
      if stop.Some? {
        r := stop.value;
        return;
      }
      run', loaded' := run + [t], loaded + [added];
      HistoryIs(names, run', loaded', asked, Views(wrappers));
      var restart, firstError := Collect(selected);
      if restart {
        RestartNeeded(run', selected);
        Reload(k, world, names, configs0, run, loaded', t);
        r, run', loaded' := Traverse(false, k + 1, selected, ordered, world, names, configs0, run', loaded');
        return;
      }
      HistoryEnds(names, run', loaded', asked, Views(wrappers), selected);
      Deliver(world, selected, ordered, configs0, run', loaded', firstError);
      r := Finished(firstError);
    }

    /** Runs an action for the named services, or for all: the entry point of every project
        operation. The run of rounds it goes through is the ghost result. */
    method ForEach(services: seq<Name>, ordered: bool, world: World, ghost names: set<Name>)
      returns (r: Result, ghost run: seq<Turn>, ghost loaded: seq<set<Name>>)
      requires Lawful(world, names) && configs <= names
      modifies this, wrappers.Values
      ensures IsTraversal(run, loaded) && Genuine(world, SetOf(services), ordered, old(configs), run, loaded)
      ensures r.Finished? ==>
        && run != [] && Views(wrappers) == LastViews(run) && !Restarts(run[|run| - 1])
        && (forall n <- services :: n in wrappers) && Succeeded(Views(wrappers), SetOf(services), r.firstError)
        && Delivered(world, SetOf(services), run, loaded, Views(wrappers), r.firstError)
        && forall n <- wrappers ::
          && (services == [] || n in services ==> wrappers[n].state == Executed && wrappers[n].runs == 1)
          && (services != [] && n !in services ==> wrappers[n].runs == 0 && wrappers[n].err == NoErr)
      ensures Justified(r, world, |run|, configs, SetOf(services), Views(wrappers))
    {
      hide IsTraversal, Genuine, Lawful, Succeeded, Justified, Named;
      wrappers, asked := map[], {};
      var selected := SetOf(services);
      StartsGenuine(world, selected, ordered, names, configs);
      r, run, loaded := Traverse(true, 0, selected, ordered, world, names, configs, [], []);
      if r.Finished? {
        ForServices(services, world, run, loaded, Views(wrappers), r.firstError);
        assert forall n <- wrappers :: wrappers[n].View() == Views(wrappers)[n];
      }
    }

    /** The names whose action has run since `before` and returned ErrRestart. */
    function Asking(before: map<Name, Wrapper>): set<Name>
      reads this, wrappers.Values
    {
      set n | n in before && n in wrappers && wrappers[n].runs > before[n].runs && wrappers[n].err == Restart
    }

    method Listing(names: set<Name>) returns (list: seq<Name>)
      ensures forall n :: n in list <==> n in names
    {
      list := [];
      var todo := names;
      while todo != {}
        invariant todo <= names && forall n :: n in list <==> n in names && n !in todo
        decreases todo
      {
        var n :| n in todo;
        todo := todo - {n};
        list := list + [n];
      }
    }
  }

  function PlanOf(world: World, k: nat, selected: set<Name>, ordered: bool, names: set<Name>, log: seq<Name>): (p: Plan)
    ensures p.log == log && p.selected == selected
  {
    Plan(log, selected, ordered, map n | n in names :: world.waits(k, n), map n | n in names :: world.acts(k, n))
  }

  lemma PlanFits(world: World, names: set<Name>, k: nat, selected: set<Name>, ordered: bool, order: seq<Name>,
                 before: map<Name, Wrapper>, log: seq<Name>)
    requires Lawful(world, names)
    requires var g := Relationships(world, k, before.Keys);
      Covers(g, order) && log == WalkAll(g, world.failing(k), START, order).t.log
    ensures Planned(Relationships(world, k, before.Keys), world.failing(k), order, before, PlanOf(world, k, selected, ordered, before.Keys, log))
  {
    hide WalkAll;
  }

  lemma RoundPlayed(world: World, k: nat, selected: set<Name>, ordered: bool, t: Turn, log: seq<Name>)
    requires t.g == Relationships(world, k, t.before.Keys) && t.failing == world.failing(k)
    requires t.plan == PlanOf(world, k, selected, ordered, t.before.Keys, log)
    ensures PlayedBy(world, selected, ordered, k, t)
  {
  }

  lemma RoundCompleted(g: Graph, failing: set<nat>, order: seq<Name>, before: map<Name, Wrapper>, p: Plan)
    requires Planned(g, failing, order, before, p) && WalkAll(g, failing, START, order).Done?
    requires Ready(p, Started(g, failing, order, before))
    ensures Completed(Turn(before, Final(p, Started(g, failing, order, before)), g, failing, order, p))
  {
  }

  function Running(pcs: map<Name, Pc>): set<Name> {
    set n | n in pcs && pcs[n] != Gone
  }

  lemma SomeoneCanStep(p: Plan, ws: map<Name, Wrapper>, final: map<Name, Wrapper>, s: Snapshot)
    requires Ready(p, ws) && Settles(p, ws, final) && Round.Inv(p, ws, final, s) && s.next == |p.log|
    requires Running(s.pc) != {} && forall n <- ws :: n in p.log
    ensures exists n :: n in s.ws && CanStep(p, s, n)
  {
    hide OnTrack, Settles;
    var m :| m in Running(s.pc);
    assert m in ws;
    var j :| 0 <= j < |p.log| && p.log[j] == m;
    var n := FirstUnfinishedMoves(p, ws, final, s, j);
    assert n in s.ws;
  }

  lemma AllGoneIsFinal(p: Plan, ws: map<Name, Wrapper>, final: map<Name, Wrapper>, s: Snapshot)
    requires Settles(p, ws, final) && Round.Inv(p, ws, final, s) && s.next == |p.log| && Running(s.pc) == {}
    ensures s.ws == final
  {
    forall n <- p.log
      ensures n in s.pc && s.pc[n] == Gone
    {
      assert n in ws && n !in Running(s.pc);
    }
    QuietIsFinal(p, ws, final, s);
  }

  lemma StepIsProgress(p: Plan, ws: map<Name, Wrapper>, final: map<Name, Wrapper>, s: Snapshot, n: Name)
    requires Distinct(p.log) && Settles(p, ws, final) && Round.Inv(p, ws, final, s) && CanStep(p, s, n)
    ensures var (pc, w) := Move(p, s.ws, s.pc[n], n);
      var s' := s.(pc := s.pc[n := pc], ws := s.ws[n := w]);
      Round.Inv(p, ws, final, s') && TotalLeft(p, s'.pc, |p.log|) < TotalLeft(p, s.pc, |p.log|)
  {
    GoKeeps(p, ws, final, s, n);
    assert Step(p, s, GoStep(p, s, n), Goroutine(n));
    StepDrops(p, ws, final, s, GoStep(p, s, n), Goroutine(n));
  }

  /** When the walk is over, every goroutine is about to enter `Do`. */
  lemma AfterWalk(p: Plan, ws: map<Name, Wrapper>, broken: seq<seq<Name>>, pcs: map<Name, Pc>, views: map<Name, Wrapper>)
    requires Ready(p, WithIgnored(ws, broken)) && pcs.Keys == views.Keys == ws.Keys
    requires forall n <- ws :: n in p.log && views[n] == MarkedAt(ws[n], p.selected, broken, p.log, n)
    requires forall n <- ws :: pcs[n] == if IsSelected(p.selected, n) then Entering else Gone
    ensures var ws' := WithIgnored(ws, broken);
      Settles(p, ws', Final(p, ws')) && Round.Inv(p, ws', Final(p, ws'), Snapshot(|p.log|, pcs, views))
  {
    var ws' := WithIgnored(ws, broken);
    var s, final := Snapshot(|p.log|, pcs, views), Final(p, ws');
    FinalSettles(p, ws');
    assert p.log[..|p.log|] == p.log;
    forall n <- ws'
      ensures OnTrack(p, ws', final, s, n)
    {
      assert SettlesAt(p, ws', final, n);
    }
  }
}
