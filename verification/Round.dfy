/** One round of `traverse`: the walk launches a goroutine per selected wrapper, and each one
    runs `serviceWrapper.Do`. The steps of all goroutines interleave freely. */
module Round {
  import opened Walk

  datatype State = Unknown | Executed

  datatype Err = NoErr | Restart | Failure(msg: string)

  /** The fields of a `serviceWrapper`: the counter of its WaitGroup, its state and error, and
      the targets passed to `IgnoreDep`. `runs` counts how often its action has started. */
  datatype Wrapper = Wrapper(done: int, state: State, err: Err, ignored: set<Name>, runs: nat)

  /** What is fixed during a round: the launch order decided by the walk, the selection, whether
      `Do` was given the wrappers to wait for, the targets each goroutine waits for (in the order
      in which `DependentServices` lists them), and what each action returns. */
  datatype Plan = Plan(log: seq<Name>, selected: set<Name>, ordered: bool,
                       waits: map<Name, seq<Name>>, acts: map<Name, Err>)

  /** Where the goroutine of a wrapper is: not launched, about to enter `Do`, waiting for
      dependency number `i`, running its action, about to call `Done`, or finished. */
  datatype Pc = Idle | Entering | Waiting(i: nat) | Acting | Leaving | Gone

  /** `next` is the position of the walk in the launch order. */
  datatype Snapshot = Snapshot(next: nat, pc: map<Name, Pc>, ws: map<Name, Wrapper>)

  datatype Thread = Walker | Goroutine(n: Name)

  predicate IsSelected(selected: set<Name>, n: Name) {
    selected == {} || n in selected
  }

  /** The walk's next launch or `Ignore`. */
  function WalkerStep(p: Plan, s: Snapshot): Snapshot
    requires s.next < |p.log| && p.log[s.next] in s.ws
  {
    var n := p.log[s.next];
    if IsSelected(p.selected, n) then
      s.(next := s.next + 1, pc := s.pc[n := Entering])
    else
      var w := s.ws[n];
      s.(next := s.next + 1, pc := s.pc[n := Gone], ws := s.ws[n := w.(state := Executed, done := w.done - 1)])
  }

  /** `waitForDeps` skips ignored targets and targets without a wrapper. */
  predicate Waits(ws: map<Name, Wrapper>, n: Name, d: Name)
    requires n in ws
  {
    d !in ws[n].ignored && d in ws
  }

  /** A goroutine can always move, except that `Wait` blocks until the counter is zero. */
  predicate CanStep(p: Plan, s: Snapshot, n: Name)
    requires s.ws.Keys <= p.waits.Keys
  {
    && n in s.pc && n in s.ws
    && s.pc[n] !in {Idle, Gone}
    && (s.pc[n].Waiting? && s.pc[n].i < |p.waits[n]| && Waits(s.ws, n, p.waits[n][s.pc[n].i]) ==>
          s.ws[p.waits[n][s.pc[n].i]].done == 0)
  }

  /** The next atomic step of `Do` for `n`: its new program counter and its new wrapper. */
  function Move(p: Plan, ws: map<Name, Wrapper>, pc: Pc, n: Name): (Pc, Wrapper)
    requires n in ws && n in p.waits && n in p.acts
  {
    var w := ws[n];
    match pc
    case Entering =>
      (if w.state == Executed then Leaving else Waiting(if p.ordered then 0 else |p.waits[n]|), w)
    case Waiting(i) =>
      if i >= |p.waits[n]| then (Acting, w.(state := Executed, runs := w.runs + 1))
      else if Waits(ws, n, p.waits[n][i]) && ws[p.waits[n][i]].err == Restart then (Leaving, w.(err := Restart))
      else (Waiting(i + 1), w)
    case Acting => (Leaving, w.(err := p.acts[n]))
    case Leaving => (Gone, w.(done := w.done - 1))
    case _ => (pc, w)
  }

  function GoStep(p: Plan, s: Snapshot, n: Name): Snapshot
    requires s.ws.Keys <= p.waits.Keys && s.ws.Keys <= p.acts.Keys
    requires CanStep(p, s, n)
  {
    var (pc, w) := Move(p, s.ws, s.pc[n], n);
    s.(pc := s.pc[n := pc], ws := s.ws[n := w])
  }

  ghost predicate Shaped(p: Plan, ws: map<Name, Wrapper>) {
    && (forall n <- p.log :: n in ws)
    && ws.Keys <= p.waits.Keys && ws.Keys <= p.acts.Keys
  }

  /** What `traverse` guarantees when a round starts, for the launch order of a walk (complete,
      or cut short by an error): see `Traverse` for where this comes from. */
  ghost predicate Ready(p: Plan, ws: map<Name, Wrapper>) {
    && Shaped(p, ws) && Distinct(p.log)
    && (forall n <- ws :: ws[n].done == 1 && ws[n].err != Restart)
    && (forall i, d :: 0 <= i < |p.log| && d in p.waits[p.log[i]] && Waits(ws, p.log[i], d) ==> d in p.log[..i])
  }

  function Begin(ws: map<Name, Wrapper>): Snapshot {
    Snapshot(0, map n | n in ws :: Idle, ws)
  }

  /** One atomic step of the walk or of a goroutine. */
  ghost predicate Step(p: Plan, s: Snapshot, s': Snapshot, th: Thread) {
    && s.ws.Keys <= p.waits.Keys && s.ws.Keys <= p.acts.Keys
    && match th
       case Walker => s.next < |p.log| && p.log[s.next] in s.ws && s' == WalkerStep(p, s)
       case Goroutine(n) => CanStep(p, s, n) && s' == GoStep(p, s, n)
  }

  /** An interleaving: `schedule` says whose step leads from each snapshot to the next. */
  ghost predicate IsRun(p: Plan, ws: map<Name, Wrapper>, tr: seq<Snapshot>, schedule: seq<Thread>) {
    && |tr| == |schedule| + 1 && tr[0] == Begin(ws)
    && forall i :: 0 <= i < |schedule| ==> Step(p, tr[i], tr[i + 1], schedule[i])
  }

  /** All launched goroutines have finished and the walk is over. */
  ghost predicate Quiescent(p: Plan, s: Snapshot) {
    s.next == |p.log| && forall n <- p.log :: n in s.pc && s.pc[n] == Gone
  }

  // ---------- The sequential reference: one service after the other ----------

  /** A dependency that `n` waits for ended in ErrRestart. */
  ghost predicate Blocked(p: Plan, ws: map<Name, Wrapper>, n: Name)
    requires n in ws && n in p.waits
  {
    p.ordered && exists d <- p.waits[n] :: Waits(ws, n, d) && ws[d].err == Restart
  }

  /** The wrapper `w` of `n` after its turn. */
  ghost function AfterTurn(p: Plan, w: Wrapper, n: Name, blocked: bool): Wrapper
    requires n in p.acts
  {
    var w := w.(done := w.done - 1);
    if !IsSelected(p.selected, n) then w.(state := Executed)
    else if w.state == Executed then w
    else if blocked then w.(err := Restart)
    else w.(state := Executed, runs := w.runs + 1, err := p.acts[n])
  }

  /** Running the first `k` services of the launch order, each to completion, one by one. */
  ghost function OneByOne(p: Plan, ws: map<Name, Wrapper>, k: nat): (r: map<Name, Wrapper>)
    requires k <= |p.log| && Shaped(p, ws)
    ensures r.Keys == ws.Keys
  {
    if k == 0 then ws
    else
      var r, n := OneByOne(p, ws, k - 1), p.log[k - 1];
      r[n := AfterTurn(p, r[n], n, Blocked(p, r, n))]
  }

  ghost function Final(p: Plan, ws: map<Name, Wrapper>): map<Name, Wrapper>
    requires Shaped(p, ws)
  {
    OneByOne(p, ws, |p.log|)
  }

  lemma {:induction false} OneByOneUntouched(p: Plan, ws: map<Name, Wrapper>, j: nat, k: nat, n: Name)
    requires Shaped(p, ws) && j <= k <= |p.log| && n in ws
    ensures n !in p.log[j..k] ==> OneByOne(p, ws, k)[n] == OneByOne(p, ws, j)[n]
    ensures OneByOne(p, ws, k)[n].ignored == OneByOne(p, ws, j)[n].ignored
  {
    if j < k {
      OneByOneUntouched(p, ws, j, k - 1, n);
      assert p.log[j..k] == p.log[j..k - 1] + [p.log[k - 1]];
    }
  }

  lemma BlockedSame(p: Plan, ws: map<Name, Wrapper>, ws': map<Name, Wrapper>, n: Name)
    requires ws.Keys == ws'.Keys && n in ws && n in p.waits && ws[n].ignored == ws'[n].ignored
    requires forall d :: d in p.waits[n] && Waits(ws, n, d) ==> ws[d] == ws'[d]
    ensures Blocked(p, ws, n) == Blocked(p, ws', n)
  {
    forall d | d in p.waits[n]
      ensures Waits(ws, n, d) == Waits(ws', n, d)
    {
      assert d in ws.Keys <==> d in ws'.Keys;
    }
  }

  lemma TurnAt(p: Plan, ws: map<Name, Wrapper>, i: nat)
    requires Ready(p, ws) && i < |p.log|
    ensures Final(p, ws)[p.log[i]] == AfterTurn(p, ws[p.log[i]], p.log[i], Blocked(p, Final(p, ws), p.log[i]))
  {
    var n, before, final := p.log[i], OneByOne(p, ws, i), Final(p, ws);
    assert n !in p.log[0..i] && n !in p.log[i + 1..|p.log|];
    OneByOneUntouched(p, ws, 0, i, n);
    OneByOneUntouched(p, ws, i, |p.log|, n);
    OneByOneUntouched(p, ws, i + 1, |p.log|, n);
    forall d | d in p.waits[n] && Waits(before, n, d)
      ensures before[d] == final[d]
    {
      assert Waits(ws, n, d);
      assert d in p.log[..i];
      assert d !in p.log[i..|p.log|];
      OneByOneUntouched(p, ws, i, |p.log|, d);
    }
    BlockedSame(p, before, final, n);
  }

  /** The final wrapper of a service depends only on the final wrappers it waits for. */
  lemma FinalOf(p: Plan, ws: map<Name, Wrapper>, n: Name)
    requires Ready(p, ws) && n in ws
    ensures Final(p, ws)[n] == if n in p.log then AfterTurn(p, ws[n], n, Blocked(p, Final(p, ws), n)) else ws[n]
    ensures Final(p, ws)[n].ignored == ws[n].ignored
  {
    if i :| 0 <= i < |p.log| && p.log[i] == n {
      TurnAt(p, ws, i);
    } else {
      OneByOneUntouched(p, ws, 0, |p.log|, n);
    }
  }

  // ---------- The invariant of every interleaving ----------

  /** `final` is what the turn of every service leads to. */
  ghost predicate Settles(p: Plan, ws: map<Name, Wrapper>, final: map<Name, Wrapper>) {
    && Shaped(p, ws) && final.Keys == ws.Keys
    && (forall n <- ws :: SettlesAt(p, ws, final, n))
  }

  ghost predicate SettlesAt(p: Plan, ws: map<Name, Wrapper>, final: map<Name, Wrapper>, n: Name)
    requires Shaped(p, ws) && final.Keys == ws.Keys && n in ws
  {
    && ws[n].done == 1 && final[n].ignored == ws[n].ignored
    && final[n] == if n in p.log then AfterTurn(p, ws[n], n, Blocked(p, final, n)) else ws[n]
  }

  lemma FinalSettles(p: Plan, ws: map<Name, Wrapper>)
    requires Ready(p, ws)
    ensures Settles(p, ws, Final(p, ws))
  {
    forall n <- ws
      ensures SettlesAt(p, ws, Final(p, ws), n)
    {
      FinalOf(p, ws, n);
    }
  }

  /** The first `k` dependencies that `n` waits for are finished and did not end in ErrRestart. */
  ghost predicate Clear(p: Plan, final: map<Name, Wrapper>, pc: map<Name, Pc>, n: Name, k: nat)
    requires n in final && n in p.waits && k <= |p.waits[n]| && pc.Keys == final.Keys
  {
    forall j :: 0 <= j < k ==> Waits(final, n, p.waits[n][j]) ==>
      p.waits[n][j] in pc && pc[p.waits[n][j]] == Gone && final[p.waits[n][j]].err != Restart
  }

  /** How far the goroutine of `n` is, and what that says about its wrapper. */
  ghost predicate OnTrack(p: Plan, ws: map<Name, Wrapper>, final: map<Name, Wrapper>, s: Snapshot, n: Name)
    requires Shaped(p, ws) && n in ws && ws.Keys == final.Keys == s.pc.Keys == s.ws.Keys
  {
    var w := s.ws[n];
    && (s.pc[n].Waiting? || s.pc[n].Acting? ==> ws[n].state == Unknown)
    && (s.pc[n] !in {Idle, Gone} ==> IsSelected(p.selected, n))
    && (p.ordered && w.runs > ws[n].runs ==> Clear(p, final, s.pc, n, |p.waits[n]|))
    && match s.pc[n]
       case Idle => w == ws[n]
       case Entering => w == ws[n]
       case Waiting(k) => w == ws[n] && k <= |p.waits[n]| && if p.ordered then Clear(p, final, s.pc, n, k) else k == |p.waits[n]|
       case Acting => w == ws[n].(state := Executed, runs := ws[n].runs + 1)
       case Leaving => w == final[n].(done := 1)
       case Gone => w == final[n]
  }

  ghost predicate Inv(p: Plan, ws: map<Name, Wrapper>, final: map<Name, Wrapper>, s: Snapshot) {
    && Shaped(p, ws) && s.next <= |p.log|
    && ws.Keys == final.Keys == s.pc.Keys == s.ws.Keys
    && (forall n <- ws :: s.pc[n] != Idle <==> n in p.log[..s.next])
    && (forall n <- ws :: OnTrack(p, ws, final, s, n))
  }

  lemma DoneMeansGone(p: Plan, ws: map<Name, Wrapper>, final: map<Name, Wrapper>, s: Snapshot, n: Name)
    requires Settles(p, ws, final) && Inv(p, ws, final, s) && n in ws
    ensures s.ws[n].done == if s.pc[n] == Gone then 0 else 1
    ensures s.ws[n].ignored == ws[n].ignored == final[n].ignored
    ensures s.pc[n] == Gone ==> s.ws[n] == final[n]
  {
    assert OnTrack(p, ws, final, s, n);
    assert SettlesAt(p, ws, final, n);
  }

  /** Nobody else's progress is disturbed when `n` moves on. */
  lemma Frame(p: Plan, ws: map<Name, Wrapper>, final: map<Name, Wrapper>, s: Snapshot, s': Snapshot, n: Name)
    requires Inv(p, ws, final, s) && n in ws && s.pc[n] != Gone
    requires n in s'.pc && s'.pc == s.pc[n := s'.pc[n]] && s'.ws.Keys == ws.Keys
    requires forall m <- ws :: m != n ==> s'.ws[m] == s.ws[m]
    ensures forall m <- ws :: m != n ==> OnTrack(p, ws, final, s', m)
  {
    forall m <- ws | m != n
      ensures OnTrack(p, ws, final, s', m)
    {
      assert OnTrack(p, ws, final, s, m);
    }
  }

  lemma WalkerKeeps(p: Plan, ws: map<Name, Wrapper>, final: map<Name, Wrapper>, s: Snapshot)
    requires Distinct(p.log) && Settles(p, ws, final) && Inv(p, ws, final, s) && s.next < |p.log|
    ensures Inv(p, ws, final, WalkerStep(p, s))
  {
    var n, s' := p.log[s.next], WalkerStep(p, s);
    assert n !in p.log[..s.next];
    assert s.pc[n] == Idle && OnTrack(p, ws, final, s, n);
    assert p.log[..s'.next] == p.log[..s.next] + [n];
    assert SettlesAt(p, ws, final, n);
    assert OnTrack(p, ws, final, s', n);
    Frame(p, ws, final, s, s', n);
  }

  /** A finished dependency that ended in ErrRestart blocks `n`. */
  lemma BlockedBy(p: Plan, ws: map<Name, Wrapper>, final: map<Name, Wrapper>, n: Name, d: Name)
    requires Settles(p, ws, final) && n in p.log && p.ordered && IsSelected(p.selected, n) && ws[n].state == Unknown
    requires d in p.waits[n] && Waits(final, n, d) && final[d].err == Restart
    ensures final[n] == ws[n].(err := Restart, done := 0)
  {
    assert SettlesAt(p, ws, final, n);
  }

  lemma WaitOnTrack(p: Plan, ws: map<Name, Wrapper>, final: map<Name, Wrapper>, s: Snapshot, n: Name)
    requires Settles(p, ws, final) && Inv(p, ws, final, s) && CanStep(p, s, n)
    requires s.pc[n].Waiting? && s.pc[n].i < |p.waits[n]|
    ensures OnTrack(p, ws, final, GoStep(p, s, n), n)
  {
    var i := s.pc[n].i;
    var d := p.waits[n][i];
    assert OnTrack(p, ws, final, s, n);
    assert n in p.log && p.ordered;
    DoneMeansGone(p, ws, final, s, n);
    if Waits(final, n, d) {
      DoneMeansGone(p, ws, final, s, d);
      if final[d].err == Restart {
        BlockedBy(p, ws, final, n, d);
      }
    }
    assert (Waits(final, n, d) && final[d].err == Restart) || Clear(p, final, s.pc, n, i + 1);
  }

  lemma ClearIsNotBlocked(p: Plan, ws: map<Name, Wrapper>, final: map<Name, Wrapper>, pc: map<Name, Pc>, n: Name)
    requires Settles(p, ws, final) && n in ws && pc.Keys == final.Keys
    requires p.ordered ==> Clear(p, final, pc, n, |p.waits[n]|)
    ensures !Blocked(p, final, n)
  {
  }

  lemma GoOnTrack(p: Plan, ws: map<Name, Wrapper>, final: map<Name, Wrapper>, s: Snapshot, n: Name)
    requires Settles(p, ws, final) && Inv(p, ws, final, s) && CanStep(p, s, n)
    ensures OnTrack(p, ws, final, GoStep(p, s, n), n)
  {
    assert OnTrack(p, ws, final, s, n);
    assert n in p.log;
    assert SettlesAt(p, ws, final, n);
    match s.pc[n]
    case Entering =>
    case Waiting(i) =>
      if i < |p.waits[n]| {
        WaitOnTrack(p, ws, final, s, n);
      }
    case Acting =>
      ClearIsNotBlocked(p, ws, final, s.pc, n);
    case Leaving =>
  }

  lemma GoTouches(p: Plan, s: Snapshot, n: Name)
    requires s.ws.Keys <= p.waits.Keys && s.ws.Keys <= p.acts.Keys && CanStep(p, s, n)
    ensures var s' := GoStep(p, s, n);
      && s'.next == s.next && s.pc[n] !in {Idle, Gone}
      && s'.pc == s.pc[n := s'.pc[n]] && s'.pc[n] != Idle
      && s'.ws == s.ws[n := s'.ws[n]]
  {
  }

  lemma GoKeeps(p: Plan, ws: map<Name, Wrapper>, final: map<Name, Wrapper>, s: Snapshot, n: Name)
    requires Settles(p, ws, final) && Inv(p, ws, final, s) && CanStep(p, s, n)
    ensures Inv(p, ws, final, GoStep(p, s, n))
  {
    GoOnTrack(p, ws, final, s, n);
    GoTouches(p, s, n);
    MoveKeeps(p, ws, final, s, GoStep(p, s, n), n);
  }

  lemma MoveKeeps(p: Plan, ws: map<Name, Wrapper>, final: map<Name, Wrapper>, s: Snapshot, s': Snapshot, n: Name)
    requires Inv(p, ws, final, s) && n in ws && s.pc[n] !in {Idle, Gone}
    requires n in s'.pc && n in s'.ws && s'.next == s.next && s'.pc[n] != Idle
    requires s'.pc == s.pc[n := s'.pc[n]] && s'.ws == s.ws[n := s'.ws[n]]
    requires s'.pc.Keys == s'.ws.Keys == ws.Keys && OnTrack(p, ws, final, s', n)
    ensures Inv(p, ws, final, s')
  {
    Frame(p, ws, final, s, s', n);
  }

  lemma StepKeeps(p: Plan, ws: map<Name, Wrapper>, final: map<Name, Wrapper>, s: Snapshot, s': Snapshot, th: Thread)
    requires Distinct(p.log) && Settles(p, ws, final) && Inv(p, ws, final, s) && Step(p, s, s', th)
    ensures Inv(p, ws, final, s')
  {
    match th
    case Walker => WalkerKeeps(p, ws, final, s);
    case Goroutine(n) => GoKeeps(p, ws, final, s, n);
  }

  lemma {:induction false} RunKeeps(p: Plan, ws: map<Name, Wrapper>, tr: seq<Snapshot>, schedule: seq<Thread>, i: nat)
    requires Ready(p, ws) && IsRun(p, ws, tr, schedule) && i < |tr|
    ensures Settles(p, ws, Final(p, ws)) && Inv(p, ws, Final(p, ws), tr[i])
  {
    FinalSettles(p, ws);
    if i > 0 {
      RunKeeps(p, ws, tr, schedule, i - 1);
      assert Step(p, tr[i - 1], tr[i], schedule[i - 1]);
      StepKeeps(p, ws, Final(p, ws), tr[i - 1], tr[i], schedule[i - 1]);
    }
  }

  // ---------- Every interleaving ends, and never deadlocks ----------

  /** How many steps a service still has to take at most. */
  function StepsLeft(p: Plan, pc: Pc, n: Name): nat
    requires n in p.waits
  {
    match pc
    case Idle => |p.waits[n]| + 5
    case Entering => |p.waits[n]| + 4
    case Waiting(i) => if i <= |p.waits[n]| then |p.waits[n]| - i + 3 else 3
    case Acting => 2
    case Leaving => 1
    case Gone => 0
  }

  function TotalLeft(p: Plan, pc: map<Name, Pc>, k: nat): nat
    requires k <= |p.log| && forall n <- p.log :: n in p.waits && n in pc
  {
    if k == 0 then 0 else TotalLeft(p, pc, k - 1) + StepsLeft(p, pc[p.log[k - 1]], p.log[k - 1])
  }

  lemma {:induction false} TotalDrops(p: Plan, pc: map<Name, Pc>, pc': map<Name, Pc>, j: nat, k: nat)
    requires Distinct(p.log) && j < |p.log| && k <= |p.log|
    requires forall n <- p.log :: n in p.waits && n in pc && n in pc' && (n != p.log[j] ==> pc'[n] == pc[n])
    requires StepsLeft(p, pc'[p.log[j]], p.log[j]) < StepsLeft(p, pc[p.log[j]], p.log[j])
    ensures if j < k then TotalLeft(p, pc', k) < TotalLeft(p, pc, k) else TotalLeft(p, pc', k) == TotalLeft(p, pc, k)
  {
    if k > 0 {
      TotalDrops(p, pc, pc', j, k - 1);
    }
  }

  /** A goroutine's step brings it closer to its end. */
  lemma GoGetsCloser(p: Plan, s: Snapshot, n: Name)
    requires s.ws.Keys <= p.waits.Keys && s.ws.Keys <= p.acts.Keys && CanStep(p, s, n)
    requires s.pc[n].Waiting? ==> s.pc[n].i <= |p.waits[n]|
    ensures StepsLeft(p, GoStep(p, s, n).pc[n], n) < StepsLeft(p, s.pc[n], n)
  {
  }

  /** A step moves one service of the launch order, and brings it closer to its end. */
  lemma MovesOne(p: Plan, ws: map<Name, Wrapper>, final: map<Name, Wrapper>, s: Snapshot, s': Snapshot, th: Thread) returns (j: nat)
    requires Distinct(p.log) && Inv(p, ws, final, s) && Step(p, s, s', th)
    ensures j < |p.log| && s'.pc.Keys == ws.Keys
    ensures forall n <- ws :: n != p.log[j] ==> s'.pc[n] == s.pc[n]
    ensures StepsLeft(p, s'.pc[p.log[j]], p.log[j]) < StepsLeft(p, s.pc[p.log[j]], p.log[j])
  {
    match th
    case Walker =>
      j := s.next;
      assert p.log[j] !in p.log[..j];
    case Goroutine(n) =>
      assert OnTrack(p, ws, final, s, n);
      assert n in p.log[..s.next];
      j :| 0 <= j < s.next && p.log[j] == n;
      GoTouches(p, s, n);
      GoGetsCloser(p, s, n);
  }

  lemma StepDrops(p: Plan, ws: map<Name, Wrapper>, final: map<Name, Wrapper>, s: Snapshot, s': Snapshot, th: Thread)
    requires Distinct(p.log) && Inv(p, ws, final, s) && Step(p, s, s', th)
    ensures s'.pc.Keys == ws.Keys && TotalLeft(p, s'.pc, |p.log|) < TotalLeft(p, s.pc, |p.log|)
  {
    var j := MovesOne(p, ws, final, s, s', th);
    TotalDrops(p, s.pc, s'.pc, j, |p.log|);
  }

  /** No interleaving has more steps than this budget, which depends on the plan only. */
  lemma {:induction false} RunsAreBounded(p: Plan, ws: map<Name, Wrapper>, tr: seq<Snapshot>, schedule: seq<Thread>, i: nat)
    requires Ready(p, ws) && IsRun(p, ws, tr, schedule) && i < |tr|
    ensures tr[i].pc.Keys == ws.Keys
    ensures i + TotalLeft(p, tr[i].pc, |p.log|) <= TotalLeft(p, Begin(ws).pc, |p.log|)
  {
    if i > 0 {
      RunsAreBounded(p, ws, tr, schedule, i - 1);
      StepDropsAt(p, ws, tr, schedule, i - 1);
    }
  }

  lemma StepDropsAt(p: Plan, ws: map<Name, Wrapper>, tr: seq<Snapshot>, schedule: seq<Thread>, i: nat)
    requires Ready(p, ws) && IsRun(p, ws, tr, schedule) && i < |schedule|
    ensures tr[i].pc.Keys == tr[i + 1].pc.Keys == ws.Keys
    ensures TotalLeft(p, tr[i + 1].pc, |p.log|) < TotalLeft(p, tr[i].pc, |p.log|)
  {
    RunKeeps(p, ws, tr, schedule, i);
    assert Step(p, tr[i], tr[i + 1], schedule[i]);
    StepDrops(p, ws, Final(p, ws), tr[i], tr[i + 1], schedule[i]);
  }

  /** Among the launched goroutines that have not finished, the one launched first can move. */
  lemma {:induction false} FirstUnfinishedMoves(p: Plan, ws: map<Name, Wrapper>, final: map<Name, Wrapper>, s: Snapshot, j: nat) returns (n: Name)
    requires Ready(p, ws) && Settles(p, ws, final) && Inv(p, ws, final, s) && j < s.next && s.pc[p.log[j]] != Gone
    ensures CanStep(p, s, n)
  {
    if i :| 0 <= i < j && s.pc[p.log[i]] != Gone {
      n := FirstUnfinishedMoves(p, ws, final, s, i);
    } else {
      n := p.log[j];
      assert n in p.log[..s.next];
      DoneMeansGone(p, ws, final, s, n);
      if s.pc[n].Waiting? && s.pc[n].i < |p.waits[n]| {
        var d := p.waits[n][s.pc[n].i];
        if Waits(ws, n, d) {
          assert d in p.log[..j];
          DoneMeansGone(p, ws, final, s, d);
        }
      }
    }
  }

  /** Deadlock freedom: as long as a launched goroutine is unfinished some goroutine can move,
      whatever the walk does meanwhile, and the walk itself is never held up. */
  lemma DeadlockFree(p: Plan, ws: map<Name, Wrapper>, tr: seq<Snapshot>, schedule: seq<Thread>)
    requires Ready(p, ws) && IsRun(p, ws, tr, schedule)
    ensures var s := tr[|tr| - 1];
      && (forall n <- ws :: n in s.pc)
      && ((exists n <- ws :: s.pc[n] !in {Idle, Gone}) ==> exists n, s' :: Step(p, s, s', Goroutine(n)))
      && (s.next < |p.log| ==> exists s' :: Step(p, s, s', Walker))
      && (Quiescent(p, s) || exists th, s' :: Step(p, s, s', th))
  {
    var s := tr[|tr| - 1];
    RunKeeps(p, ws, tr, schedule, |tr| - 1);
    if s.next < |p.log| {
      assert Step(p, s, WalkerStep(p, s), Walker);
    }
    if n :| n in ws && s.pc[n] !in {Idle, Gone} {
      var j :| 0 <= j < s.next && p.log[j] == n;
      var m := FirstUnfinishedMoves(p, ws, Final(p, ws), s, j);
      assert Step(p, s, GoStep(p, s, m), Goroutine(m));
    }
  }

  // ---------- What a round computes ----------

  /** Once everything is quiet, every wrapper is where its turn leads it. */
  lemma QuietIsFinal(p: Plan, ws: map<Name, Wrapper>, final: map<Name, Wrapper>, s: Snapshot)
    requires Settles(p, ws, final) && Inv(p, ws, final, s) && Quiescent(p, s)
    ensures s.ws == final
  {
    assert p.log[..s.next] == p.log;
    forall n <- ws
      ensures s.ws[n] == final[n]
    {
      assert OnTrack(p, ws, final, s, n);
      assert SettlesAt(p, ws, final, n);
    }
  }

  /** Confluence: every complete interleaving leaves every wrapper as if the services had run
      one after the other in launch order. */
  lemma Confluence(p: Plan, ws: map<Name, Wrapper>, tr: seq<Snapshot>, schedule: seq<Thread>)
    requires Ready(p, ws) && IsRun(p, ws, tr, schedule) && Quiescent(p, tr[|tr| - 1])
    ensures tr[|tr| - 1].ws == OneByOne(p, ws, |p.log|)
  {
    RunKeeps(p, ws, tr, schedule, |tr| - 1);
    QuietIsFinal(p, ws, Final(p, ws), tr[|tr| - 1]);
  }

  /** What becomes of a launched service, in every complete interleaving: it is not selected, it had
      run before, it is put off by a restart of a target that it waits for, or its action runs and
      it carries what the action returned. A round that is not ordered puts nothing off. */
  lemma OutcomeOfRound(p: Plan, ws: map<Name, Wrapper>, tr: seq<Snapshot>, schedule: seq<Thread>, n: Name)
    requires Ready(p, ws) && IsRun(p, ws, tr, schedule) && Quiescent(p, tr[|tr| - 1]) && n in p.log
    ensures n in tr[|tr| - 1].ws && tr[|tr| - 1].ws.Keys == ws.Keys
    ensures var before, after := ws[n], tr[|tr| - 1].ws;
      if p.selected != {} && n !in p.selected then
        after[n].state == Executed && after[n].runs == before.runs && after[n].err == before.err
      else if before.state == Executed then
        after[n].state == Executed && after[n].runs == before.runs && after[n].err == before.err
      else if p.ordered && exists d <- p.waits[n] :: d !in before.ignored && d in ws && after[d].err == Restart then
        after[n].state == Unknown && after[n].runs == before.runs && after[n].err == Restart
      else
        after[n].state == Executed && after[n].runs == before.runs + 1 && after[n].err == p.acts[n]
  {
    Confluence(p, ws, tr, schedule);
    FinalOf(p, ws, n);
    var final := Final(p, ws);
    assert Blocked(p, final, n) <==> p.ordered && exists d <- p.waits[n] :: d !in ws[n].ignored && d in ws && final[d].err == Restart by {
      assert forall d :: Waits(final, n, d) <==> d !in ws[n].ignored && d in ws;
    }
  }

  /** In a dependency-ordered run, once the action of `b` has started every loaded dependency
      that is not ignored is done (or Ignored) and did not end in ErrRestart. */
  lemma ActsAfterDependencies(p: Plan, ws: map<Name, Wrapper>, tr: seq<Snapshot>, schedule: seq<Thread>, i: nat, b: Name, a: Name)
    requires Ready(p, ws) && IsRun(p, ws, tr, schedule) && i < |tr| && p.ordered
    requires b in ws && b in tr[i].ws && tr[i].ws[b].runs > ws[b].runs
    requires a in ws && a in p.waits[b] && a !in ws[b].ignored
    ensures a in tr[i].ws && tr[i].ws[a].done == 0 && tr[i].ws[a].err != Restart
  {
    var s, final := tr[i], Final(p, ws);
    RunKeeps(p, ws, tr, schedule, i);
    assert OnTrack(p, ws, final, s, b);
    DoneMeansGone(p, ws, final, s, a);
    DoneMeansGone(p, ws, final, s, b);
    assert Waits(final, b, a);
    assert Clear(p, final, s.pc, b, |p.waits[b]|);
  }

  /** WaitGroup balance and at-most-once within a round: no counter leaves {0, 1}, an executed
      wrapper stays executed and its action is not started again. */
  lemma AtMostOnce(p: Plan, ws: map<Name, Wrapper>, tr: seq<Snapshot>, schedule: seq<Thread>, i: nat, n: Name)
    requires Ready(p, ws) && IsRun(p, ws, tr, schedule) && i < |tr| && n in ws
    ensures n in tr[i].ws && 0 <= tr[i].ws[n].done <= 1
    ensures ws[n].state == Executed ==> tr[i].ws[n].state == Executed && tr[i].ws[n].runs == ws[n].runs
    ensures tr[i].ws[n].runs == ws[n].runs || (tr[i].ws[n].runs == ws[n].runs + 1 && tr[i].ws[n].state == Executed)
  {
    var final := Final(p, ws);
    RunKeeps(p, ws, tr, schedule, i);
    DoneMeansGone(p, ws, final, tr[i], n);
    assert OnTrack(p, ws, final, tr[i], n);
    assert SettlesAt(p, ws, final, n);
  }

  // ---------- The postponed services ----------

  ghost predicate Due(p: Plan, ws: map<Name, Wrapper>, n: Name) {
    n in p.log && n in ws && IsSelected(p.selected, n) && ws[n].state == Unknown
  }

  /** The services that should have run in this round but did not. */
  ghost predicate Postponed(p: Plan, ws: map<Name, Wrapper>, n: Name)
    requires Ready(p, ws)
  {
    Due(p, ws, n) && Final(p, ws)[n].state == Unknown
  }

  /** `S` has every due service that waits for one whose action asks for a restart, or for a
      service of `S`. */
  ghost predicate ClosedUnderRestart(p: Plan, ws: map<Name, Wrapper>, S: set<Name>)
    requires Ready(p, ws)
  {
    forall n, d ::
      (Due(p, ws, n) && d in p.waits[n] && Waits(ws, n, d) && (d in S || (Due(p, ws, d) && p.acts[d] == Restart)))
      ==> n in S
  }

  /** The postponed services are exactly the least set that is closed in this sense. */
  lemma PostponedIsLeast(p: Plan, ws: map<Name, Wrapper>)
    requires Ready(p, ws) && p.ordered
    ensures ClosedUnderRestart(p, ws, set n | n in ws && Postponed(p, ws, n))
    ensures forall S, n :: ClosedUnderRestart(p, ws, S) && Postponed(p, ws, n) ==> n in S
  {
    forall n, d | Due(p, ws, n) && d in p.waits[n] && Waits(ws, n, d) &&
        (Postponed(p, ws, d) || (Due(p, ws, d) && p.acts[d] == Restart))
      ensures Postponed(p, ws, n)
    {
      FinalOf(p, ws, n);
      FinalOf(p, ws, d);
      assert Waits(Final(p, ws), n, d);
    }
    forall S, n | ClosedUnderRestart(p, ws, S) && Postponed(p, ws, n)
      ensures n in S
    {
      var i :| 0 <= i < |p.log| && p.log[i] == n;
      PostponedIsInClosed(p, ws, S, i);
    }
  }

  lemma {:induction false} PostponedIsInClosed(p: Plan, ws: map<Name, Wrapper>, S: set<Name>, i: nat)
    requires Ready(p, ws) && p.ordered && ClosedUnderRestart(p, ws, S)
    requires i < |p.log| && Postponed(p, ws, p.log[i])
    ensures p.log[i] in S
    decreases i
  {
    var n := p.log[i];
    FinalOf(p, ws, n);
    assert Blocked(p, Final(p, ws), n);
    var d :| d in p.waits[n] && Waits(Final(p, ws), n, d) && Final(p, ws)[d].err == Restart;
    FinalOf(p, ws, d);
    assert Waits(ws, n, d);
    if Postponed(p, ws, d) {
      var j :| 0 <= j < i && p.log[j] == d;
      PostponedIsInClosed(p, ws, S, j);
    }
  }
}
