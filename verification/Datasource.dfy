/** The race of `selectDatasource` (`cmd/cloudinitsave/cloudinitsave.go`): one goroutine per source
    asks again and again whether the source is available; the caller takes the first that hands
    itself over, or gives up when all are gone or the time is over. */
module Datasource {
  import opened Wrappers

  /** What a source answers: available, unavailable for good, or unavailable for now. */
  datatype Report = Available | Unavailable | NotReady

  /** Why the goroutine of a source ends: its source was received, is unavailable for good, or
      the channel `stop` was closed. */
  datatype End = Sent | Dropped | Stopped

  /** Where the goroutine of a source is. `Sending` lasts from the report until the unbuffered
      channel has handed the source over; `Leaving` is before the deferred `wg.Done()`. */
  datatype Pc = Idle | Checking | Sending | Waiting | Leaving(end: End) | Gone(end: End)

  /** `reports` lists what the source has answered; `duration` (in milliseconds) is a local. */
  datatype Source = Source(pc: Pc, reports: seq<Report>, duration: nat)

  /** The branch that the caller's `select` took. */
  datatype Branch = Received(source: nat) | AllDone | TimedOut

  /** Where the caller is: starting goroutine number `next`, in the `select`, after it, after
      fetching the received source, or returned. */
  datatype Caller = Starting(next: nat) | Selecting | Took(branch: Branch) | Fetched(source: nat) | Returned(branch: Branch)

  /** `wg` is the WaitGroup's counter, `done` and `stop` say whether these channels are closed,
      and `fetched` lists the sources passed to `fetchAndSave`. */
  datatype State = State(sources: seq<Source>, caller: Caller, wg: int, done: bool, stop: bool, fetched: seq<nat>)

  /** One step of one goroutine, of the caller, or of the goroutine that closes `done`. */
  datatype Event =
    | Start | Receive(i: nat) | TakeDone | TimeOut | Fetch | Return
    | Answer(i: nat, report: Report) | Retry(i: nat) | SeeStop(i: nat) | Leave(i: nat)
    | CloseDone

  const INTERVAL: nat := 100
  const MAX_INTERVAL: nat := 30_000

  function ExpBackoff(interval: nat, max: nat): nat {
    if interval * 2 > max then max else interval * 2
  }

  function Initial(n: nat): State {
    State(seq(n, _ => Source(Idle, [], INTERVAL)), Starting(0), 0, false, false, [])
  }

  function Set(s: State, i: nat, source: Source): State
    requires i < |s.sources|
  {
    s.(sources := s.sources[i := source])
  }

  function Move(s: State, i: nat, pc: Pc): State
    requires i < |s.sources|
  {
    Set(s, i, s.sources[i].(pc := pc))
  }

  predicate AtPc(s: State, i: nat, pc: Pc) {
    i < |s.sources| && s.sources[i].pc == pc
  }

  /** The state after an event, when the event can happen. */
  function Step(s: State, e: Event): Option<State> {
    match e
    case Start =>
      if !s.caller.Starting? then None
      else if s.caller.next < |s.sources| then
        Some(Move(s, s.caller.next, Checking).(caller := Starting(s.caller.next + 1), wg := s.wg + 1))
      else Some(s.(caller := Selecting))
    case Receive(i) =>
      if s.caller.Selecting? && AtPc(s, i, Sending) then Some(Move(s, i, Leaving(Sent)).(caller := Took(Received(i)))) else None
    case TakeDone =>
      if s.caller.Selecting? && s.done then Some(s.(caller := Took(AllDone))) else None
    case TimeOut =>
      if s.caller.Selecting? then Some(s.(caller := Took(TimedOut))) else None
    case Fetch =>
      if s.caller.Took? && s.caller.branch.Received? then
        Some(s.(caller := Fetched(s.caller.branch.source), fetched := s.fetched + [s.caller.branch.source]))
      else None
    case Return =>
      if s.caller.Fetched? then Some(s.(caller := Returned(Received(s.caller.source)), stop := true))
      else if s.caller.Took? && !s.caller.branch.Received? then Some(s.(caller := Returned(s.caller.branch), stop := true))
      else None
    case Answer(i, report) =>
      if AtPc(s, i, Checking) then
        var pc := match report case Available => Sending case Unavailable => Leaving(Dropped) case NotReady => Waiting;
        Some(Set(s, i, s.sources[i].(pc := pc, reports := s.sources[i].reports + [report])))
      else None
    case Retry(i) =>
      if AtPc(s, i, Waiting) then
        Some(Set(s, i, s.sources[i].(pc := Checking, duration := ExpBackoff(s.sources[i].duration, MAX_INTERVAL))))
      else None
    case SeeStop(i) =>
      if AtPc(s, i, Waiting) && s.stop then Some(Move(s, i, Leaving(Stopped))) else None
    case Leave(i) =>
      if i < |s.sources| && s.sources[i].pc.Leaving? then Some(Move(s, i, Gone(s.sources[i].pc.end)).(wg := s.wg - 1)) else None
    case CloseDone =>
      if !s.caller.Starting? && s.wg == 0 && !s.done then Some(s.(done := true)) else None
  }

  /** The state after a whole interleaving. */
  function Run(s: State, events: seq<Event>): Option<State>
    decreases |events|
  {
    if events == [] then Some(s)
    else
      match Step(s, events[0])
      case None => None
      case Some(next) => Run(next, events[1..])
  }

  ghost predicate Reaches(s: State, s': State) {
    exists events :: Run(s, events) == Some(s')
  }

  ghost predicate Reachable(n: nat, s: State) {
    Reaches(Initial(n), s)
  }

  // ---------- What every interleaving keeps ----------

  /** So far the source has only been not ready. */
  predicate NotReadyYet(reports: seq<Report>) {
    forall r <- reports :: r == NotReady
  }

  /** The source answered once for good, after having been not ready. */
  predicate Decided(reports: seq<Report>, verdict: Report) {
    reports != [] && NotReadyYet(reports[..|reports| - 1]) && reports[|reports| - 1] == verdict
  }

  predicate Live(pc: Pc) {
    !pc.Idle? && !pc.Gone?
  }

  /** How many goroutines have been started and not yet left. */
  function LiveCount(sources: seq<Source>): nat {
    if sources == [] then 0 else LiveCount(sources[..|sources| - 1]) + if Live(sources[|sources| - 1].pc) then 1 else 0
  }

  lemma {:induction false} LiveUpdate(sources: seq<Source>, i: nat, source: Source)
    requires i < |sources|
    ensures LiveCount(sources[i := source]) + (if Live(sources[i].pc) then 1 else 0)
      == LiveCount(sources) + if Live(source.pc) then 1 else 0
  {
    var k := |sources| - 1;
    if i == k {
      assert sources[i := source][..k] == sources[..k];
    } else {
      assert sources[i := source][..k] == sources[..k][i := source];
      LiveUpdate(sources[..k], i, source);
    }
  }

  lemma {:induction false} LivePositive(sources: seq<Source>, i: nat)
    requires i < |sources| && Live(sources[i].pc)
    ensures LiveCount(sources) > 0
  {
    if i < |sources| - 1 {
      LivePositive(sources[..|sources| - 1], i);
    }
  }

  lemma {:induction false} NoneLive(sources: seq<Source>)
    requires forall i :: 0 <= i < |sources| ==> !Live(sources[i].pc)
    ensures LiveCount(sources) == 0
  {
    if sources != [] {
      NoneLive(sources[..|sources| - 1]);
    }
  }

  predicate Picked(caller: Caller, i: nat) {
    caller == Took(Received(i)) || caller == Fetched(i) || caller == Returned(Received(i))
  }

  predicate Ended(source: Source, end: End, picked: bool, stop: bool) {
    match end
    case Sent => Decided(source.reports, Available) && picked
    case Dropped => Decided(source.reports, Unavailable)
    case Stopped => NotReadyYet(source.reports) && stop
  }

  /** What the position of a goroutine says about its source. */
  predicate SourceOk(s: State, i: nat)
    requires i < |s.sources|
  {
    var source := s.sources[i];
    && (source.pc.Idle? <==> s.caller.Starting? && s.caller.next <= i)
    && match source.pc
       case Idle => source.reports == []
       case Checking => NotReadyYet(source.reports)
       case Sending => Decided(source.reports, Available)
       case Waiting => Decided(source.reports, NotReady)
       case Leaving(end) => Ended(source, end, Picked(s.caller, i), s.stop)
       case Gone(end) => Ended(source, end, Picked(s.caller, i), s.stop)
  }

  predicate HandedOver(s: State, i: nat) {
    AtPc(s, i, Leaving(Sent)) || AtPc(s, i, Gone(Sent))
  }

  ghost predicate CallerOk(s: State) {
    && (s.stop <==> s.caller.Returned?)
    && (forall i: nat :: Picked(s.caller, i) ==> HandedOver(s, i))
    && (s.done ==> !s.caller.Starting? && s.wg == 0)
    && match s.caller
       case Starting(next) => next <= |s.sources| && s.fetched == []
       case Fetched(i) => s.fetched == [i]
       case Returned(Received(i)) => s.fetched == [i]
       case _ => s.fetched == []
  }

  predicate AllGone(s: State) {
    forall i :: 0 <= i < |s.sources| ==> s.sources[i].pc == Gone(Dropped)
  }

  /** Once the caller has seen `done`, every goroutine has dropped its source. */
  ghost predicate Ok(s: State) {
    && (forall i :: 0 <= i < |s.sources| ==> SourceOk(s, i))
    && CallerOk(s) && s.wg == LiveCount(s.sources)
    && (s.caller in {Took(AllDone), Returned(AllDone)} ==> AllGone(s))
  }

  lemma StartsOk(n: nat)
    ensures Ok(Initial(n))
  {
    NoneLive(Initial(n).sources);
  }

  lemma DoneLeavesNobody(s: State)
    requires Ok(s) && s.done
    ensures forall i :: 0 <= i < |s.sources| ==> s.sources[i].pc.Gone?
  {
    forall i | 0 <= i < |s.sources|
      ensures s.sources[i].pc.Gone?
    {
      assert SourceOk(s, i);
      if Live(s.sources[i].pc) {
        LivePositive(s.sources, i);
      }
    }
  }

  /** While the caller is in the `select`, no goroutine was stopped and none was received. */
  lemma DoneInSelect(s: State)
    requires Ok(s) && s.done && s.caller.Selecting?
    ensures AllGone(s)
  {
    DoneLeavesNobody(s);
    forall i | 0 <= i < |s.sources|
      ensures s.sources[i].pc == Gone(Dropped)
    {
      assert SourceOk(s, i);
    }
  }

  lemma StepKeepsCount(s: State, e: Event)
    requires Ok(s) && Step(s, e).Some?
    ensures var s' := Step(s, e).value; s'.wg == LiveCount(s'.sources)
  {
    match e
    case Start =>
      if s.caller.next < |s.sources| {
        assert SourceOk(s, s.caller.next);
        LiveUpdate(s.sources, s.caller.next, s.sources[s.caller.next].(pc := Checking));
      }
    case Receive(i) => LiveUpdate(s.sources, i, Step(s, e).value.sources[i]);
    case Answer(i, _) => LiveUpdate(s.sources, i, Step(s, e).value.sources[i]);
    case Retry(i) => LiveUpdate(s.sources, i, Step(s, e).value.sources[i]);
    case SeeStop(i) => LiveUpdate(s.sources, i, Step(s, e).value.sources[i]);
    case Leave(i) => LiveUpdate(s.sources, i, Step(s, e).value.sources[i]);
    case _ =>
  }

  lemma DecidedOnce(reports: seq<Report>, verdict: Report)
    requires Decided(reports, verdict)
    ensures reports == reports[..|reports| - 1] + [verdict]
    ensures forall r <- reports :: r == NotReady || r == verdict
  {
  }

  lemma NextReport(reports: seq<Report>)
    ensures forall r :: NotReadyYet(reports) ==> Decided(reports + [r], r)
    ensures NotReadyYet([]) && (Decided(reports, NotReady) ==> NotReadyYet(reports))
  {
    forall r | NotReadyYet(reports)
      ensures Decided(reports + [r], r)
    {
      assert (reports + [r])[..|reports|] == reports;
    }
    if Decided(reports, NotReady) {
      DecidedOnce(reports, NotReady);
    }
  }

  lemma StepKeepsSource(s: State, e: Event, i: nat)
    requires Ok(s) && Step(s, e).Some? && i < |s.sources|
    ensures SourceOk(Step(s, e).value, i)
  {
    hide NotReadyYet, Decided;
    assert SourceOk(s, i);
    NextReport(s.sources[i].reports);
  }

  lemma StepKeepsCaller(s: State, e: Event)
    requires Ok(s) && Step(s, e).Some?
    ensures CallerOk(Step(s, e).value)
  {
    var s' := Step(s, e).value;
    if s.done {
      DoneLeavesNobody(s);
    }
    forall i: nat | Picked(s'.caller, i)
      ensures HandedOver(s', i)
    {
      assert Picked(s.caller, i) ==> HandedOver(s, i);
    }
  }

  lemma StepKeeps(s: State, e: Event)
    requires Ok(s) && Step(s, e).Some?
    ensures Ok(Step(s, e).value) && |Step(s, e).value.sources| == |s.sources|
  {
    var s' := Step(s, e).value;
    assert |s'.sources| == |s.sources|;
    forall i | 0 <= i < |s'.sources|
      ensures SourceOk(s', i)
    {
      StepKeepsSource(s, e, i);
    }
    StepKeepsCaller(s, e);
    StepKeepsCount(s, e);
    if e.TakeDone? {
      DoneInSelect(s);
    }
  }

  lemma {:induction false} RunKeeps(s: State, events: seq<Event>)
    requires Ok(s) && Run(s, events).Some?
    ensures Ok(Run(s, events).value) && |Run(s, events).value.sources| == |s.sources|
    decreases |events|
  {
    if events != [] {
      StepKeeps(s, events[0]);
      RunKeeps(Step(s, events[0]).value, events[1..]);
    }
  }

  lemma ReachableOk(n: nat, s: State)
    requires Reachable(n, s)
    ensures Ok(s) && |s.sources| == n
  {
    var events :| Run(Initial(n), events) == Some(s);
    StartsOk(n);
    RunKeeps(Initial(n), events);
  }
}
