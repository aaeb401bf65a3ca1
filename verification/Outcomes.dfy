/** What the race of `selectDatasource` can lead to: what its caller can rely on and what not, which
    outcomes are still possible in a given state, and what stays behind. */
module Outcomes {
  import opened Datasource
  import opened Wrappers

  // ---------- What the caller can rely on ----------

  /** The `done` branch means that no source is left: every one has said that it is unavailable
      for good, none has ever been available, and nothing is fetched. */
  lemma DoneMeansNone(n: nat, s: State)
    requires Reachable(n, s) && s.caller in {Took(AllDone), Returned(AllDone)}
    ensures |s.sources| == n && s.fetched == []
    ensures forall i :: 0 <= i < n ==> Decided(s.sources[i].reports, Unavailable) && Available !in s.sources[i].reports
  {
    ReachableOk(n, s);
    forall i | 0 <= i < n
      ensures Decided(s.sources[i].reports, Unavailable) && Available !in s.sources[i].reports
    {
      assert SourceOk(s, i);
      DecidedOnce(s.sources[i].reports, Unavailable);
    }
  }

  /** A source that is received has said that it is available, and that was its last answer; it
      is the only source that is ever fetched, and it is the one returned. */
  lemma ReceivedWasAvailable(n: nat, s: State, i: nat)
    requires Reachable(n, s) && Picked(s.caller, i)
    ensures i < n == |s.sources| && Decided(s.sources[i].reports, Available)
    ensures s.fetched == if s.caller.Took? then [] else [i]
  {
    ReachableOk(n, s);
    assert SourceOk(s, i);
  }

  lemma FetchedAtMostOnce(n: nat, s: State)
    requires Reachable(n, s)
    ensures |s.fetched| <= 1
    ensures forall i <- s.fetched :: Picked(s.caller, i) && i < |s.sources| && Decided(s.sources[i].reports, Available)
  {
    ReachableOk(n, s);
    if s.fetched != [] {
      assert Picked(s.caller, s.fetched[0]) && SourceOk(s, s.fetched[0]);
    }
  }

  /** The counter of the WaitGroup is never negative, and it is zero once everybody is gone. */
  lemma CounterCounts(n: nat, s: State)
    requires Reachable(n, s)
    ensures s.wg >= 0 && |s.sources| == n
    ensures !s.caller.Starting? ==> (s.wg == 0 <==> forall i :: 0 <= i < n ==> s.sources[i].pc.Gone?)
  {
    ReachableOk(n, s);
    assert forall i :: 0 <= i < n ==> SourceOk(s, i);
    if forall i :: 0 <= i < n ==> !Live(s.sources[i].pc) {
      NoneLive(s.sources);
      forall i | 0 <= i < n && !s.caller.Starting?
        ensures s.sources[i].pc.Gone?
      {
        assert SourceOk(s, i);
      }
    } else {
      var i :| 0 <= i < n && Live(s.sources[i].pc);
      LivePositive(s.sources, i);
      assert !s.sources[i].pc.Gone?;
    }
  }

  // ---------- What stays behind ----------

  /** No event can happen any more. */
  ghost predicate Quiet(s: State) {
    forall e :: Step(s, e) == None
  }

  /** Which states are final: the caller has returned, every goroutine has left or still offers
      its source, and `done` is closed exactly when none does. */
  lemma QuietIff(n: nat, s: State)
    requires Reachable(n, s)
    ensures |s.sources| == n
    ensures Quiet(s) <==>
      && s.caller.Returned?
      && (forall i :: 0 <= i < n ==> s.sources[i].pc.Gone? || s.sources[i].pc.Sending?)
      && (s.done <==> forall i :: 0 <= i < n ==> !s.sources[i].pc.Sending?)
  {
    ReachableOk(n, s);
    CounterCounts(n, s);
    assert forall i :: 0 <= i < n ==> SourceOk(s, i);
    if Quiet(s) {
      CallerIsDone(s);
      forall i | 0 <= i < n
        ensures s.sources[i].pc.Gone? || s.sources[i].pc.Sending?
      {
        SourceIsDone(s, i);
      }
      assert Step(s, CloseDone) == None;
    }
  }

  lemma CallerIsDone(s: State)
    requires Quiet(s)
    ensures s.caller.Returned?
  {
    assert Step(s, Start) == None && Step(s, TimeOut) == None && Step(s, Fetch) == None && Step(s, Return) == None;
  }

  lemma SourceIsDone(s: State, i: nat)
    requires Quiet(s) && Ok(s) && i < |s.sources| && s.caller.Returned?
    ensures s.sources[i].pc.Gone? || s.sources[i].pc.Sending?
  {
    assert SourceOk(s, i);
    assert Step(s, Answer(i, NotReady)) == None && Step(s, Retry(i)) == None && Step(s, Leave(i)) == None;
  }

  /** At the end, exactly the sources that were available and not received are stuck: their
      goroutines wait for a receiver that is gone. */
  lemma StuckIff(n: nat, s: State, i: nat)
    requires Reachable(n, s) && Quiet(s) && i < n
    ensures |s.sources| == n
    ensures s.sources[i].pc.Sending? <==> Available in s.sources[i].reports && !Picked(s.caller, i)
  {
    ReachableOk(n, s);
    QuietIff(n, s);
    assert SourceOk(s, i);
    var reports := s.sources[i].reports;
    if s.sources[i].pc.Gone? && s.sources[i].pc.end == Dropped {
      DecidedOnce(reports, Unavailable);
    }
  }

  /** Once the caller has left the `select`, a source that is still being offered is offered for
      ever, and `done` is never closed. */
  lemma StuckForEver(n: nat, s: State, events: seq<Event>, i: nat)
    requires Reachable(n, s) && !s.caller.Starting? && !s.caller.Selecting? && AtPc(s, i, Sending)
    requires Run(s, events).Some?
    ensures AtPc(Run(s, events).value, i, Sending) && !Run(s, events).value.done
  {
    ReachableOk(n, s);
    StaysStuck(s, events, i);
  }

  lemma {:induction false} StaysStuck(s: State, events: seq<Event>, i: nat)
    requires Ok(s) && !s.caller.Starting? && !s.caller.Selecting? && AtPc(s, i, Sending)
    requires Run(s, events).Some?
    ensures AtPc(Run(s, events).value, i, Sending) && !Run(s, events).value.done
    decreases |events|
  {
    LivePositive(s.sources, i);
    if events != [] {
      StepKeeps(s, events[0]);
      StaysStuck(Step(s, events[0]).value, events[1..], i);
    }
  }

  // ---------- Which branches are still open ----------

  /** Some continuation makes the caller return through this branch. */
  ghost predicate CanReturn(s: State, branch: Branch) {
    exists s' :: Reaches(s, s') && s'.caller == Returned(branch)
  }

  lemma {:induction false} RunAppend(start: State, events: seq<Event>, e: Event)
    requires Run(start, events).Some? && Step(Run(start, events).value, e).Some?
    ensures Run(start, events + [e]) == Step(Run(start, events).value, e)
    decreases |events|
  {
    if events == [] {
      var s' := Step(start, e).value;
      assert Run(s', []) == Some(s');
    } else {
      RunAppend(Step(start, events[0]).value, events[1..], e);
      assert (events + [e])[1..] == events[1..] + [e];
    }
  }

  lemma ReachesItself(s: State)
    ensures Reaches(s, s)
  {
    assert Run(s, []) == Some(s);
  }

  lemma ReachesNext(start: State, s: State, e: Event)
    requires Reaches(start, s) && Step(s, e).Some?
    ensures Reaches(start, Step(s, e).value)
  {
    var events :| Run(start, events) == Some(s);
    RunAppend(start, events, e);
  }

  /** From the `select`, the time-out can always win, whatever is on offer. */
  lemma CanTimeOut(s: State)
    requires s.caller.Selecting?
    ensures CanReturn(s, TimedOut)
  {
    ReachesItself(s);
    ReachesNext(s, s, TimeOut);
    ReachesNext(s, Step(s, TimeOut).value, Return);
  }

  /** A source whose goroutine may still answer, or is on offer, can be the one returned. */
  lemma CanReceive(s: State, j: nat)
    requires s.caller.Selecting? && j < |s.sources|
    requires s.sources[j].pc in {Checking, Waiting, Sending}
    ensures CanReturn(s, Received(j))
  {
    ReachesItself(s);
    var t := s;
    if t.sources[j].pc == Waiting {
      ReachesNext(s, t, Retry(j));
      t := Step(t, Retry(j)).value;
    }
    if t.sources[j].pc == Checking {
      ReachesNext(s, t, Answer(j, Available));
      t := Step(t, Answer(j, Available)).value;
    }
    ReachesNext(s, t, Receive(j));
    t := Step(t, Receive(j)).value;
    ReachesNext(s, t, Fetch);
    t := Step(t, Fetch).value;
    ReachesNext(s, t, Return);
  }

  /** What is dropped stays dropped, and what is on offer is not gone before it is received. */
  predicate Dropping(s: State, i: nat) {
    AtPc(s, i, Leaving(Dropped)) || AtPc(s, i, Gone(Dropped))
  }

  lemma StepKeepsEnd(s: State, e: Event, i: nat)
    requires Step(s, e).Some? && !s.caller.Starting?
    ensures !Step(s, e).value.caller.Starting?
    ensures Dropping(s, i) ==> Dropping(Step(s, e).value, i)
    ensures AtPc(s, i, Sending) || HandedOver(s, i) ==> AtPc(Step(s, e).value, i, Sending) || HandedOver(Step(s, e).value, i)
  {
  }

  lemma {:induction false} StaysDropped(s: State, events: seq<Event>, i: nat)
    requires !s.caller.Starting? && Dropping(s, i) && Run(s, events).Some?
    ensures Dropping(Run(s, events).value, i)
    decreases |events|
  {
    if events != [] {
      StepKeepsEnd(s, events[0], i);
      StaysDropped(Step(s, events[0]).value, events[1..], i);
    }
  }

  lemma {:induction false} OfferedOrReceived(s: State, events: seq<Event>, i: nat)
    requires !s.caller.Starting? && (AtPc(s, i, Sending) || HandedOver(s, i)) && Run(s, events).Some?
    ensures AtPc(Run(s, events).value, i, Sending) || HandedOver(Run(s, events).value, i)
    decreases |events|
  {
    if events != [] {
      StepKeepsEnd(s, events[0], i);
      OfferedOrReceived(Step(s, events[0]).value, events[1..], i);
    }
  }

  /** Running the goroutine of one source until it has dropped the source. */
  lemma CanDrop(start: State, s: State, i: nat) returns (s': State)
    requires Reaches(start, s) && i < |s.sources|
    requires s.sources[i].pc in {Checking, Waiting, Leaving(Dropped), Gone(Dropped)}
    ensures Reaches(start, s') && AtPc(s', i, Gone(Dropped)) && s'.caller == s.caller && |s'.sources| == |s.sources|
    ensures forall k :: 0 <= k < |s.sources| && k != i ==> s'.sources[k] == s.sources[k]
  {
    s' := s;
    if s'.sources[i].pc == Waiting {
      ReachesNext(start, s', Retry(i));
      s' := Step(s', Retry(i)).value;
    }
    if s'.sources[i].pc == Checking {
      ReachesNext(start, s', Answer(i, Unavailable));
      s' := Step(s', Answer(i, Unavailable)).value;
    }
    if s'.sources[i].pc == Leaving(Dropped) {
      ReachesNext(start, s', Leave(i));
      s' := Step(s', Leave(i)).value;
    }
  }

  /** Every goroutine that still runs can drop its source; those on offer stay on offer. */
  lemma {:induction false} CanDropAll(start: State, s: State, k: nat) returns (s': State)
    requires Reaches(start, s) && k <= |s.sources|
    requires forall i :: 0 <= i < |s.sources| ==> s.sources[i].pc in {Checking, Waiting, Sending, Leaving(Dropped), Gone(Dropped)}
    requires forall i :: 0 <= i < k ==> s.sources[i].pc in {Sending, Gone(Dropped)}
    ensures Reaches(start, s') && s'.caller == s.caller && |s'.sources| == |s.sources|
    ensures forall i :: 0 <= i < |s.sources| ==> s'.sources[i].pc == if s.sources[i].pc == Sending then Sending else Gone(Dropped)
    decreases |s.sources| - k
  {
    if k == |s.sources| {
      s' := s;
    } else if s.sources[k].pc == Sending {
      s' := CanDropAll(start, s, k + 1);
    } else {
      var next := CanDrop(start, s, k);
      s' := CanDropAll(start, next, k + 1);
    }
  }

  /** While the caller is in the `select`, a goroutine either still runs or has dropped its source. */
  lemma WhileSelecting(s: State, i: nat)
    requires Ok(s) && s.caller.Selecting? && i < |s.sources|
    ensures s.sources[i].pc in {Checking, Waiting, Sending, Leaving(Dropped), Gone(Dropped)}
  {
    assert SourceOk(s, i);
  }

  lemma CanFinish(n: nat, s: State)
    requires Reachable(n, s) && s.caller.Selecting? && forall i :: 0 <= i < |s.sources| ==> s.sources[i].pc != Sending
    ensures CanReturn(s, AllDone)
  {
    ReachableOk(n, s);
    forall i | 0 <= i < |s.sources|
      ensures s.sources[i].pc in {Checking, Waiting, Sending, Leaving(Dropped), Gone(Dropped)}
    {
      WhileSelecting(s, i);
    }
    ReachesItself(s);
    var t := CanDropAll(s, s, 0);
    ReachesOk(s, t);
    NoneLive(t.sources);
    if !t.done {
      ReachesNext(s, t, CloseDone);
      t := Step(t, CloseDone).value;
    }
    ReachesNext(s, t, TakeDone);
    t := Step(t, TakeDone).value;
    ReachesNext(s, t, Return);
  }

  lemma ReachesOk(s: State, s': State)
    requires Ok(s) && Reaches(s, s')
    ensures Ok(s') && |s'.sources| == |s.sources|
  {
    var events :| Run(s, events) == Some(s');
    RunKeeps(s, events);
  }

  /** Which branch can still be the one taken, exactly, in every state of the `select`: the
      time-out always, a source as long as its goroutine has not dropped it, whatever others are
      on offer, and `done` as long as no source is on offer. */
  lemma OpenBranches(n: nat, s: State, branch: Branch)
    requires Reachable(n, s) && s.caller.Selecting?
    ensures |s.sources| == n
    ensures CanReturn(s, branch) <==>
      match branch
      case TimedOut => true
      case Received(j) => j < n && s.sources[j].pc in {Checking, Waiting, Sending}
      case AllDone => forall i :: 0 <= i < n ==> s.sources[i].pc != Sending
  {
    ReachableOk(n, s);
    match branch
    case TimedOut => CanTimeOut(s);
    case Received(j) =>
      if j < n && s.sources[j].pc in {Checking, Waiting, Sending} {
        CanReceive(s, j);
      } else {
        NotReceived(s, j);
      }
    case AllDone =>
      if i: nat :| i < n && s.sources[i].pc == Sending {
        NotAllDone(s, i);
      } else {
        CanFinish(n, s);
      }
  }

  lemma NotReceived(s: State, j: nat)
    requires Ok(s) && s.caller.Selecting?
    requires j < |s.sources| ==> s.sources[j].pc !in {Checking, Waiting, Sending}
    ensures !CanReturn(s, Received(j))
  {
    forall s' | Reaches(s, s')
      ensures s'.caller != Returned(Received(j))
    {
      ReachesOk(s, s');
      var events :| Run(s, events) == Some(s');
      if j < |s.sources| {
        WhileSelecting(s, j);
        StaysDropped(s, events, j);
      }
      assert Picked(s'.caller, j) ==> HandedOver(s', j);
    }
  }

  lemma NotAllDone(s: State, i: nat)
    requires Ok(s) && s.caller.Selecting? && AtPc(s, i, Sending)
    ensures !CanReturn(s, AllDone)
  {
    forall s' | Reaches(s, s')
      ensures s'.caller != Returned(AllDone)
    {
      ReachesOk(s, s');
      var events :| Run(s, events) == Some(s');
      OfferedOrReceived(s, events, i);
    }
  }

  // ---------- What the caller cannot rely on ----------

  /** Source `i` is available and on offer to the caller. */
  predicate Offered(s: State, i: nat) {
    s.caller.Selecting? && AtPc(s, i, Sending)
  }

  /** Source `i` was on offer before `j` had answered at all, and yet `j` is returned. */
  ghost predicate Overtakes(n: nat, before: State, s: State, i: nat, j: nat) {
    && Reachable(n, before) && Offered(before, i) && j < |before.sources| && before.sources[j].reports == []
    && Reaches(before, s) && s.caller == Returned(Received(j))
  }

  /** Source `i` was on offer, and yet nothing is returned. */
  ghost predicate Misses(n: nat, before: State, s: State, i: nat) {
    Reachable(n, before) && Offered(before, i) && Reaches(before, s) && s.caller == Returned(TimedOut)
  }

  predicate StartedUpTo(n: nat, s: State, k: nat) {
    && |s.sources| == n && k <= n && s.caller == Starting(k)
    && forall i :: 0 <= i < n ==> s.sources[i].reports == [] && s.sources[i].pc == if i < k then Checking else Idle
  }

  lemma {:induction false} CanStart(n: nat, k: nat) returns (s: State)
    requires k <= n
    ensures Reachable(n, s) && StartedUpTo(n, s, k)
  {
    if k == 0 {
      s := Initial(n);
      ReachesItself(s);
    } else {
      s := CanStart(n, k - 1);
      ReachesNext(Initial(n), s, Start);
      s := Step(s, Start).value;
    }
  }

  /** All goroutines are started, and the first source is on offer before any other has answered. */
  lemma FirstOffered(n: nat) returns (s: State)
    requires n > 0
    ensures Reachable(n, s) && Offered(s, 0) && |s.sources| == n
    ensures forall i :: 0 < i < n ==> s.sources[i].pc == Checking && s.sources[i].reports == []
  {
    s := CanStart(n, n);
    ReachesNext(Initial(n), s, Start);
    s := Step(s, Start).value;
    ReachesNext(Initial(n), s, Answer(0, Available));
    s := Step(s, Answer(0, Available)).value;
  }

  /** The source returned need not be the first that was available: with any two sources or more,
      one that answers later can be returned. */
  lemma NotTheFirst(n: nat) returns (before: State, s: State)
    requires n > 1
    ensures Overtakes(n, before, s, 0, 1)
  {
    before := FirstOffered(n);
    CanReceive(before, 1);
    s :| Reaches(before, s) && s.caller == Returned(Received(1));
  }

  /** Nothing may be returned although a source was available in time. */
  lemma TimeOutDespiteSource(n: nat) returns (before: State, s: State)
    requires n > 0
    ensures Misses(n, before, s, 0)
  {
    before := FirstOffered(n);
    CanTimeOut(before);
    s :| Reaches(before, s) && s.caller == Returned(TimedOut);
  }

  /** An available source is overtaken by no other that had not answered, in any interleaving,
      exactly when there are fewer than two sources. */
  lemma FirstIsReturnedIff(n: nat)
    ensures (exists before, s, i, j :: Overtakes(n, before, s, i, j)) <==> n > 1
  {
    if n > 1 {
      var before, s := NotTheFirst(n);
    }
    forall before, s, i, j | Overtakes(n, before, s, i, j)
      ensures n > 1
    {
      ReachableOk(n, before);
      assert SourceOk(before, i);
    }
  }

  /** An available source is never missed, in any interleaving, exactly when there is none. */
  lemma NeverMissedIff(n: nat)
    ensures (exists before, s, i :: Misses(n, before, s, i)) <==> n > 0
  {
    if n > 0 {
      var before, s := TimeOutDespiteSource(n);
    }
    forall before, s, i | Misses(n, before, s, i)
      ensures n > 0
    {
      ReachableOk(n, before);
    }
  }

  /** The end of a run in which source `i` is still offered to nobody: its goroutine is blocked,
      and `done` is not closed. */
  ghost predicate Leaks(n: nat, s: State, i: nat) {
    Reachable(n, s) && Quiet(s) && AtPc(s, i, Sending) && !s.done
  }

  /** The time is over while the first source is on offer, and all others are unavailable. */
  lemma OfferedToNobody(n: nat) returns (s: State)
    requires n > 0
    ensures Leaks(n, s, 0)
  {
    s := FirstOffered(n);
    ReachesNext(Initial(n), s, TimeOut);
    s := Step(s, TimeOut).value;
    ReachesNext(Initial(n), s, Return);
    s := Step(s, Return).value;
    s := CanDropAll(Initial(n), s, 0);
    CounterCounts(n, s);
    ReachableOk(n, s);
    QuietIff(n, s);
  }

  /** A goroutine can be left behind for ever exactly when there is a source at all. */
  lemma LeaksIff(n: nat)
    ensures (exists s, i :: Leaks(n, s, i)) <==> n > 0
  {
    if n > 0 {
      var s := OfferedToNobody(n);
    }
    forall s, i | Leaks(n, s, i)
      ensures n > 0
    {
      ReachableOk(n, s);
    }
  }

  // ---------- Winding down ----------

  /** What becomes of a source that is not asked again: one that waits stops, one that is being asked
      answers once more, and one that is on offer stays so. */
  ghost predicate WoundDown(before: Source, after: Source) {
    match before.pc
    case Sending => after == before
    case Waiting => after.pc == Gone(Stopped) && after.reports == before.reports
    case Checking => after.pc == Gone(Dropped) && after.reports == before.reports + [Unavailable]
    case Leaving(end) => after.pc == Gone(end) && after.reports == before.reports
    case _ => after == before
  }

  lemma CanStop(start: State, s: State, i: nat) returns (s': State)
    requires Reaches(start, s) && s.stop && i < |s.sources| && !s.sources[i].pc.Idle?
    ensures Reaches(start, s') && s'.stop && s'.caller == s.caller && |s'.sources| == |s.sources|
    ensures WoundDown(s.sources[i], s'.sources[i])
    ensures forall k :: 0 <= k < |s.sources| && k != i ==> s'.sources[k] == s.sources[k]
  {
    s' := s;
    match s.sources[i].pc {
      case Waiting =>
        ReachesNext(start, s', SeeStop(i));
        s' := Step(s', SeeStop(i)).value;
      case Checking =>
        ReachesNext(start, s', Answer(i, Unavailable));
        s' := Step(s', Answer(i, Unavailable)).value;
      case _ =>
    }
    if s'.sources[i].pc.Leaving? {
      ReachesNext(start, s', Leave(i));
      s' := Step(s', Leave(i)).value;
    }
  }

  lemma {:induction false} CanStopAll(start: State, s: State, k: nat) returns (s': State)
    requires Reaches(start, s) && s.stop && k <= |s.sources| && forall i :: 0 <= i < |s.sources| ==> !s.sources[i].pc.Idle?
    ensures Reaches(start, s') && s'.stop && s'.caller == s.caller && |s'.sources| == |s.sources|
    ensures forall i :: 0 <= i < k ==> s'.sources[i] == s.sources[i]
    ensures forall i :: k <= i < |s.sources| ==> WoundDown(s.sources[i], s'.sources[i])
    decreases |s.sources| - k
  {
    if k == |s.sources| {
      s' := s;
    } else {
      var next := CanStop(start, s, k);
      s' := CanStopAll(start, next, k + 1);
    }
  }

  /** Once the caller has returned, everything can wind down: from every such state a final one is
      reached in which no source that waited has been asked again. */
  lemma WindsDown(n: nat, s: State) returns (s': State)
    requires Reachable(n, s) && s.caller.Returned?
    ensures |s.sources| == n == |s'.sources| && Reaches(s, s') && Quiet(s')
    ensures forall i :: 0 <= i < n ==> WoundDown(s.sources[i], s'.sources[i])
  {
    ReachableOk(n, s);
    forall i | 0 <= i < n
      ensures !s.sources[i].pc.Idle?
    {
      assert SourceOk(s, i);
    }
    ReachesItself(s);
    s' := CanStopAll(s, s, 0);
    ReachesOk(s, s');
    if s'.wg == 0 && !s'.done {
      ReachesNext(s, s', CloseDone);
      s' := Step(s', CloseDone).value;
    }
    ReachesFar(n, s, s');
    CounterCounts(n, s');
    QuietIff(n, s');
  }

  lemma ReachesFar(n: nat, s: State, s': State)
    requires Reachable(n, s) && Reaches(s, s')
    ensures Reachable(n, s')
  {
    var first :| Run(Initial(n), first) == Some(s);
    var events :| Run(s, events) == Some(s');
    RunConcat(Initial(n), first, events);
  }

  lemma {:induction false} RunConcat(start: State, first: seq<Event>, events: seq<Event>)
    requires Run(start, first).Some?
    ensures Run(start, first + events) == Run(Run(start, first).value, events)
    decreases |first|
  {
    if first == [] {
      assert first + events == events;
    } else {
      assert (first + events)[1..] == first[1..] + events;
      RunConcat(Step(start, first[0]).value, first[1..], events);
    }
  }

  // ---------- Backing off ----------

  function Doubled(k: nat): nat {
    if k == 0 then 100 else 2 * Doubled(k - 1)
  }

  function Capped(k: nat): nat {
    if Doubled(k) > 30_000 then 30_000 else Doubled(k)
  }

  /** How often the source has been asked again. */
  function Retries(source: Source): nat {
    if source.reports == [] then 0
    else if source.pc == Checking then |source.reports|
    else |source.reports| - 1
  }

  predicate Backed(sources: seq<Source>) {
    forall i :: 0 <= i < |sources| ==> sources[i].duration == Capped(Retries(sources[i]))
  }

  lemma NextBackoff(k: nat)
    ensures ExpBackoff(Capped(k), MAX_INTERVAL) == Capped(k + 1)
  {
  }

  lemma StepKeepsBacked(s: State, e: Event)
    requires Ok(s) && Backed(s.sources) && Step(s, e).Some?
    ensures Backed(Step(s, e).value.sources)
  {
    hide Capped, Decided, NotReadyYet, LiveCount, ExpBackoff;
    var s' := Step(s, e).value;
    forall i | 0 <= i < |s'.sources|
      ensures s'.sources[i].duration == Capped(Retries(s'.sources[i]))
    {
      assert SourceOk(s, i);
      WaitingHasReports(s, i);
      NextBackoff(Retries(s.sources[i]));
    }
  }

  lemma WaitingHasReports(s: State, i: nat)
    requires i < |s.sources| && SourceOk(s, i)
    ensures s.sources[i].pc.Waiting? ==> s.sources[i].reports != []
  {
  }

  /** The pause before asking once more doubles from 100 milliseconds up to 30 seconds. */
  lemma PausesDouble(n: nat, s: State)
    requires Reachable(n, s)
    ensures Backed(s.sources)
  {
    var events :| Run(Initial(n), events) == Some(s);
    StartsOk(n);
    RunKeepsBacked(Initial(n), events);
  }

  lemma {:induction false} RunKeepsBacked(s: State, events: seq<Event>)
    requires Ok(s) && Backed(s.sources) && Run(s, events).Some?
    ensures Backed(Run(s, events).value.sources)
    decreases |events|
  {
    if events != [] {
      StepKeepsBacked(s, events[0]);
      StepKeeps(s, events[0]);
      RunKeepsBacked(Step(s, events[0]).value, events[1..]);
    }
  }
}
