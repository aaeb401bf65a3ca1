/** What a run of rounds has done for each service: whose actions ran, in which round, and what they
    returned. */
module Actions {
  import opened Walk
  import opened Round
  import opened Traversal

  /** The action of `n` ran in round `k`, and its wrapper has been kept since. */
  ghost predicate RanIn(run: seq<Turn>, loaded: seq<set<Name>>, k: nat, n: Name) {
    && k < |run| == |loaded| && n in run[k].before && n in run[k].after
    && run[k].after[n].runs > run[k].before[n].runs
    && forall i :: k < i < |run| ==> n !in loaded[i]
  }

  ghost predicate ForSelection(run: seq<Turn>, selected: set<Name>) {
    forall k :: 0 <= k < |run| ==> run[k].plan.selected == selected
  }

  /** A wrapper at the end of a round: one that is to run is executed exactly when its action ran,
      and the others are executed without an action and without an error. */
  ghost predicate Served(w: Wrapper, wanted: bool) {
    if wanted then w.state == Executed <==> w.runs == 1 else w.state == Executed && w.runs == 0 && w.err == NoErr
  }

  lemma ServedInTurn(t: Turn, n: Name)
    requires Completed(t) && AllSane(t.before) && n in t.before
    requires var wanted, b := t.plan.selected == {} || n in t.plan.selected, t.before[n];
      b == FRESH || (exists w :: Served(w, wanted) && b == ResetOf(w))
    ensures n in t.after && Served(t.after[n], t.plan.selected == {} || n in t.plan.selected)
  {
    AfterAt(t, n);
    assert Sane(t.before[n]);
  }

  /** Exactly the actions of the selected services run, or of all when none is selected. */
  lemma {:induction false} OnlySelectedRun(run: seq<Turn>, loaded: seq<set<Name>>, selected: set<Name>, k: nat, n: Name)
    requires IsTraversal(run, loaded) && ForSelection(run, selected) && k < |run| && n in run[k].after
    ensures Served(run[k].after[n], selected == {} || n in selected)
  {
    hide Completed, Served;
    SaneSoFar(run, loaded, k);
    assert Completed(run[k]) && Follows(run, loaded, k) && n in run[k].before;
    if k > 0 && n !in loaded[k] {
      OnlySelectedRun(run, loaded, selected, k - 1, n);
    }
    ServedInTurn(run[k], n);
  }

  /** Every wrapper whose action ran did so in a round since it was loaded. */
  lemma {:induction false} RanSince(run: seq<Turn>, loaded: seq<set<Name>>, k: nat, n: Name) returns (j: nat)
    requires IsTraversal(run, loaded) && k < |run| && n in run[k].after && run[k].after[n].runs > 0
    ensures j <= k && n in run[j].before && n in run[j].after && run[j].after[n].runs > run[j].before[n].runs
    ensures forall i :: j < i <= k ==> n !in loaded[i]
  {
    hide Completed;
    SaneSoFar(run, loaded, k);
    assert Follows(run, loaded, k) && n in run[k].before;
    if run[k].after[n].runs > run[k].before[n].runs {
      j := k;
    } else {
      assert TookTurn(run[k].before[n], run[k].after[n]);
      j := RanSince(run, loaded, k - 1, n);
    }
  }

  /** The error that is kept of what an action has returned: the request for a restart is dropped
      when the next round starts. */
  function KeptErr(err: Err): Err {
    if err == Restart then NoErr else err
  }

  lemma ReturnedInTurn(t: Turn, n: Name)
    requires Completed(t) && AllSane(t.before) && n in t.before && n in t.after && t.after[n].runs > t.before[n].runs
    ensures n in t.plan.acts && t.after[n].err == t.plan.acts[n] && t.after[n].state == Executed
  {
    AfterAt(t, n);
  }

  /** After its round, a wrapper carries what its action returned, and keeps it for the rest of the
      run. */
  lemma {:induction false} CarriesReturned(run: seq<Turn>, loaded: seq<set<Name>>, j: nat, k: nat, n: Name)
    requires IsTraversal(run, loaded) && j <= k < |run|
    requires n in run[j].before && n in run[j].after && run[j].after[n].runs > run[j].before[n].runs
    requires forall i :: j < i <= k ==> n !in loaded[i]
    ensures n in run[j].plan.acts && n in run[k].after && run[k].after[n].state == Executed
    ensures run[k].after[n].err == if k == j then run[j].plan.acts[n] else KeptErr(run[j].plan.acts[n])
    decreases k
  {
    hide Completed;
    SaneSoFar(run, loaded, k);
    assert Completed(run[k]) && Follows(run, loaded, k);
    if k == j {
      ReturnedInTurn(run[k], n);
    } else {
      CarriesReturned(run, loaded, j, k - 1, n);
      assert n in run[k].before && TookTurn(run[k].before[n], run[k].after[n]);
    }
  }

  /** At the end of a run that is not to be continued. */
  lemma EndsWithReturned(run: seq<Turn>, loaded: seq<set<Name>>, selected: set<Name>, k: nat, n: Name)
    requires IsTraversal(run, loaded) && ForSelection(run, selected) && run != [] && !Restarts(run[|run| - 1])
    requires RanIn(run, loaded, k, n)
    ensures (selected == {} || n in selected) && n in LastViews(run) && n in run[k].plan.acts
    ensures LastViews(run)[n].err == KeptErr(run[k].plan.acts[n])
  {
    hide Completed, IsTraversal;
    CarriesReturned(run, loaded, k, |run| - 1, n);
    SelectedIfRan(run, loaded, selected, k, n);
  }

  lemma SelectedIfRan(run: seq<Turn>, loaded: seq<set<Name>>, selected: set<Name>, k: nat, n: Name)
    requires IsTraversal(run, loaded) && ForSelection(run, selected) && RanIn(run, loaded, k, n)
    ensures selected == {} || n in selected
  {
    hide Completed;
    OnlySelectedRun(run, loaded, selected, k, n);
    SaneSoFar(run, loaded, k);
  }
}
