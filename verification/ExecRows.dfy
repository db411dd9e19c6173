/** The persisted rows of execs across daemon crashes (internal/exec/service.go): creation, the
    supervisor's verdict, reconciliation at boot and the pollers it starts, as atomic steps on
    the repository. A crash may fall between any two of them. */
module ExecRows {
  import opened Wrappers
  import Supervise

  datatype RowState = Running | Ended(how: Supervise.ExecState)

  datatype Row = Row(state: RowState, runtimeId: Option<nat>, exitCode: Option<int>, finishedAt: Option<nat>)

  const NEW_ROW := Row(Running, None, None, None)

  /** What runs on behalf of a row, and where it stands. finish reads the row, then writes all of
      it back. */
  datatype Owner =
    | Creating
    | Started(runtimeId: nat)
    | MarkingFailed(known: Option<nat>)
    | Supervising
    | Polling(runtimeId: nat)
    | ToFinish(how: Supervise.ExecState, code: Option<int>)
    | Finishing(how: Supervise.ExecState, code: Option<int>, copy: Row)

  /** The daemon: not running, reconciling the rows it listed, or serving. When the listing itself
      fails the daemon says so in its own log and serves all the same. */
  datatype Phase = Down | Booting(todo: seq<nat>, current: Option<nat>) | Serving

  datatype System = System(rows: map<nat, Row>, owners: map<nat, Owner>, phase: Phase, clock: nat)

  /** What the runtime says of an exec. */
  datatype Inspect = StillRunning | NotRunning(code: Option<int>) | InspectFails

  datatype Step =
    | CreateRow(id: nat)
    | ExecFails(id: nat)
    | ExecStarts(id: nat, runtimeId: nat)
    | StoreRuntimeId(id: nat, stored: bool)
    | MarkFailed(id: nat, stored: bool)
    | SupervisorEnds(id: nat, appendFailed: bool, wait: Option<int>)
    | FinishGet(id: nat, found: bool)
    | FinishUpdate(id: nat, stored: bool)
    | PollTick(id: nat, inspect: Inspect)
    | PollStops(id: nat)
    | Crash
    | Boot(order: seq<nat>)
    | ListingFails
    | ReconcileNext(inspect: Inspect)
    | BootDone

  ghost function RunningRows(s: System): set<nat> {
    set id | id in s.rows && s.rows[id].state == Running
  }

  ghost predicate Distinct(ids: seq<nat>) {
    forall i, j :: 0 <= i < j < |ids| ==> ids[i] != ids[j]
  }

  /** What an inspection decides: nothing yet, or an end with the code the runtime gives. */
  function Verdict(inspect: Inspect): Option<Owner> {
    match inspect
    case StillRunning => None
    case NotRunning(code) => Some(ToFinish(Supervise.Exited, code))
    case InspectFails => Some(ToFinish(Supervise.ExecState.Failed, None))
  }

  // ---------------------------------------------------------------- the steps

  ghost function Apply(s: System, step: Step): System {
    match step
    case CreateRow(id) =>
      if s.phase != Serving || id in s.rows then s
      else s.(rows := s.rows[id := NEW_ROW], owners := s.owners[id := Creating])
    case Crash => System(s.rows, map[], Down, s.clock)
    case ListingFails => if s.phase == Down then s.(phase := Serving) else s
    case Boot(order) =>
      if s.phase != Down || !Distinct(order) || (set id | id in order) != RunningRows(s) then s
      else s.(phase := Booting(order, None))
    case ReconcileNext(inspect) => Reconcile(s, inspect)
    case BootDone =>
      if s.phase.Booting? && s.phase.todo == [] && Settled(s) then s.(phase := Serving) else s
    case _ => if step.id in s.owners && step.id in s.rows then OwnerStep(s, step) else s
  }

  /** The reconciliation loop is sequential: the row before is finished first. */
  ghost predicate Settled(s: System)
    requires s.phase.Booting?
  {
    s.phase.current.None? || s.phase.current.value !in s.owners || s.owners[s.phase.current.value].Polling?
  }

  ghost function Reconcile(s: System, inspect: Inspect): System {
    if !s.phase.Booting? || s.phase.todo == [] || !Settled(s) || s.phase.todo[0] !in s.rows then s
    else
      var id := s.phase.todo[0];
      var next := Booting(s.phase.todo[1..], Some(id));
      var owner :=
        match s.rows[id].runtimeId
        case None => ToFinish(Supervise.ExecState.Failed, None)
        case Some(runtimeId) =>
          match Verdict(inspect)
          case None => Polling(runtimeId)
          case Some(verdict) => verdict;
      s.(phase := next, owners := s.owners[id := owner])
  }

  ghost predicate IsOwnerStep(step: Step) {
    !step.CreateRow? && !step.Crash? && !step.Boot? && !step.ListingFails? && !step.ReconcileNext? && !step.BootDone?
  }

  ghost function OwnerStep(s: System, step: Step): System
    requires IsOwnerStep(step) && step.id in s.owners && step.id in s.rows
  {
    var id := step.id;
    var row := s.rows[id];
    match (step, s.owners[id])
    case (ExecFails(_), Creating) => s.(owners := s.owners[id := MarkingFailed(None)])
    case (ExecStarts(_, runtimeId), Creating) => s.(owners := s.owners[id := Started(runtimeId)])
    case (StoreRuntimeId(_, stored), Started(runtimeId)) =>
      if stored then
        s.(rows := s.rows[id := NEW_ROW.(runtimeId := Some(runtimeId))], owners := s.owners[id := Supervising])
      else s.(owners := s.owners[id := MarkingFailed(Some(runtimeId))])
    case (MarkFailed(_, stored), MarkingFailed(runtimeId)) =>
      Written(s, id, stored, Row(Ended(Supervise.ExecState.Failed), runtimeId, None, Some(s.clock)))
    case (SupervisorEnds(_, appendFailed, wait), Supervising) =>
      var (how, code) := Supervise.OutcomeFor(appendFailed, wait);
      s.(owners := s.owners[id := ToFinish(how, code)])
    case (FinishGet(_, found), ToFinish(how, code)) =>
      if found then s.(owners := s.owners[id := Finishing(how, code, row)])
      else s.(owners := s.owners - {id})
    case (FinishUpdate(_, stored), Finishing(how, code, copy)) =>
      Written(s, id, stored, copy.(state := Ended(how), exitCode := code, finishedAt := Some(s.clock)))
    case (PollTick(_, inspect), Polling(_)) =>
      (match Verdict(inspect)
       case None => s
       case Some(verdict) => s.(owners := s.owners[id := verdict]))
    case (PollStops(_), Polling(_)) => s.(owners := s.owners - {id})
    case _ => s
  }

  /** The last write of an owner: it is gone afterwards, whether the write succeeded or not. */
  ghost function Written(s: System, id: nat, stored: bool, row: Row): System {
    s.(rows := if stored then s.rows[id := row] else s.rows,
       owners := s.owners - {id},
       clock := s.clock + 1)
  }

  ghost function Run(s: System, steps: seq<Step>): System {
    if steps == [] then s else Apply(Run(s, steps[..|steps| - 1]), steps[|steps| - 1])
  }

  const FRESH := System(map[], map[], Down, 0)

  // ---------------------------------------------------------------- the invariant

  ghost predicate RowOk(row: Row) {
    (row.finishedAt.Some? <==> row.state != Running) && (row.exitCode.Some? ==> row.state == Ended(Supervise.Exited))
  }

  /** Only running rows have an owner, and what an owner holds is the row. */
  ghost predicate OwnerOk(row: Row, owner: Owner) {
    && row.state == Running
    && (owner.Creating? || owner.Started? || owner.MarkingFailed? ==> row == NEW_ROW)
    && (owner.Finishing? ==> owner.copy == row)
    && ((owner.ToFinish? || owner.Finishing?) && owner.code.Some? ==> owner.how == Supervise.Exited)
  }

  ghost predicate ByReconcile(owner: Owner) {
    owner.Polling? || owner.ToFinish? || owner.Finishing?
  }

  ghost predicate PhaseOk(s: System) {
    match s.phase
    case Down => s.owners == map[]
    case Booting(todo, current) =>
      && Distinct(todo)
      && (forall i :: 0 <= i < |todo| ==> todo[i] in RunningRows(s) && todo[i] !in s.owners)
      && (forall id :: id in s.owners ==> ByReconcile(s.owners[id]))
    case Serving => true
  }

  ghost predicate Inv(s: System) {
    && (forall id :: id in s.rows ==> RowOk(s.rows[id]))
    && (forall id :: id in s.owners ==> id in s.rows && OwnerOk(s.rows[id], s.owners[id]))
    && PhaseOk(s)
  }

  lemma {:induction false} OwnerStepKeepsInv(s: System, step: Step)
    requires Inv(s) && IsOwnerStep(step) && step.id in s.owners && step.id in s.rows
    ensures Inv(OwnerStep(s, step))
  {
    OwnerStepIsLocal(s, step);
    LocalChangeKeepsInv(s, OwnerStep(s, step), step.id);
  }

  /** What an owner's step may do to the whole system. */
  ghost predicate LocalChange(s: System, s': System, id: nat) {
    && s'.rows.Keys == s.rows.Keys && s'.phase == s.phase && s'.owners.Keys <= s.owners.Keys
    && s.owners.Keys <= s'.owners.Keys + {id}
    && (forall i :: i in s.rows && i != id ==> s'.rows[i] == s.rows[i])
    && (forall i :: i in s'.owners && i != id ==> s'.owners[i] == s.owners[i])
    && id in s.rows && id in s.owners && RowOk(s'.rows[id])
    && (id in s'.owners ==> OwnerOk(s'.rows[id], s'.owners[id]))
    && (id in s'.owners && ByReconcile(s.owners[id]) ==> ByReconcile(s'.owners[id]))
  }

  lemma {:induction false} LocalChangeKeepsInv(s: System, s': System, id: nat)
    requires Inv(s) && LocalChange(s, s', id)
    ensures Inv(s')
  {
    hide RowOk, OwnerOk, ByReconcile, Distinct;
    forall i | i in s'.owners ensures i in s'.rows && OwnerOk(s'.rows[i], s'.owners[i]) {
      assert i in s.owners && OwnerOk(s.rows[i], s.owners[i]);
    }
    assert id in s.owners && OwnerOk(s.rows[id], s.owners[id]);
    LocalChangeKeepsPhase(s, s', id);
  }

  lemma {:induction false} LocalChangeKeepsPhase(s: System, s': System, id: nat)
    requires PhaseOk(s) && LocalChange(s, s', id)
    ensures PhaseOk(s')
  {
    hide RowOk, OwnerOk, ByReconcile, Distinct;
    if s.phase.Booting? {
      forall i | 0 <= i < |s.phase.todo|
        ensures s.phase.todo[i] in RunningRows(s') && s.phase.todo[i] !in s'.owners
      {
        assert s.phase.todo[i] in RunningRows(s) && s.phase.todo[i] !in s.owners;
      }
    }
  }

  /** An owner's step touches its own row and owner, and leaves both well-formed. */
  lemma {:induction false} OwnerStepIsLocal(s: System, step: Step)
    requires IsOwnerStep(step) && step.id in s.owners && step.id in s.rows
    requires RowOk(s.rows[step.id]) && OwnerOk(s.rows[step.id], s.owners[step.id])
    ensures LocalChange(s, OwnerStep(s, step), step.id)
  {
  }

  lemma {:induction false} StepKeepsInv(s: System, step: Step)
    requires Inv(s)
    ensures Inv(Apply(s, step))
  {
    hide Inv;
    match step
    case ReconcileNext(inspect) => ReconcileKeepsInv(s, inspect);
    case CreateRow(id) => CreateKeepsInv(s, id);
    case Crash => PhaseKeepsInv(s, step);
    case Boot(order) => BootKeepsInv(s, order);
    case BootDone => PhaseKeepsInv(s, step);
    case ListingFails => PhaseKeepsInv(s, step);
    case _ => if step.id in s.owners && step.id in s.rows { OwnerStepKeepsInv(s, step); }
  }

  lemma {:induction false} CreateKeepsInv(s: System, id: nat)
    requires Inv(s)
    ensures Inv(Apply(s, CreateRow(id)))
  {
    hide Distinct;
  }

  lemma {:induction false} PhaseKeepsInv(s: System, step: Step)
    requires Inv(s) && (step.Crash? || step.BootDone? || step.ListingFails?)
    ensures Inv(Apply(s, step))
  {
    hide Distinct, RowOk, OwnerOk;
  }

  lemma {:induction false} BootKeepsInv(s: System, order: seq<nat>)
    requires Inv(s)
    ensures Inv(Apply(s, Boot(order)))
  {
    var s' := Apply(s, Boot(order));
    if s' != s {
      forall i | 0 <= i < |order| ensures order[i] in RunningRows(s) {
        assert order[i] in (set id | id in order);
      }
    }
  }

  lemma {:induction false} ReconcileKeepsInv(s: System, inspect: Inspect)
    requires Inv(s)
    ensures Inv(Reconcile(s, inspect))
  {
    var s' := Reconcile(s, inspect);
    if s' != s {
      var id := s.phase.todo[0];
      assert id in RunningRows(s) && RunningRows(s') == RunningRows(s);
      forall i | 0 <= i < |s'.phase.todo|
        ensures s'.phase.todo[i] in RunningRows(s') && s'.phase.todo[i] !in s'.owners
      {
        assert s'.phase.todo[i] == s.phase.todo[i + 1] && s.phase.todo[0] != s.phase.todo[i + 1];
      }
      assert Distinct(s'.phase.todo);
    }
  }

  lemma {:induction false} RunKeepsInv(steps: seq<Step>)
    ensures Inv(Run(FRESH, steps))
    decreases |steps|
  {
    hide Inv, Apply;
    if steps == [] {
      FreshInv();
    } else {
      RunKeepsInv(steps[..|steps| - 1]);
      StepKeepsInv(Run(FRESH, steps[..|steps| - 1]), steps[|steps| - 1]);
    }
  }

  lemma {:induction false} FreshInv()
    ensures Inv(FRESH)
  {
  }

  // ---------------------------------------------------------------- main results

  lemma {:induction false} StepKeepsEndedRows(s: System, step: Step, id: nat)
    requires Inv(s) && id in s.rows
    ensures id in Apply(s, step).rows
    ensures s.rows[id].state != Running ==> Apply(s, step).rows[id] == s.rows[id]
  {
    if IsOwnerStep(step) && step.id in s.owners && step.id in s.rows {
      OwnerStepIsLocal(s, step);
    }
  }

  /** Whatever crashes and boots follow, a row that has left `running` never changes again. */
  lemma {:induction false} EndedRowsAreFinal(steps: seq<Step>, more: seq<Step>, id: nat)
    requires id in Run(FRESH, steps).rows && Run(FRESH, steps).rows[id].state != Running
    ensures id in Run(FRESH, steps + more).rows
    ensures Run(FRESH, steps + more).rows[id] == Run(FRESH, steps).rows[id]
    decreases |more|
  {
    hide Apply, Inv;
    if more == [] {
      assert steps + more == steps;
    } else {
      var init := more[..|more| - 1];
      EndedRowsAreFinal(steps, init, id);
      assert (steps + more)[..|steps + more| - 1] == steps + init;
      RunKeepsInv(steps + init);
      StepKeepsEndedRows(Run(FRESH, steps + init), more[|more| - 1], id);
    }
  }

  /** In every reachable state finished_at is set exactly on rows that are not running, and an
      exit code is only ever on an exited row. */
  lemma {:induction false} RowsAreCoherent(steps: seq<Step>, id: nat)
    requires id in Run(FRESH, steps).rows
    ensures var row := Run(FRESH, steps).rows[id];
            && (row.finishedAt.Some? <==> row.state != Running)
            && (row.exitCode.Some? ==> row.state == Ended(Supervise.Exited))
  {
    RunKeepsInv(steps);
  }

  // ---------------------------------------------------------------- exit codes

  /** The verdict a step reaches on an exec, if it reaches one. */
  ghost function Decides(s: System, step: Step, id: nat): Option<Owner> {
    var owner := Apply(s, step).owners;
    if (step.SupervisorEnds? || step.PollTick? || step.ReconcileNext?) && id in owner && owner[id].ToFinish? &&
       (id !in s.owners || s.owners[id] != owner[id])
    then Some(owner[id]) else None
  }

  /** The last verdict of a run on an exec. */
  ghost function LastVerdict(steps: seq<Step>, id: nat): Option<Owner> {
    if steps == [] then None
    else
      var init := steps[..|steps| - 1];
      var now := Decides(Run(FRESH, init), steps[|steps| - 1], id);
      if now.Some? then now else LastVerdict(init, id)
  }

  /** A row ends as its last verdict says, and until then whoever is to write it holds that. */
  ghost predicate FollowsVerdict(s: System, id: nat, verdict: Option<Owner>) {
    && (id in s.rows && s.rows[id].state == Ended(Supervise.Exited) ==>
          verdict == Some(ToFinish(Supervise.Exited, s.rows[id].exitCode)))
    && (id in s.owners && (s.owners[id].ToFinish? || s.owners[id].Finishing?) ==>
          verdict == Some(ToFinish(s.owners[id].how, s.owners[id].code)))
  }

  lemma {:induction false} StepFollowsVerdict(s: System, step: Step, id: nat, verdict: Option<Owner>)
    requires Inv(s) && FollowsVerdict(s, id, verdict)
    ensures var now := Decides(s, step, id); FollowsVerdict(Apply(s, step), id, if now.Some? then now else verdict)
  {
    hide RowOk, PhaseOk, Distinct, RunningRows;
    if IsOwnerStep(step) {
      if step.id in s.owners && step.id in s.rows { OwnerFollowsVerdict(s, step, id, verdict); }
    } else if step.ReconcileNext? {
      ReconcileFollowsVerdict(s, step.inspect, id, verdict);
    }
  }

  lemma {:induction false} OwnerFollowsVerdict(s: System, step: Step, id: nat, verdict: Option<Owner>)
    requires FollowsVerdict(s, id, verdict) && IsOwnerStep(step) && step.id in s.owners && step.id in s.rows
    requires OwnerOk(s.rows[step.id], s.owners[step.id])
    ensures var now := Decides(s, step, id); FollowsVerdict(OwnerStep(s, step), id, if now.Some? then now else verdict)
  {
    hide Supervise.OutcomeFor;
  }

  lemma {:induction false} ReconcileFollowsVerdict(s: System, inspect: Inspect, id: nat, verdict: Option<Owner>)
    requires Inv(s) && FollowsVerdict(s, id, verdict)
    ensures var now := Decides(s, ReconcileNext(inspect), id);
            FollowsVerdict(Reconcile(s, inspect), id, if now.Some? then now else verdict)
  {
    hide RowOk, Distinct;
  }

  lemma {:induction false} RunFollowsVerdict(steps: seq<Step>, id: nat)
    ensures FollowsVerdict(Run(FRESH, steps), id, LastVerdict(steps, id))
    decreases |steps|
  {
    hide Inv, Apply, Decides, FollowsVerdict;
    if steps == [] {
      FreshFollows(id);
    } else {
      var init := steps[..|steps| - 1];
      RunKeepsInv(init);
      RunFollowsVerdict(init, id);
      StepFollowsVerdict(Run(FRESH, init), steps[|steps| - 1], id, LastVerdict(init, id));
    }
  }

  lemma {:induction false} FreshFollows(id: nat)
    ensures FollowsVerdict(FRESH, id, None)
  {
  }

  /** An inspection that says an exec is not running and gives no code. */
  const SILENT := ToFinish(Supervise.Exited, None)

  /** An exited row has no code exactly when the last verdict on it was a silent inspection's; with
      a code, it is that verdict's. */
  lemma {:induction false} CodeMissingExactlyWhenSilent(steps: seq<Step>, id: nat)
    requires id in Run(FRESH, steps).rows && Run(FRESH, steps).rows[id].state == Ended(Supervise.Exited)
    ensures var row := Run(FRESH, steps).rows[id];
            && (row.exitCode == None <==> LastVerdict(steps, id) == Some(SILENT))
            && LastVerdict(steps, id) == Some(ToFinish(Supervise.Exited, row.exitCode))
  {
    hide Run, LastVerdict;
    RunFollowsVerdict(steps, id);
  }

  /** No inspection of this exec was silent; what is said of other execs does not matter. */
  ghost predicate Reports(steps: seq<Step>, id: nat) {
    forall i :: 0 <= i < |steps| ==> Decides(Run(FRESH, steps[..i]), steps[i], id) != Some(SILENT)
  }

  lemma {:induction false} ReportedVerdict(steps: seq<Step>, id: nat)
    requires Reports(steps, id)
    ensures LastVerdict(steps, id) != Some(SILENT)
    decreases |steps|
  {
    hide Run, Decides;
    if steps != [] {
      var n := |steps| - 1;
      forall i | 0 <= i < n ensures Decides(Run(FRESH, steps[..n][..i]), steps[..n][i], id) != Some(SILENT) {
        assert steps[..n][..i] == steps[..i];
      }
      ReportedVerdict(steps[..n], id);
    }
  }

  /** With a runtime that reports a code for the exec, a code is present exactly when it exited. */
  lemma {:induction false} CodeExactlyWhenExited(steps: seq<Step>, id: nat)
    requires Reports(steps, id) && id in Run(FRESH, steps).rows
    ensures var row := Run(FRESH, steps).rows[id];
            row.exitCode.Some? <==> row.state == Ended(Supervise.Exited)
  {
    hide Inv, Apply, Run, Reports, LastVerdict;
    ReportedVerdict(steps, id);
    RowsAreCoherent(steps, id);
    if Run(FRESH, steps).rows[id].state == Ended(Supervise.Exited) {
      CodeMissingExactlyWhenSilent(steps, id);
    }
  }

  // ---------------------------------------------------------------- who looks after a running row

  /** Running rows that nobody looks after: no owner, and not listed for reconciliation. */
  ghost function Unwatched(s: System): set<nat> {
    if s.phase == Down then {}
    else set id | id in RunningRows(s) && id !in s.owners && !(s.phase.Booting? && id in s.phase.todo)
  }

  /** A step after which a running row has nobody: its last write or the read before it fails, its
      poller is told to stop, or the listing at boot fails while it runs. */
  ghost predicate GivesUp(s: System, step: Step, id: nat) {
    match step
    case MarkFailed(i, stored) => i == id && !stored && id in s.owners && s.owners[id].MarkingFailed?
    case FinishGet(i, found) => i == id && !found && id in s.owners && s.owners[id].ToFinish?
    case FinishUpdate(i, stored) => i == id && !stored && id in s.owners && s.owners[id].Finishing?
    case PollStops(i) => i == id && id in s.owners && s.owners[id].Polling?
    case ListingFails => s.phase == Down && id in RunningRows(s)
    case _ => false
  }

  /** Such a step has happened since the daemon last crashed. */
  ghost predicate GivenUp(steps: seq<Step>, id: nat) {
    steps != [] &&
    var init, last := steps[..|steps| - 1], steps[|steps| - 1];
    last != Crash && (GivesUp(Run(FRESH, init), last, id) || GivenUp(init, id))
  }

  lemma {:induction false} StepUnwatched(s: System, step: Step, id: nat)
    requires Inv(s)
    ensures id in Unwatched(Apply(s, step)) <==> step != Crash && (GivesUp(s, step, id) || id in Unwatched(s))
  {
    hide RowOk, Distinct, OwnerStep, Reconcile;
    if IsOwnerStep(step) {
      if step.id in s.owners && step.id in s.rows { OwnerUnwatched(s, step, id); }
    } else if step.ReconcileNext? {
      ReconcileUnwatched(s, step.inspect, id);
    } else if step.Boot? && Apply(s, step) != s {
      assert id in RunningRows(s) <==> id in (set i | i in step.order);
    }
  }

  lemma {:induction false} OwnerUnwatched(s: System, step: Step, id: nat)
    requires Inv(s) && IsOwnerStep(step) && step.id in s.owners && step.id in s.rows
    ensures id in Unwatched(OwnerStep(s, step)) <==> GivesUp(s, step, id) || id in Unwatched(s)
  {
    hide Inv, Supervise.OutcomeFor, Verdict;
    OwnedIsNotListed(s, step.id);
  }

  lemma {:induction false} OwnedIsNotListed(s: System, id: nat)
    requires Inv(s) && id in s.owners && id in s.rows
    ensures s.rows[id].state == Running && OwnerOk(s.rows[id], s.owners[id])
    ensures s.phase != Down && (s.phase.Booting? ==> id !in s.phase.todo)
  {
    hide RowOk;
  }

  lemma {:induction false} ReconcileUnwatched(s: System, inspect: Inspect, id: nat)
    requires Inv(s)
    ensures id in Unwatched(Reconcile(s, inspect)) <==> id in Unwatched(s)
  {
    hide RowOk, OwnerOk, Verdict;
    var s' := Reconcile(s, inspect);
    if s' != s {
      var todo := s.phase.todo;
      assert id in todo <==> id == todo[0] || id in todo[1..];
      assert todo == [todo[0]] + todo[1..];
    }
  }

  /** The exact condition, over all runs: a running row has nobody to end it if and only if it was
      given up since the last crash. */
  lemma {:induction false} NoForgottenRow(steps: seq<Step>, id: nat)
    ensures id in Unwatched(Run(FRESH, steps)) <==> GivenUp(steps, id)
    decreases |steps|
  {
    hide Inv, Apply, Unwatched, GivesUp;
    if steps == [] {
      FreshIsWatched(id);
    } else {
      var init := steps[..|steps| - 1];
      RunKeepsInv(init);
      NoForgottenRow(init, id);
      StepUnwatched(Run(FRESH, init), steps[|steps| - 1], id);
    }
  }

  lemma {:induction false} FreshIsWatched(id: nat)
    ensures id !in Unwatched(FRESH)
  {
  }

  /** When reconciliation completes, a row still running has a poller, watching or about to write
      its verdict, exactly unless it was given up meanwhile. */
  lemma {:induction false} ReconcileLeavesPollers(steps: seq<Step>, id: nat)
    requires var s := Run(FRESH, steps); s.phase.Booting? && Apply(s, BootDone).phase == Serving
    requires id in RunningRows(Run(FRESH, steps + [BootDone]))
    ensures var s := Run(FRESH, steps + [BootDone]);
            (id in s.owners && ByReconcile(s.owners[id])) <==> !GivenUp(steps, id)
  {
    hide GivenUp;
    RunKeepsInv(steps);
    NoForgottenRow(steps, id);
    assert (steps + [BootDone])[..|steps|] == steps;
  }

  /** While reconciliation runs, of the rows without a handle only the current one has an owner, and that
      is ending it. */
  ghost predicate HandlelessIsCurrent(s: System) {
    s.phase.Booting? ==>
      forall id :: id in s.owners && id in s.rows && s.rows[id].runtimeId.None? ==>
        s.phase.current == Some(id) && !s.owners[id].Polling?
  }

  lemma {:induction false} StepKeepsHandleless(s: System, step: Step)
    requires Inv(s) && HandlelessIsCurrent(s)
    ensures HandlelessIsCurrent(Apply(s, step))
  {
    hide Distinct, RunningRows, Verdict, RowOk;
    if IsOwnerStep(step) && step.id in s.owners && step.id in s.rows && s.phase.Booting? {
      assert ByReconcile(s.owners[step.id]) && OwnerOk(s.rows[step.id], s.owners[step.id]);
    }
  }

  lemma {:induction false} RunKeepsHandleless(steps: seq<Step>)
    ensures HandlelessIsCurrent(Run(FRESH, steps))
    decreases |steps|
  {
    hide Apply, HandlelessIsCurrent;
    if steps == [] {
      FreshHandleless();
    } else {
      var init := steps[..|steps| - 1];
      RunKeepsInv(init);
      RunKeepsHandleless(init);
      StepKeepsHandleless(Run(FRESH, init), steps[|steps| - 1]);
    }
  }

  lemma {:induction false} FreshHandleless()
    ensures HandlelessIsCurrent(FRESH)
  {
  }

  /** A row whose exec never got a handle is ended before the daemon serves again, unless it was given
      up. */
  lemma {:induction false} HandlelessRowsEnd(steps: seq<Step>, id: nat)
    requires var s := Run(FRESH, steps); s.phase.Booting? && Apply(s, BootDone).phase == Serving
    requires var s := Run(FRESH, steps); id in s.rows && s.rows[id].runtimeId.None?
    ensures Run(FRESH, steps).rows[id].state == Running ==> GivenUp(steps, id)
  {
    hide GivenUp;
    RunKeepsInv(steps);
    RunKeepsHandleless(steps);
    NoForgottenRow(steps, id);
  }

  /** Nobody ends a row that has been given up, as long as the daemon lives. */
  lemma {:induction false} GivenUpUntilRestart(steps: seq<Step>, more: seq<Step>, id: nat)
    requires GivenUp(steps, id) && Crash !in more
    ensures GivenUp(steps + more, id) && id in RunningRows(Run(FRESH, steps + more))
    ensures id !in Run(FRESH, steps + more).owners
    decreases |more|
  {
    hide Run, GivesUp;
    if more == [] {
      assert steps + more == steps;
    } else {
      var init := more[..|more| - 1];
      assert more[|more| - 1] in more && forall x :: x in init ==> x in more;
      GivenUpUntilRestart(steps, init, id);
      assert (steps + more)[..|steps + more| - 1] == steps + init;
    }
    NoForgottenRow(steps + more, id);
  }

  /** The next boot whose listing succeeds takes every running row up again. */
  lemma {:induction false} NextBootPicksUp(steps: seq<Step>, order: seq<nat>, id: nat)
    requires id in RunningRows(Run(FRESH, steps))
    requires Distinct(order) && (set i | i in order) == RunningRows(Run(FRESH, steps))
    ensures var s := Run(FRESH, steps + [Crash] + [Boot(order)]); s.phase.Booting? && id in s.phase.todo
    ensures !GivenUp(steps + [Crash] + [Boot(order)], id)
  {
    var crashed := steps + [Crash];
    var booted := crashed + [Boot(order)];
    assert crashed[..|steps|] == steps && booted[..|crashed|] == crashed;
    assert RunningRows(Run(FRESH, crashed)) == RunningRows(Run(FRESH, steps));
    assert id in (set i | i in order);
    NoForgottenRow(booted, id);
  }

  // ---------------------------------------------------------------- runs

  lemma {:induction false} RunSnoc(steps: seq<Step>, step: Step)
    ensures Run(FRESH, steps + [step]) == Apply(Run(FRESH, steps), step)
    ensures GivenUp(steps + [step], 0) <==>
              step != Crash && (GivesUp(Run(FRESH, steps), step, 0) || GivenUp(steps, 0))
  {
    assert (steps + [step])[..|steps|] == steps;
  }

  /** A daemon starts, serves, and creates an exec. */
  const CREATED: seq<Step> := [Boot([]), BootDone, CreateRow(0)]

  lemma {:induction false} AfterCreated()
    ensures Run(FRESH, CREATED) == System(map[0 := NEW_ROW], map[0 := Creating], Serving, 0)
  {
    hide Apply, Run, GivenUp, GivesUp;
    RunNothing();
    RunSnoc([], Boot([]));
    RunSnoc([Boot([])], BootDone);
    RunSnoc([Boot([]), BootDone], CreateRow(0));
    assert [] + [Boot([])] == [Boot([])] && [Boot([])] + [BootDone] == [Boot([]), BootDone];
    assert CREATED == [Boot([]), BootDone] + [CreateRow(0)];
    Served();
  }

  lemma {:induction false} RunNothing()
    ensures Run(FRESH, []) == FRESH
  {
  }

  lemma {:induction false} Served()
    ensures Apply(FRESH, Boot([])) == FRESH.(phase := Booting([], None))
    ensures Apply(FRESH.(phase := Booting([], None)), BootDone) == FRESH.(phase := Serving)
    ensures Apply(FRESH.(phase := Serving), CreateRow(0)) ==
            System(map[0 := NEW_ROW], map[0 := Creating], Serving, 0)
  {
    hide OwnerStep, Reconcile;
    assert RunningRows(FRESH) == {};
  }

  /** A run in which a serving daemon has forgotten a running row: it crashes during an exec, and
      the listing at the next boot fails. */
  lemma {:induction false} FailedListingForgets()
    ensures var s := Run(FRESH, CREATED + [Crash] + [ListingFails]);
            s.phase == Serving && 0 in RunningRows(s) && 0 !in s.owners
    ensures GivenUp(CREATED + [Crash] + [ListingFails], 0)
  {
    hide Run, GivenUp;
    AfterCreated();
    RunSnoc(CREATED, Crash);
    RunSnoc(CREATED + [Crash], ListingFails);
  }

  /** The exec has started, the daemon crashed and has listed it again. */
  const RELISTED: seq<Step> := CREATED + [ExecStarts(0, 7)] + [StoreRuntimeId(0, true)] + [Crash] + [Boot([0])]

  const STARTED_ROW := NEW_ROW.(runtimeId := Some(7))

  lemma {:induction false} AfterRelisted()
    ensures Run(FRESH, RELISTED) == System(map[0 := STARTED_ROW], map[], Booting([0], None), 0)
  {
    hide Apply, Run, GivenUp, GivesUp;
    AfterCreated();
    RunSnoc(CREATED, ExecStarts(0, 7));
    RunSnoc(CREATED + [ExecStarts(0, 7)], StoreRuntimeId(0, true));
    RunSnoc(CREATED + [ExecStarts(0, 7)] + [StoreRuntimeId(0, true)], Crash);
    RunSnoc(CREATED + [ExecStarts(0, 7)] + [StoreRuntimeId(0, true)] + [Crash], Boot([0]));
    Supervised();
    Relisted();
  }

  lemma {:induction false} Supervised()
    ensures var s := System(map[0 := NEW_ROW], map[0 := Creating], Serving, 0);
            Apply(Apply(s, ExecStarts(0, 7)), StoreRuntimeId(0, true)) ==
            System(map[0 := STARTED_ROW], map[0 := Supervising], Serving, 0)
  {
    hide Reconcile, RunningRows;
    var s := System(map[0 := NEW_ROW], map[0 := Creating], Serving, 0);
    assert Apply(s, ExecStarts(0, 7)) == s.(owners := map[0 := Started(7)]);
  }

  lemma {:induction false} Relisted()
    ensures Apply(Apply(System(map[0 := STARTED_ROW], map[0 := Supervising], Serving, 0), Crash), Boot([0])) ==
            System(map[0 := STARTED_ROW], map[], Booting([0], None), 0)
  {
    hide Reconcile, OwnerStep;
    assert RunningRows(System(map[0 := STARTED_ROW], map[], Down, 0)) == {0} == (set i | i in [0]);
  }

  /** Both ways to an exited row without a code: the silent inspection is reconciliation's, or a
      poller's. */
  lemma {:induction false} SilentRuntimeLeavesNoCode()
    ensures var s := Run(FRESH, RELISTED + [ReconcileNext(NotRunning(None))] +
                                [FinishGet(0, true)] + [FinishUpdate(0, true)]);
            s.rows == map[0 := Row(Ended(Supervise.Exited), Some(7), None, Some(0))]
    ensures var s := Run(FRESH, RELISTED + [ReconcileNext(StillRunning)] + [PollTick(0, NotRunning(None))] +
                                [FinishGet(0, true)] + [FinishUpdate(0, true)]);
            s.rows == map[0 := Row(Ended(Supervise.Exited), Some(7), None, Some(0))]
  {
    hide Apply, Run, GivenUp, GivesUp;
    AfterRelisted();
    var a := RELISTED + [ReconcileNext(NotRunning(None))];
    var b := RELISTED + [ReconcileNext(StillRunning)];
    var c := b + [PollTick(0, NotRunning(None))];
    RunSnoc(RELISTED, ReconcileNext(NotRunning(None)));
    RunSnoc(RELISTED, ReconcileNext(StillRunning));
    RunSnoc(b, PollTick(0, NotRunning(None)));
    SilentVerdicts();
    SilentEnd(a);
    SilentEnd(c);
  }

  lemma {:induction false} SilentVerdicts()
    ensures var s := System(map[0 := STARTED_ROW], map[], Booting([0], None), 0);
            var a, c := Apply(s, ReconcileNext(NotRunning(None))),
                        Apply(Apply(s, ReconcileNext(StillRunning)), PollTick(0, NotRunning(None)));
            && a.rows == c.rows == map[0 := STARTED_ROW] && a.owners == c.owners == map[0 := SILENT]
            && a.clock == c.clock == 0
  {
    hide RunningRows;
    var s := System(map[0 := STARTED_ROW], map[], Booting([0], None), 0);
    var b := Apply(s, ReconcileNext(StillRunning));
    assert b.rows == map[0 := STARTED_ROW] && b.owners == map[0 := Polling(7)] && b.clock == 0;
  }

  lemma {:induction false} SilentEnd(steps: seq<Step>)
    requires var s := Run(FRESH, steps);
             s.rows == map[0 := STARTED_ROW] && s.owners == map[0 := SILENT] && s.clock == 0
    ensures Run(FRESH, steps + [FinishGet(0, true)] + [FinishUpdate(0, true)]).rows ==
            map[0 := Row(Ended(Supervise.Exited), Some(7), None, Some(0))]
  {
    hide Apply, Run, GivenUp, GivesUp;
    RunSnoc(steps, FinishGet(0, true));
    RunSnoc(steps + [FinishGet(0, true)], FinishUpdate(0, true));
    SilentFinish(Run(FRESH, steps));
  }

  lemma {:induction false} SilentFinish(s: System)
    requires s.rows == map[0 := STARTED_ROW] && s.owners == map[0 := SILENT] && s.clock == 0
    ensures Apply(Apply(s, FinishGet(0, true)), FinishUpdate(0, true)).rows ==
            map[0 := Row(Ended(Supervise.Exited), Some(7), None, Some(0))]
  {
    hide Reconcile, RunningRows;
  }

  // ---------------------------------------------------------------- what an inspection comes to

  function EndedRow(row: Row, how: Supervise.ExecState, code: Option<int>, at: nat): Row {
    Row(Ended(how), row.runtimeId, code, Some(at))
  }

  /** A poller's inspection: nothing while the exec runs; otherwise the row ends, exited with the code
      the runtime gives, or failed without one if the inspection fails. */
  lemma {:induction false} PollerWritesWhatItSees(s: System, id: nat, inspect: Inspect)
    requires id in s.rows && id in s.owners && s.owners[id].Polling?
    ensures var seen := Apply(s, PollTick(id, inspect));
            var done := Apply(Apply(seen, FinishGet(id, true)), FinishUpdate(id, true));
            match inspect
            case StillRunning => seen == s
            case NotRunning(code) =>
              done.rows == s.rows[id := EndedRow(s.rows[id], Supervise.Exited, code, s.clock)]
            case InspectFails =>
              done.rows == s.rows[id := EndedRow(s.rows[id], Supervise.ExecState.Failed, None, s.clock)]
  {
  }

  /** Reconciliation of a listed row: one that never got a handle is failed; the others are inspected,
      and polled on if they still run. */
  lemma {:induction false} ReconciliationWritesWhatItSees(s: System, inspect: Inspect)
    requires s.phase.Booting? && s.phase.todo != [] && Settled(s) && s.phase.todo[0] in s.rows
    ensures var id := s.phase.todo[0]; var row := s.rows[id];
            var seen := Apply(s, ReconcileNext(inspect));
            var done := Apply(Apply(seen, FinishGet(id, true)), FinishUpdate(id, true));
            if row.runtimeId == None || inspect == InspectFails then
              done.rows == s.rows[id := EndedRow(row, Supervise.ExecState.Failed, None, s.clock)]
            else if inspect == StillRunning then
              seen.rows == s.rows && seen.owners == s.owners[id := Polling(row.runtimeId.value)]
            else
              done.rows == s.rows[id := EndedRow(row, Supervise.Exited, inspect.code, s.clock)]
  {
  }

  /** The supervisor's end: exited with the runtime's code if the log was kept and the code is known,
      failed without one otherwise. */
  lemma {:induction false} SupervisorWritesItsVerdict(s: System, id: nat, appendFailed: bool, wait: Option<int>)
    requires id in s.rows && id in s.owners && s.owners[id].Supervising?
    ensures var seen := Apply(s, SupervisorEnds(id, appendFailed, wait));
            var done := Apply(Apply(seen, FinishGet(id, true)), FinishUpdate(id, true));
            done.rows == s.rows[id := if wait.Some? && !appendFailed
                                      then EndedRow(s.rows[id], Supervise.Exited, wait, s.clock)
                                      else EndedRow(s.rows[id], Supervise.ExecState.Failed, None, s.clock)]
  {
  }

  /** How a start comes out: the handle on record and a supervisor at work, or a row failed without a
      code, naming the handle if the exec got one. */
  lemma {:induction false} StartIsRecorded(s: System, id: nat, handle: nat)
    requires id in s.rows && s.rows[id] == NEW_ROW && id in s.owners && s.owners[id].Creating?
    ensures var refused := Apply(Apply(s, ExecFails(id)), MarkFailed(id, true));
            var started := Apply(s, ExecStarts(id, handle));
            var kept, lost := Apply(started, StoreRuntimeId(id, true)), Apply(started, StoreRuntimeId(id, false));
            var named := NEW_ROW.(runtimeId := Some(handle));
            && refused.rows == s.rows[id := EndedRow(NEW_ROW, Supervise.ExecState.Failed, None, s.clock)]
            && kept.rows == s.rows[id := named] && kept.owners == s.owners[id := Supervising]
            && lost.rows == s.rows && id in lost.owners
            && Apply(lost, MarkFailed(id, true)).rows ==
               s.rows[id := EndedRow(named, Supervise.ExecState.Failed, None, s.clock)]
  {
  }
}
