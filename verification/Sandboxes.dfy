/** The states of a sandbox row (internal/sandbox/state.go). */
module SandboxStates {
  import opened Wrappers

  datatype State = Creating | Running | Stopped | Destroying | Destroyed | Error

  function Transitions(from: State): set<State> {
    match from
    case Creating => {Running, Error}
    case Running => {Stopped, Destroying, Error}
    case Stopped => {Running, Destroying, Error}
    case Destroying => {Destroyed, Error}
    case Error => {Destroying}
    case Destroyed => {}
  }

  predicate CanTransition(from: State, to: State) {
    to in Transitions(from)
  }

  predicate Operable(state: State) {
    state == Running || state == Stopped
  }

  /** A registry image, or one a commit left on the host. */
  datatype ImageRef = Base(name: nat) | Commit(n: nat)

  datatype Row = Row(state: State, runtimeId: Option<nat>, parent: Option<nat>, image: ImageRef)

  datatype ContainerState = CRunning | CPaused | CStopped | CGone

  datatype Container = Container(sandbox: nat, image: ImageRef, state: ContainerState)

  ghost predicate Live(conts: map<nat, Container>, id: nat) {
    id in conts && conts[id].state != CGone
  }
}

/** The sandbox service's operations as interleaved atomic steps (internal/sandbox/service.go,
    internal/sandbox/lock.go): each holds its sandbox's lock and re-reads the row under it; the
    runtime's calls and the repository's writes may fail, containers may exit on their own, and
    the daemon may crash. A restarted daemon starts with no lock held. */
module Sandboxes {
  import opened Wrappers
  import opened SandboxStates

  datatype Op =
    | Start
    | Stop
    | Destroy
    | Restore(snapshot: nat, image: ImageRef)
    | SetParent(snapshot: nat)
    | Callback

  /** Where the holder of a lock stands, named by the call it makes next. stray: the container create
      that failed has made a container all the same. */
  datatype PC =
    | CreateRow
    | Get(op: Op)
    | Act(target: State)
    | StoreDestroying
    | RtDestroy
    | RtDestroyOld(snapshot: nat, image: ImageRef)
    | RtCreate(image: ImageRef, parent: Option<nat>)
    | RtStart(parent: Option<nat>)
    | RtInspect(parent: Option<nat>)
    | Store
    | MarkError(stray: bool)
    | InCallback

  /** A lock holder: its next call and its own copy of the row. */
  datatype Holder = Holder(pc: PC, sb: Row)

  datatype System = System(rows: map<nat, Row>, locks: map<nat, Holder>, conts: map<nat, Container>, next: nat)

  /** ok: the call succeeds. done: a container create or removal that failed took effect all the
      same, as one whose client went away may. */
  datatype Step =
    | BeginCreate(key: nat, image: ImageRef)
    | Begin(key: nat, op: Op)
    | Advance(key: nat, ok: bool, done: bool)
    | ContainerChanges(id: nat, state: ContainerState)
    | Crash

  // ---------------------------------------------------------------- the steps

  /** What an operation's next call does to the containers: nothing, a new state for the one of
      its row copy, or a new one. */
  datatype ContEffect = NoChange | SetTo(state: ContainerState) | New(image: ImageRef)

  /** A call's whole effect: a row written, the holder's next place (none: the lock is released),
      and the containers. */
  datatype Effect = Effect(write: Option<Row>, holder: Option<Holder>, cont: ContEffect)

  ghost function GoTo(pc: PC, sb: Row): Effect { Effect(None, Some(Holder(pc, sb)), NoChange) }

  const RELEASE := Effect(None, None, NoChange)

  /** One call of a lock holder. It sees its row as stored, its own copy, the state of the copy's
      container, and the id a new container would get. */
  ghost function Call(
      stored: Option<Row>, h: Holder, cont: Option<ContainerState>, newId: nat, ok: bool, done: bool): Effect
  {
    var sb := h.sb;
    var live := cont.Some? && cont.value != CGone;
    match h.pc
    case CreateRow => if ok then GoTo(RtCreate(sb.image, None), sb).(write := Some(sb)) else RELEASE
    case Get(op) => if ok && stored.Some? then Chosen(op, stored.value) else RELEASE
    case Act(target) =>
      if ok && live then
        GoTo(Store, sb.(state := target)).(cont := SetTo(if target == Running then CRunning else CStopped))
      else GoTo(MarkError(false), sb)
    case StoreDestroying =>
      if !ok then RELEASE
      else
        var next := if sb.runtimeId.Some? then GoTo(RtDestroy, sb) else GoTo(Store, sb.(state := Destroyed));
        next.(write := Some(sb))
    case RtDestroy => Removed(live, sb, ok, done, GoTo(Store, sb.(state := Destroyed)))
    case RtDestroyOld(snapshot, image) => Removed(live, sb, ok, done, GoTo(RtCreate(image, Some(snapshot)), sb))
    case RtCreate(image, parent) =>
      if ok then GoTo(RtStart(parent), sb.(runtimeId := Some(newId))).(cont := New(image))
      else GoTo(MarkError(done), sb).(cont := if done then New(image) else NoChange)
    case RtStart(parent) =>
      if ok && live then GoTo(RtInspect(parent), sb).(cont := SetTo(CRunning)) else GoTo(MarkError(false), sb)
    case RtInspect(parent) =>
      if ok && cont == Some(CRunning) then
        GoTo(Store, sb.(state := Running, parent := if parent.Some? then parent else sb.parent))
      else GoTo(MarkError(false), sb)
    case Store => RELEASE.(write := if ok then Some(sb) else None)
    case MarkError(_) => RELEASE.(write := if ok then Some(sb.(state := Error)) else None)
    case InCallback => if ok then GoTo(InCallback, sb) else RELEASE
  }

  /** rt.Destroy: a container that is already gone counts as removed. */
  ghost function Removed(live: bool, sb: Row, ok: bool, done: bool, after: Effect): Effect {
    if !live then after
    else if ok then after.(cont := SetTo(CGone))
    else GoTo(MarkError(false), sb).(cont := if done then SetTo(CGone) else NoChange)
  }

  /** After re-reading the row under the lock: the checks each operation makes. */
  ghost function Chosen(op: Op, row: Row): Effect {
    match op
    case Start => if CanTransition(row.state, Running) then GoTo(Act(Running), row) else RELEASE
    case Stop => if CanTransition(row.state, Stopped) then GoTo(Act(Stopped), row) else RELEASE
    case Destroy =>
      if CanTransition(row.state, Destroying) then GoTo(StoreDestroying, row.(state := Destroying)) else RELEASE
    case Restore(snapshot, image) =>
      if !Operable(row.state) then RELEASE
      else if row.runtimeId.Some? then GoTo(RtDestroyOld(snapshot, image), row)
      else GoTo(RtCreate(image, Some(snapshot)), row)
    case SetParent(snapshot) => GoTo(Store, row.(parent := Some(snapshot)))
    case Callback =>
      if Operable(row.state) && row.runtimeId.Some? then GoTo(InCallback, row) else RELEASE
  }

  ghost function Stored(s: System, key: nat): Option<Row> {
    if key in s.rows then Some(s.rows[key]) else None
  }

  ghost function ContainerOf(conts: map<nat, Container>, sb: Row): Option<ContainerState> {
    if sb.runtimeId.Some? && sb.runtimeId.value in conts then Some(conts[sb.runtimeId.value].state) else None
  }

  ghost function EffectOf(s: System, key: nat, ok: bool, done: bool): Effect
    requires key in s.locks
  {
    var h := s.locks[key];
    Call(Stored(s, key), h, ContainerOf(s.conts, h.sb), s.next, ok, done)
  }

  ghost function Merged(s: System, key: nat, e: Effect): System
    requires key in s.locks
  {
    System(
      if e.write.Some? then s.rows[key := e.write.value] else s.rows,
      if e.holder.Some? then s.locks[key := e.holder.value] else s.locks - {key},
      MergedContainers(s, key, s.locks[key].sb, e.cont),
      if e.cont.New? then s.next + 1 else s.next)
  }

  ghost function MergedContainers(s: System, key: nat, sb: Row, e: ContEffect): map<nat, Container> {
    match e
    case NoChange => s.conts
    case SetTo(state) =>
      if ContainerOf(s.conts, sb).None? then s.conts
      else s.conts[sb.runtimeId.value := s.conts[sb.runtimeId.value].(state := state)]
    case New(image) => s.conts[s.next := Container(key, image, CStopped)]
  }

  /** A step that is not possible in a state leaves it as it is. */
  ghost function Apply(s: System, step: Step): System {
    match step
    case BeginCreate(key, image) =>
      if key in s.rows || key in s.locks then s
      else s.(locks := s.locks[key := Holder(CreateRow, Row(Creating, None, None, image))])
    case Begin(key, op) =>
      if key !in s.rows || key in s.locks then s
      else s.(locks := s.locks[key := Holder(Get(op), s.rows[key])])
    case Advance(key, ok, done) =>
      if key in s.locks then Merged(s, key, EffectOf(s, key, ok, done)) else s
    case ContainerChanges(id, state) =>
      if Live(s.conts, id) && state != CGone then s.(conts := s.conts[id := s.conts[id].(state := state)]) else s
    case Crash => s.(locks := map[])
  }

  ghost function Run(s: System, steps: seq<Step>): System {
    if steps == [] then s else Apply(Run(s, steps[..|steps| - 1]), steps[|steps| - 1])
  }

  const EMPTY := System(map[], map[], map[], 0)

  // ---------------------------------------------------------------- state edges

  ghost predicate Edge(from: State, to: State) {
    from == to || CanTransition(from, to)
  }

  ghost predicate Rebuilding(now: State) {
    now == Creating || now == Running || now == Stopped
  }

  /** What a holder may still write is an edge away from the row as it is stored. */
  ghost predicate PendingOk(stored: Option<Row>, h: Holder) {
    if h.pc == CreateRow then stored == None && h.sb.state == Creating
    else
      && stored.Some?
      && var now := stored.value.state;
         match h.pc
         case CreateRow => true
         case Get(_) => true
         case Act(target) => CanTransition(now, target) && (target == Running || target == Stopped)
         case StoreDestroying => CanTransition(now, Destroying) && h.sb.state == Destroying
         case RtDestroy => now == Destroying
         case RtDestroyOld(_, _) => now == Running || now == Stopped
         case RtCreate(_, _) => Rebuilding(now)
         case RtStart(_) => Rebuilding(now)
         case RtInspect(_) => Rebuilding(now)
         case Store => Edge(now, h.sb.state)
         case MarkError(_) => Edge(now, Error)
         case InCallback => true
  }

  ghost predicate EdgesOk(s: System) {
    forall key :: key in s.locks ==> PendingOk(Stored(s, key), s.locks[key])
  }

  lemma {:induction false} CallIsAnEdge(
      stored: Option<Row>, h: Holder, cont: Option<ContainerState>, n: nat, ok: bool, done: bool)
    requires PendingOk(stored, h)
    ensures var e := Call(stored, h, cont, n, ok, done);
            && (e.write.Some? ==> if stored.Some? then Edge(stored.value.state, e.write.value.state)
                                  else e.write.value.state == Creating)
            && (e.holder.Some? ==> PendingOk(if e.write.Some? then e.write else stored, e.holder.value))
  {
  }

  lemma {:induction false} StepKeepsEdges(s: System, step: Step)
    requires EdgesOk(s)
    ensures EdgesOk(Apply(s, step))
    ensures forall k :: k in s.rows ==> k in Apply(s, step).rows && Edge(s.rows[k].state, Apply(s, step).rows[k].state)
    ensures forall k :: k in Apply(s, step).rows && k !in s.rows ==> Apply(s, step).rows[k].state == Creating
  {
    hide Call, PendingOk, MergedContainers;
    if step.Advance? && step.key in s.locks {
      var h := s.locks[step.key];
      CallIsAnEdge(Stored(s, step.key), h, ContainerOf(s.conts, h.sb), s.next, step.ok, step.done);
    } else if step.BeginCreate? {
      BeginsOk(Row(Creating, None, None, step.image));
    } else if step.Begin? && step.key in s.rows {
      BeginsOk(s.rows[step.key]);
    }
  }

  lemma {:induction false} BeginsOk(row: Row)
    ensures forall op :: PendingOk(Some(row), Holder(Get(op), row))
    ensures row.state == Creating ==> PendingOk(None, Holder(CreateRow, row))
  {
  }

  lemma {:induction false} RunKeepsEdges(steps: seq<Step>)
    ensures EdgesOk(Run(EMPTY, steps))
    decreases |steps|
  {
    hide Apply, EdgesOk;
    if steps == [] {
      EmptyEdges();
    } else {
      RunKeepsEdges(steps[..|steps| - 1]);
      StepKeepsEdges(Run(EMPTY, steps[..|steps| - 1]), steps[|steps| - 1]);
    }
  }

  lemma {:induction false} EmptyEdges()
    ensures EdgesOk(EMPTY)
  {
  }

  /** In every interleaving, with failing writes and crashes anywhere, a row is created as
      `creating` and every later write follows an edge of the table or keeps the state. */
  lemma {:induction false} OnlyTableEdges(steps: seq<Step>, step: Step, key: nat)
    requires key in Run(EMPTY, steps + [step]).rows
    ensures var before, after := Run(EMPTY, steps), Run(EMPTY, steps + [step]);
            if key in before.rows then Edge(before.rows[key].state, after.rows[key].state)
            else after.rows[key].state == Creating
  {
    hide Apply, EdgesOk;
    assert (steps + [step])[..|steps|] == steps;
    RunKeepsEdges(steps);
    StepKeepsEdges(Run(EMPTY, steps), step);
  }

  /** So `destroyed` is absorbing. */
  lemma {:induction false} DestroyedIsFinal(steps: seq<Step>, more: seq<Step>, key: nat)
    requires key in Run(EMPTY, steps).rows && Run(EMPTY, steps).rows[key].state == Destroyed
    ensures key in Run(EMPTY, steps + more).rows && Run(EMPTY, steps + more).rows[key].state == Destroyed
    decreases |more|
  {
    hide Apply, EdgesOk;
    if more == [] {
      assert steps + more == steps;
    } else {
      var init := more[..|more| - 1];
      DestroyedIsFinal(steps, init, key);
      assert (steps + more)[..|steps + more| - 1] == steps + init;
      RunKeepsEdges(steps + init);
      StepKeepsEdges(Run(EMPTY, steps + init), more[|more| - 1]);
    }
  }

  /** The second section of Fork writes the row it re-read with the parent set, whatever landed
      between the two sections. */
  lemma {:induction false} ForkSectionSetsOnlyTheParent(s: System, key: nat, snapshot: nat)
    requires key in s.rows && key !in s.locks
    ensures var a := Apply(s, Begin(key, SetParent(snapshot)));
            var b := Apply(a, Advance(key, true, false));
            var c := Apply(b, Advance(key, true, false));
            && key !in c.locks && c.conts == s.conts
            && c.rows == s.rows[key := s.rows[key].(parent := Some(snapshot))]
  {
  }

  // ---------------------------------------------------------------- container conservation

  ghost function Ids(o: Option<nat>): set<nat> {
    if o.Some? then {o.value} else {}
  }

  /** A sandbox's containers: all it ever had, and those not gone. */
  ghost function OwnOf(s: System, key: nat): set<nat> {
    set id | id in s.conts && s.conts[id].sandbox == key
  }

  ghost function LiveOf(s: System, key: nat): set<nat> {
    set id | id in s.conts && s.conts[id].sandbox == key && s.conts[id].state != CGone
  }

  /** A row at rest: its container is its own, nothing else is live, running and stopped rows
      have a live container, destroyed rows none, and no state is transient. */
  ghost predicate AtRest(row: Row, own: set<nat>, live: set<nat>) {
    && Ids(row.runtimeId) <= own
    && live <= (if row.state == Destroyed then {} else Ids(row.runtimeId))
    && (Operable(row.state) ==> row.runtimeId.Some? && row.runtimeId.value in live)
    && row.state != Creating && row.state != Destroying
  }

  /** A row in the middle of an operation: a transient state, or running or stopped without its
      container. */
  ghost predicate Disturbed(row: Row, live: set<nat>) {
    || row.state == Creating || row.state == Destroying
    || (Operable(row.state) && (row.runtimeId.None? || row.runtimeId.value !in live))
  }

  /** A sandbox whose lock is free is accounted for: no row and no container, or a row at rest. */
  ghost predicate FreeOk(stored: Option<Row>, own: set<nat>, live: set<nat>) {
    if stored.Some? then AtRest(stored.value, own, live) else live == {}
  }

  ghost predicate HeldOk(stored: Option<Row>, h: Holder, own: set<nat>, live: set<nat>) {
    if h.pc == CreateRow then stored == None && live == {} && h.sb.runtimeId == None && h.sb.state == Creating
    else
      && stored.Some? && Ids(stored.value.runtimeId) <= own && Ids(h.sb.runtimeId) <= own
      && PlaceOk(stored.value, h, own, live)
  }

  /** How the row and the containers stand at each place of an operation. */
  ghost predicate PlaceOk(row: Row, h: Holder, own: set<nat>, live: set<nat>) {
    match h.pc
    case CreateRow => true
    case Get(_) => AtRest(row, own, live)
    case Act(target) => AtRest(row, own, live) && live <= Ids(h.sb.runtimeId) && Operable(target)
    case StoreDestroying => AtRest(row, own, live) && live <= Ids(h.sb.runtimeId) && h.sb.state == Destroying
    case RtDestroy => row.state == Destroying && live <= Ids(h.sb.runtimeId)
    case RtDestroyOld(_, _) => AtRest(row, own, live) && Operable(row.state) && h.sb.runtimeId == row.runtimeId
    case RtCreate(_, _) => Disturbed(row, live) && live == {}
    case RtStart(_) => Disturbed(row, live) && live <= Ids(h.sb.runtimeId)
    case RtInspect(_) => Disturbed(row, live) && live <= Ids(h.sb.runtimeId)
    case Store => (Disturbed(row, live) || AtRest(row, own, live)) && AtRest(h.sb, own, live)
    case MarkError(stray) =>
      if stray then Disturbed(row, live) && !(live <= Ids(h.sb.runtimeId))
      else (Disturbed(row, live) || AtRest(row, own, live)) && live <= Ids(h.sb.runtimeId)
    case InCallback => AtRest(row, own, live) && h.sb == row && Operable(row.state)
  }

  ghost predicate LocalOk(stored: Option<Row>, holder: Option<Holder>, own: set<nat>, live: set<nat>) {
    && live <= own
    && if holder.Some? then HeldOk(stored, holder.value, own, live) else FreeOk(stored, own, live)
  }

  ghost function HolderOf(s: System, key: nat): Option<Holder> {
    if key in s.locks then Some(s.locks[key]) else None
  }

  /** One sandbox is as it should be. */
  ghost predicate Accounted(s: System, key: nat) {
    LocalOk(Stored(s, key), HolderOf(s, key), OwnOf(s, key), LiveOf(s, key))
  }

  ghost predicate Free(s: System, key: nat) {
    key !in s.locks ==> FreeOk(Stored(s, key), OwnOf(s, key), LiveOf(s, key))
  }

  /** What holds of every sandbox, whatever is lost: rows and copies name containers made for them. */
  ghost predicate Owned(s: System) {
    && (forall id :: id in s.conts ==> id < s.next)
    && (forall key :: OwnOk(Stored(s, key), HolderOf(s, key), OwnOf(s, key)))
  }

  ghost predicate OwnOk(stored: Option<Row>, holder: Option<Holder>, own: set<nat>) {
    && (stored.Some? ==> Ids(stored.value.runtimeId) <= own)
    && (holder.Some? ==> Ids(holder.value.sb.runtimeId) <= own)
  }

  ghost function OwnAfter(own: set<nat>, e: ContEffect, newId: nat): set<nat> {
    if e.New? then own + {newId} else own
  }

  ghost function LiveAfter(live: set<nat>, sb: Row, e: ContEffect, newId: nat): set<nat> {
    match e
    case NoChange => live
    case SetTo(state) => if state == CGone then live - Ids(sb.runtimeId) else live
    case New(_) => live + {newId}
  }

  /** The write of the row that closes an operation fails. */
  ghost predicate ClosingWriteLost(h: Holder, ok: bool) {
    !ok && (h.pc == Store || h.pc.MarkError?)
  }

  /** The local argument: one call, seen from its own sandbox. */
  lemma {:induction false} CallConserves(
      stored: Option<Row>, h: Holder, cont: Option<ContainerState>, n: nat, ok: bool, done: bool,
      own: set<nat>, live: set<nat>)
    requires live <= own && HeldOk(stored, h, own, live) && n !in own
    requires h.sb.runtimeId.Some? && h.sb.runtimeId.value in own ==>
               cont.Some? && (h.sb.runtimeId.value in live <==> cont.value != CGone)
    requires h.sb.runtimeId.None? ==> cont.None?
    requires !ClosingWriteLost(h, ok) && h.pc != MarkError(true)
    ensures var e := Call(stored, h, cont, n, ok, done);
            LocalOk(if e.write.Some? then e.write else stored, e.holder,
                    OwnAfter(own, e.cont, n), LiveAfter(live, h.sb, e.cont, n))
  {
    hide Chosen;
    if h.pc.RtCreate? || h.pc.RtStart? || h.pc.RtInspect? {
      LaunchConserves(stored, h, cont, n, ok, done, own, live);
    } else if h.pc.Get? && stored.Some? {
      ChosenConserves(h.pc.op, stored.value, own, live);
    }
  }

  lemma {:induction false} LaunchConserves(
      stored: Option<Row>, h: Holder, cont: Option<ContainerState>, n: nat, ok: bool, done: bool,
      own: set<nat>, live: set<nat>)
    requires live <= own && HeldOk(stored, h, own, live) && n !in own
    requires h.pc.RtCreate? || h.pc.RtStart? || h.pc.RtInspect?
    requires h.sb.runtimeId.Some? && h.sb.runtimeId.value in own ==>
               cont.Some? && (h.sb.runtimeId.value in live <==> cont.value != CGone)
    requires h.sb.runtimeId.None? ==> cont.None?
    ensures var e := Call(stored, h, cont, n, ok, done);
            LocalOk(if e.write.Some? then e.write else stored, e.holder,
                    OwnAfter(own, e.cont, n), LiveAfter(live, h.sb, e.cont, n))
  {
    hide Chosen;
  }

  lemma {:induction false} ChosenConserves(op: Op, row: Row, own: set<nat>, live: set<nat>)
    requires live <= own && AtRest(row, own, live)
    ensures var e := Chosen(op, row);
            e.write.None? && e.cont == NoChange && LocalOk(Some(row), e.holder, own, live)
  {
  }

  /** A lost closing write changes nothing but the lock. */
  lemma {:induction false} LostWriteReleases(
      stored: Option<Row>, h: Holder, cont: Option<ContainerState>, n: nat, ok: bool, done: bool)
    requires ClosingWriteLost(h, ok)
    ensures Call(stored, h, cont, n, ok, done) == RELEASE
  {
  }

  /** Rows and copies come from rows and copies, or name the container just made. */
  lemma {:induction false} CallKeepsOwn(
      stored: Option<Row>, h: Holder, cont: Option<ContainerState>, n: nat, ok: bool, done: bool, own: set<nat>)
    requires OwnOk(stored, Some(h), own)
    ensures var e := Call(stored, h, cont, n, ok, done);
            OwnOk(if e.write.Some? then e.write else stored, e.holder, OwnAfter(own, e.cont, n))
  {
  }

  /** Only live containers are started, stopped or paused by a call. */
  lemma {:induction false} CallTouchesLive(
      stored: Option<Row>, h: Holder, cont: Option<ContainerState>, n: nat, ok: bool, done: bool)
    ensures var e := Call(stored, h, cont, n, ok, done);
            e.cont.SetTo? && e.cont.state != CGone ==> cont.Some? && cont.value != CGone
  {
  }

  /** The containers after a call: the caller's as its effect says, everyone else's untouched. */
  lemma {:induction false} ContainersAfter(s: System, key: nat, e: Effect, k: nat)
    requires key in s.locks && Ids(s.locks[key].sb.runtimeId) <= OwnOf(s, key)
    requires forall id :: id in s.conts ==> id < s.next
    requires e.cont.SetTo? && e.cont.state != CGone ==> Ids(s.locks[key].sb.runtimeId) <= LiveOf(s, key)
    ensures var s' := Merged(s, key, e); var sb := s.locks[key].sb;
            && OwnOf(s', k) == (if k == key then OwnAfter(OwnOf(s, k), e.cont, s.next) else OwnOf(s, k))
            && LiveOf(s', k) == (if k == key then LiveAfter(LiveOf(s, k), sb, e.cont, s.next) else LiveOf(s, k))
            && forall id :: id in s'.conts ==> id < s'.next
  {
    var sb := s.locks[key].sb;
    var s' := Merged(s, key, e);
    if sb.runtimeId.Some? {
      assert sb.runtimeId.value in OwnOf(s, key);
      if e.cont.SetTo? && e.cont.state != CGone { assert sb.runtimeId.value in LiveOf(s, key); }
    }
    forall id
      ensures id in OwnOf(s', k) <==> id in (if k == key then OwnAfter(OwnOf(s, k), e.cont, s.next) else OwnOf(s, k))
    {}
  }

  /** The same for the call a lock holder makes next. */
  lemma {:induction false} ContainersAfterCall(s: System, key: nat, ok: bool, done: bool, k: nat)
    requires Owned(s) && key in s.locks
    ensures var e := EffectOf(s, key, ok, done); var s' := Merged(s, key, e);
            && OwnOf(s', k) == (if k == key then OwnAfter(OwnOf(s, k), e.cont, s.next) else OwnOf(s, k))
            && LiveOf(s', k) ==
               (if k == key then LiveAfter(LiveOf(s, k), s.locks[key].sb, e.cont, s.next) else LiveOf(s, k))
            && forall id :: id in s'.conts ==> id < s'.next
  {
    hide Call, Merged, OwnAfter, LiveAfter;
    var h := s.locks[key];
    assert OwnOk(Stored(s, key), HolderOf(s, key), OwnOf(s, key));
    CallTouchesLive(Stored(s, key), h, ContainerOf(s.conts, h.sb), s.next, ok, done);
    if h.sb.runtimeId.Some? { assert h.sb.runtimeId.value in OwnOf(s, key); }
    ContainersAfter(s, key, EffectOf(s, key, ok, done), k);
  }

  lemma {:induction false} AdvanceKeepsOwned(s: System, key: nat, ok: bool, done: bool)
    requires Owned(s) && key in s.locks
    ensures Owned(Merged(s, key, EffectOf(s, key, ok, done)))
  {
    hide Call, OwnAfter, LiveAfter, MergedContainers, OwnOf, LiveOf, OwnOk;
    var h := s.locks[key];
    var s' := Merged(s, key, EffectOf(s, key, ok, done));
    assert OwnOk(Stored(s, key), HolderOf(s, key), OwnOf(s, key));
    CallKeepsOwn(Stored(s, key), h, ContainerOf(s.conts, h.sb), s.next, ok, done, OwnOf(s, key));
    forall k ensures OwnOk(Stored(s', k), HolderOf(s', k), OwnOf(s', k)) {
      ContainersAfterCall(s, key, ok, done, k);
      assert OwnOk(Stored(s, k), HolderOf(s, k), OwnOf(s, k));
    }
    ContainersAfterCall(s, key, ok, done, key);
  }

  /** Containers that change without being removed stay whose they were. */
  lemma {:induction false} ChangeKeepsContainers(s: System, id: nat, state: ContainerState, k: nat)
    requires Live(s.conts, id) && state != CGone
    ensures var s' := s.(conts := s.conts[id := s.conts[id].(state := state)]);
            OwnOf(s', k) == OwnOf(s, k) && LiveOf(s', k) == LiveOf(s, k)
  {
  }

  /** Whatever fails or crashes, rows and copies name containers of their own sandbox. */
  lemma {:induction false} StepKeepsOwned(s: System, step: Step)
    requires Owned(s)
    ensures Owned(Apply(s, step))
  {
    hide Merged, EffectOf, OwnOf, LiveOf;
    var s' := Apply(s, step);
    if step.Advance? {
      if step.key in s.locks { AdvanceKeepsOwned(s, step.key, step.ok, step.done); }
    } else {
      forall k ensures OwnOk(Stored(s', k), HolderOf(s', k), OwnOf(s', k)) {
        assert OwnOk(Stored(s, k), HolderOf(s, k), OwnOf(s, k));
        SameContainers(s, step, k);
      }
    }
  }

  lemma {:induction false} SameContainers(s: System, step: Step, k: nat)
    requires !step.Advance?
    ensures var s' := Apply(s, step);
            && OwnOf(s', k) == OwnOf(s, k) && LiveOf(s', k) == LiveOf(s, k)
            && s'.rows == s.rows && s'.conts.Keys == s.conts.Keys && s'.next == s.next
  {
    if step.ContainerChanges? && Live(s.conts, step.id) && step.state != CGone {
      ChangeKeepsContainers(s, step.id, step.state, k);
    }
  }

  lemma {:induction false} RunKeepsOwned(steps: seq<Step>)
    ensures Owned(Run(EMPTY, steps))
    decreases |steps|
  {
    hide Apply, Owned;
    if steps == [] {
      EmptyIsOwned();
    } else {
      RunKeepsOwned(steps[..|steps| - 1]);
      StepKeepsOwned(Run(EMPTY, steps[..|steps| - 1]), steps[|steps| - 1]);
    }
  }

  lemma {:induction false} EmptyIsOwned()
    ensures Owned(EMPTY)
  {
  }

  // ---------------------------------------------------------------- which interruptions matter

  /** The lock of a sandbox goes without the write that closes its operation: the write fails, or
      the daemon dies. */
  ghost predicate Interrupted(s: System, step: Step, key: nat) {
    key in s.locks && (step.Crash? || (step.Advance? && step.key == key && ClosingWriteLost(s.locks[key], step.ok)))
  }

  /** The places an operation can be left at: before it has touched anything, or at its closing
      write with nothing to record. */
  ghost predicate Harmless(s: System, key: nat)
    requires key in s.locks
  {
    match s.locks[key].pc
    case CreateRow => true
    case Get(_) => true
    case Act(_) => true
    case StoreDestroying => true
    case RtDestroyOld(_, _) => true
    case InCallback => true
    case Store => key in s.rows && !Disturbed(s.rows[key], LiveOf(s, key))
    case MarkError(_) => key in s.rows && !Disturbed(s.rows[key], LiveOf(s, key))
    case _ => false
  }

  /** An operation ends with its error recorded, while a container lives that its failed create made
      and nobody knows of. */
  ghost predicate Abandons(s: System, step: Step, key: nat) {
    key in s.locks && step.Advance? && step.key == key && step.ok && s.locks[key].pc == MarkError(true)
  }

  ghost predicate Harmful(s: System, step: Step, key: nat) {
    (Interrupted(s, step, key) && !Harmless(s, key)) || Abandons(s, step, key)
  }

  /** An interruption leaves the sandbox accounted for exactly when it comes at such a place. */
  lemma {:induction false} InterruptedExactly(s: System, step: Step, key: nat)
    requires Owned(s) && Accounted(s, key) && Interrupted(s, step, key)
    ensures key !in Apply(s, step).locks
    ensures Accounted(Apply(s, step), key) <==> Harmless(s, key)
  {
    hide Owned, OwnOf, LiveOf, Call, HeldOk, PlaceOk, FreeOk, Harmless;
    InterruptionChangesNothing(s, step, key);
    LeftExactly(s, key);
  }

  lemma {:induction false} InterruptionChangesNothing(s: System, step: Step, key: nat)
    requires Interrupted(s, step, key)
    ensures var s' := Apply(s, step);
            && key !in s'.locks && Stored(s', key) == Stored(s, key)
            && OwnOf(s', key) == OwnOf(s, key) && LiveOf(s', key) == LiveOf(s, key)
  {
    hide Call;
    var h := s.locks[key];
    if step.Advance? {
      LostWriteReleases(Stored(s, key), h, ContainerOf(s.conts, h.sb), s.next, step.ok, step.done);
    }
  }

  lemma {:induction false} LeftExactly(s: System, key: nat)
    requires Accounted(s, key) && key in s.locks
    ensures FreeOk(Stored(s, key), OwnOf(s, key), LiveOf(s, key)) <==> Harmless(s, key)
  {
    hide OwnOf, LiveOf;
  }

  /** Any other step keeps the sandbox accounted for, whatever it does to other sandboxes. */
  lemma {:induction false} StepConserves(s: System, step: Step, key: nat)
    requires Owned(s) && Accounted(s, key) && !Interrupted(s, step, key) && !Abandons(s, step, key)
    ensures Accounted(Apply(s, step), key)
  {
    hide Merged, EffectOf, LocalOk, OwnOf, LiveOf, Owned;
    if step.Advance? {
      if step.key in s.locks { AdvanceConserves(s, step.key, step.ok, step.done, key); }
    } else {
      SameContainers(s, step, key);
      if key !in s.locks && key in Apply(s, step).locks {
        BeginConserves(s, step, key);
      }
    }
  }

  lemma {:induction false} BeginConserves(s: System, step: Step, key: nat)
    requires Accounted(s, key) && !step.Advance? && key !in s.locks && key in Apply(s, step).locks
    ensures Accounted(Apply(s, step), key)
  {
    SameContainers(s, step, key);
    hide OwnOf, LiveOf;
  }

  lemma {:induction false} AdvanceConserves(s: System, other: nat, ok: bool, done: bool, key: nat)
    requires Owned(s) && Accounted(s, key) && other in s.locks
    requires other == key ==> !ClosingWriteLost(s.locks[key], ok) && s.locks[key].pc != MarkError(true)
    ensures Accounted(Merged(s, other, EffectOf(s, other, ok, done)), key)
  {
    hide Call, HeldOk, FreeOk, OwnAfter, LiveAfter, MergedContainers, OwnOf, LiveOf, ClosingWriteLost;
    ContainersAfterCall(s, other, ok, done, key);
    if other == key {
      var h := s.locks[key];
      CopyIsOwn(s, key);
      CallConserves(Stored(s, key), h, ContainerOf(s.conts, h.sb), s.next, ok, done, OwnOf(s, key), LiveOf(s, key));
    }
  }

  /** The container a holder's copy names is known, and live as its state says. */
  lemma {:induction false} CopyIsOwn(s: System, key: nat)
    requires Owned(s) && key in s.locks
    ensures var sb := s.locks[key].sb; var cont := ContainerOf(s.conts, sb);
            && s.next !in OwnOf(s, key)
            && (sb.runtimeId.Some? && sb.runtimeId.value in OwnOf(s, key) ==>
                  cont.Some? && (sb.runtimeId.value in LiveOf(s, key) <==> cont.value != CGone))
            && (sb.runtimeId.None? ==> cont.None?)
  {
  }

  // ---------------------------------------------------------------- every run

  /** No operation on this sandbox has been interrupted at a harmful place. What happens to other
      sandboxes, and crashes while this one is not being operated on, do not matter. */
  ghost predicate Unharmed(steps: seq<Step>, key: nat) {
    forall i :: 0 <= i < |steps| ==> !Harmful(Run(EMPTY, steps[..i]), steps[i], key)
  }

  /** At every moment of a run at which the sandbox's lock is free, it is accounted for. */
  ghost predicate AlwaysAccounted(steps: seq<Step>, key: nat) {
    forall i :: 0 <= i <= |steps| ==> Free(Run(EMPTY, steps[..i]), key)
  }

  lemma {:induction false} UnharmedPrefix(steps: seq<Step>, key: nat, n: nat)
    requires Unharmed(steps, key) && n <= |steps|
    ensures Unharmed(steps[..n], key)
    ensures n < |steps| ==> !Harmful(Run(EMPTY, steps[..n]), steps[n], key)
  {
    hide Run, Harmful;
    forall i | 0 <= i < n ensures !Harmful(Run(EMPTY, steps[..n][..i]), steps[..n][i], key) {
      assert steps[..n][..i] == steps[..i];
    }
  }

  lemma {:induction false} RunConserves(steps: seq<Step>, key: nat)
    requires Unharmed(steps, key)
    ensures Accounted(Run(EMPTY, steps), key)
    decreases |steps|
  {
    hide Apply, Accounted, Harmful, Unharmed;
    if steps == [] {
      EmptyAccounted(key);
    } else {
      var n := |steps| - 1;
      UnharmedPrefix(steps, key, n);
      RunConserves(steps[..n], key);
      RunKeepsOwned(steps[..n]);
      UnharmedStepConserves(Run(EMPTY, steps[..n]), steps[n], key);
    }
  }

  lemma {:induction false} UnharmedStepConserves(s: System, step: Step, key: nat)
    requires Owned(s) && Accounted(s, key) && !Harmful(s, step, key)
    ensures Accounted(Apply(s, step), key)
  {
    hide Owned, Accounted, Apply, Harmless, Interrupted, Abandons;
    if Interrupted(s, step, key) {
      InterruptedExactly(s, step, key);
    } else {
      StepConserves(s, step, key);
    }
  }

  lemma {:induction false} EmptyAccounted(key: nat)
    ensures Accounted(EMPTY, key)
  {
    assert OwnOf(EMPTY, key) == {} && LiveOf(EMPTY, key) == {};
  }

  lemma {:induction false} AccountedIsFree(s: System, key: nat)
    requires Accounted(s, key)
    ensures Free(s, key)
  {
    hide OwnOf, LiveOf, FreeOk, HeldOk;
  }

  /** The exact condition, over all runs: a sandbox is accounted for whenever its lock is free if
      and only if none of its operations was interrupted at a harmful place. */
  lemma {:induction false} AccountedExactlyWhenUnharmed(steps: seq<Step>, key: nat)
    ensures AlwaysAccounted(steps, key) <==> Unharmed(steps, key)
  {
    hide Run, Free, Harmful, Accounted;
    if Unharmed(steps, key) {
      forall i | 0 <= i <= |steps| ensures Free(Run(EMPTY, steps[..i]), key) {
        UnharmedPrefix(steps, key, i);
        RunConserves(steps[..i], key);
        AccountedIsFree(Run(EMPTY, steps[..i]), key);
      }
    } else {
      var i := FirstHarm(steps, key);
      RunConserves(steps[..i], key);
      HarmShows(steps, key, i);
    }
  }

  lemma {:induction false} FirstHarm(steps: seq<Step>, key: nat) returns (i: nat)
    requires !Unharmed(steps, key)
    ensures i < |steps| && Harmful(Run(EMPTY, steps[..i]), steps[i], key) && Unharmed(steps[..i], key)
    decreases |steps|
  {
    hide Run, Harmful;
    i :| i < |steps| && Harmful(Run(EMPTY, steps[..i]), steps[i], key);
    if !Unharmed(steps[..i], key) {
      var j := FirstHarm(steps[..i], key);
      assert steps[..i][..j] == steps[..j];
      i := j;
    }
  }

  lemma {:induction false} HarmShows(steps: seq<Step>, key: nat, i: nat)
    requires i < |steps| && Harmful(Run(EMPTY, steps[..i]), steps[i], key) && Accounted(Run(EMPTY, steps[..i]), key)
    ensures !Free(Run(EMPTY, steps[..i + 1]), key)
  {
    hide Harmless, Interrupted, Abandons, Owned, Apply, OwnOf, LiveOf, FreeOk;
    assert steps[..i + 1][..i] == steps[..i];
    RunKeepsOwned(steps[..i]);
    if Abandons(Run(EMPTY, steps[..i]), steps[i], key) {
      AbandonShows(Run(EMPTY, steps[..i]), steps[i], key);
    } else {
      InterruptedExactly(Run(EMPTY, steps[..i]), steps[i], key);
    }
    LiveIsOwn(Run(EMPTY, steps[..i + 1]), key);
  }

  lemma {:induction false} AbandonShows(s: System, step: Step, key: nat)
    requires Owned(s) && Accounted(s, key) && Abandons(s, step, key)
    ensures !Free(Apply(s, step), key)
  {
    hide OwnOf, LiveOf, Owned, LiveAfter;
    var h := s.locks[key];
    ContainersAfterCall(s, key, step.ok, step.done, key);
    ErrorRecorded(Stored(s, key), h, ContainerOf(s.conts, h.sb), s.next, step.done);
    UntouchedLive(LiveOf(s, key), h.sb, s.next);
  }

  lemma {:induction false} ErrorRecorded(
      stored: Option<Row>, h: Holder, cont: Option<ContainerState>, n: nat, done: bool)
    requires h.pc.MarkError?
    ensures Call(stored, h, cont, n, true, done) == RELEASE.(write := Some(h.sb.(state := Error)))
  {
  }

  lemma {:induction false} UntouchedLive(live: set<nat>, sb: Row, n: nat)
    ensures LiveAfter(live, sb, NoChange, n) == live
  {
  }

  lemma {:induction false} LiveIsOwn(s: System, key: nat)
    ensures LiveOf(s, key) <= OwnOf(s, key)
  {
  }

  /** Container conservation: in every interleaving, whenever a sandbox's lock is free, each live
      container made for it is the one of its row, of no other row, and that row is not destroyed. */
  lemma {:induction false} LiveContainerHasOneRow(steps: seq<Step>, id: nat)
    requires Live(Run(EMPTY, steps).conts, id)
    requires var key := Run(EMPTY, steps).conts[id].sandbox; Unharmed(steps, key) && key !in Run(EMPTY, steps).locks
    ensures var s := Run(EMPTY, steps); var key := s.conts[id].sandbox;
            && key in s.rows && s.rows[key].runtimeId == Some(id) && s.rows[key].state != Destroyed
            && forall other :: other in s.rows && s.rows[other].runtimeId == Some(id) ==> other == key
  {
    hide Run, Unharmed;
    var s := Run(EMPTY, steps);
    var key := s.conts[id].sandbox;
    RunConserves(steps, key);
    RunKeepsOwned(steps);
    assert id in LiveOf(s, key);
    forall other | other in s.rows && s.rows[other].runtimeId == Some(id) ensures other == key {
      assert OwnOk(Stored(s, other), HolderOf(s, other), OwnOf(s, other));
      assert id in OwnOf(s, other);
    }
  }

  /** And the row of a free sandbox tells the truth: running and stopped have a live container,
      destroyed has none left, and no row rests in a transient state. */
  lemma {:induction false} FreeRowTellsTheTruth(steps: seq<Step>, key: nat)
    requires Unharmed(steps, key) && key in Run(EMPTY, steps).rows && key !in Run(EMPTY, steps).locks
    ensures var s := Run(EMPTY, steps); var row := s.rows[key];
            && (Operable(row.state) ==> row.runtimeId.Some? && Live(s.conts, row.runtimeId.value))
            && (row.state == Destroyed ==>
                  forall id :: id in s.conts && s.conts[id].sandbox == key ==> s.conts[id].state == CGone)
            && (row.state == Destroyed && row.runtimeId.Some? ==> !Live(s.conts, row.runtimeId.value))
            && row.state != Creating && row.state != Destroying
  {
    hide Run, Unharmed;
    RunConserves(steps, key);
    var s := Run(EMPTY, steps);
    if s.rows[key].state == Destroyed {
      forall id | id in s.conts && s.conts[id].sandbox == key ensures s.conts[id].state == CGone {
        assert id !in LiveOf(s, key);
      }
      if s.rows[key].runtimeId.Some? { assert s.rows[key].runtimeId.value in OwnOf(s, key); }
    }
  }

  /** A callback that runs under the lock sees one and the same live container throughout. */
  lemma {:induction false} CallbackSeesLiveContainer(steps: seq<Step>, key: nat)
    requires Unharmed(steps, key) && key in Run(EMPTY, steps).locks && Run(EMPTY, steps).locks[key].pc == InCallback
    ensures var s := Run(EMPTY, steps); var sb := s.locks[key].sb;
            && sb.runtimeId.Some? && Live(s.conts, sb.runtimeId.value)
            && key in s.rows && s.rows[key] == sb
  {
    hide Run, Unharmed;
    RunConserves(steps, key);
    var s := Run(EMPTY, steps);
    assert s.locks[key].sb.runtimeId.value in LiveOf(s, key);
  }

  // ---------------------------------------------------------------- runs that go wrong

  /** Live, and named by no row and no operation. */
  ghost predicate Orphan(s: System, id: nat) {
    && Live(s.conts, id) && id < s.next
    && (forall key :: key in s.rows ==> s.rows[key].runtimeId != Some(id))
    && (forall key :: key in s.locks ==> s.locks[key].sb.runtimeId != Some(id))
  }

  /** An orphan stays one: nothing the service does ever reaches it again. */
  lemma {:induction false} OrphanForEver(s: System, id: nat, more: seq<Step>)
    requires Orphan(s, id)
    ensures Orphan(Run(s, more), id)
    decreases |more|
  {
    hide Apply, Orphan;
    if more != [] {
      OrphanForEver(s, id, more[..|more| - 1]);
      StepKeepsOrphan(Run(s, more[..|more| - 1]), id, more[|more| - 1]);
    }
  }

  lemma {:induction false} StepKeepsOrphan(s: System, id: nat, step: Step)
    requires Orphan(s, id)
    ensures Orphan(Apply(s, step), id)
  {
    hide Call;
    if step.Advance? && step.key in s.locks {
      var h := s.locks[step.key];
      CallNamesKnown(Stored(s, step.key), h, ContainerOf(s.conts, h.sb), s.next, step.ok, step.done, id);
    }
  }

  lemma {:induction false} CallNamesKnown(
      stored: Option<Row>, h: Holder, cont: Option<ContainerState>, n: nat, ok: bool, done: bool, id: nat)
    requires (stored.Some? ==> stored.value.runtimeId != Some(id)) && h.sb.runtimeId != Some(id) && n != id
    ensures var e := Call(stored, h, cont, n, ok, done);
            && (e.write.Some? ==> e.write.value.runtimeId != Some(id))
            && (e.holder.Some? ==> e.holder.value.sb.runtimeId != Some(id))
  {
  }

  /** Any creation or restore that made a container and is interrupted before its row records it
      orphans that container. */
  lemma {:induction false} LostWriteOrphansContainer(s: System, step: Step, key: nat)
    requires Owned(s) && Accounted(s, key) && Interrupted(s, step, key)
    requires s.locks[key].pc == Store && Operable(s.locks[key].sb.state)
    requires key in s.rows && s.rows[key].runtimeId != s.locks[key].sb.runtimeId
    ensures Harmful(s, step, key) && Orphan(Apply(s, step), s.locks[key].sb.runtimeId.value)
  {
    hide Call;
    var h := s.locks[key];
    var id := h.sb.runtimeId.value;
    assert id in LiveOf(s, key);
    NamedOnlyByItsOwn(s, key, id);
    if step.Advance? {
      LostWriteReleases(Stored(s, key), h, ContainerOf(s.conts, h.sb), s.next, step.ok, step.done);
    }
    hide OwnOf;
  }

  lemma {:induction false} NamedOnlyByItsOwn(s: System, key: nat, id: nat)
    requires Owned(s) && id in OwnOf(s, key)
    ensures id < s.next
    ensures forall k :: k in s.rows && k != key ==> s.rows[k].runtimeId != Some(id)
    ensures forall k :: k in s.locks && k != key ==> s.locks[k].sb.runtimeId != Some(id)
  {
    forall k | k != key
      ensures k in s.rows ==> s.rows[k].runtimeId != Some(id)
      ensures k in s.locks ==> s.locks[k].sb.runtimeId != Some(id)
    {
      assert OwnOk(Stored(s, k), HolderOf(s, k), OwnOf(s, k));
      assert id !in OwnOf(s, k);
    }
  }

  const IMAGE := Base(0)
  const OK := Advance(0, true, false)
  const FAILS := Advance(0, false, false)

  /** A creation up to the write that closes it: row, container, start, inspection. */
  const CREATED: seq<Step> := [BeginCreate(0, IMAGE), OK, OK, OK, OK]

  const NEW_ROW := Row(Creating, None, None, IMAGE)
  const READY_ROW := Row(Running, Some(0), None, IMAGE)

  lemma {:induction false} RunSnoc(s: System, steps: seq<Step>, step: Step)
    ensures Run(s, steps + [step]) == Apply(Run(s, steps), step)
  {
    assert (steps + [step])[..|steps|] == steps;
  }

  lemma {:induction false} RunSplit(s: System, a: seq<Step>, b: seq<Step>)
    ensures Run(s, a + b) == Run(Run(s, a), b)
    decreases |b|
  {
    hide Apply;
    if b == [] {
      assert a + b == a;
    } else {
      RunSplit(s, a, b[..|b| - 1]);
      assert (a + b)[..|a + b| - 1] == a + b[..|b| - 1];
    }
  }

  /** A few steps, one after the other. */
  lemma {:induction false} RunFew(s: System, a: Step, b: Step, c: Step, d: Step)
    ensures Run(s, [a]) == Apply(s, a)
    ensures Run(s, [a, b]) == Apply(Apply(s, a), b)
    ensures Run(s, [a, b, c]) == Apply(Apply(Apply(s, a), b), c)
    ensures Run(s, [a, b, c, d]) == Apply(Apply(Apply(Apply(s, a), b), c), d)
  {
    hide Apply;
    RunSnoc(s, [], a);
    RunSnoc(s, [a], b);
    RunSnoc(s, [a, b], c);
    RunSnoc(s, [a, b, c], d);
    assert [] + [a] == [a] && [a] + [b] == [a, b] && [a, b] + [c] == [a, b, c] && [a, b, c] + [d] == [a, b, c, d];
  }

  lemma {:induction false} AfterCreated()
    ensures Run(EMPTY, CREATED) ==
            System(map[0 := NEW_ROW], map[0 := Holder(Store, READY_ROW)], map[0 := Container(0, IMAGE, CRunning)], 1)
  {
    hide Apply;
    RunFew(EMPTY, BeginCreate(0, IMAGE), OK, OK, OK);
    RunSnoc(EMPTY, [BeginCreate(0, IMAGE), OK, OK, OK], OK);
    assert CREATED == [BeginCreate(0, IMAGE), OK, OK, OK] + [OK];
    hide Run;
    RowInserted();
    ContainerLaunched();
  }

  lemma {:induction false} RowInserted()
    ensures Apply(Apply(EMPTY, BeginCreate(0, IMAGE)), OK) ==
            System(map[0 := NEW_ROW], map[0 := Holder(RtCreate(IMAGE, None), NEW_ROW)], map[], 0)
  {
    hide Live;
  }

  lemma {:induction false} ContainerLaunched()
    ensures var s := System(map[0 := NEW_ROW], map[0 := Holder(RtCreate(IMAGE, None), NEW_ROW)], map[], 0);
            Apply(Apply(Apply(s, OK), OK), OK) ==
            System(s.rows, map[0 := Holder(Store, READY_ROW)], map[0 := Container(0, IMAGE, CRunning)], 1)
  {
    hide Live;
    var rows, made := map[0 := NEW_ROW], NEW_ROW.(runtimeId := Some(0));
    var c := Apply(System(rows, map[0 := Holder(RtCreate(IMAGE, None), NEW_ROW)], map[], 0), OK);
    assert c == System(rows, map[0 := Holder(RtStart(None), made)], map[0 := Container(0, IMAGE, CStopped)], 1);
    var d := Apply(c, OK);
    assert d == System(rows, map[0 := Holder(RtInspect(None), made)], map[0 := Container(0, IMAGE, CRunning)], 1);
  }

  /** A creation whose closing write fails, or that the daemon does not survive, leaves a running
      container that no later call ever reaches. */
  lemma {:induction false} LostCreationOrphansForEver(step: Step, more: seq<Step>)
    requires step == FAILS || step == Crash
    ensures Harmful(Run(EMPTY, CREATED), step, 0)
    ensures Orphan(Run(EMPTY, CREATED + [step] + more), 0)
  {
    AfterCreated();
    RunSnoc(EMPTY, CREATED, step);
    RunSplit(EMPTY, CREATED + [step], more);
    hide Run;
    OrphanForEver(Run(EMPTY, CREATED + [step]), 0, more);
  }

  const READY := System(map[0 := READY_ROW], map[], map[0 := Container(0, IMAGE, CRunning)], 1)

  lemma {:induction false} AfterReady()
    ensures Run(EMPTY, CREATED + [OK]) == READY
  {
    AfterCreated();
    RunSnoc(EMPTY, CREATED, OK);
    hide Run;
  }

  /** A restore whose client goes away after the old container was removed: the new container
      cannot be made, the error cannot be recorded, and the row stays running with nothing behind. */
  lemma {:induction false} LostRestoreLeavesNoContainer(snapshot: nat, image: ImageRef)
    ensures var s := Run(EMPTY, CREATED + [OK] + [Begin(0, Restore(snapshot, image)), OK, OK, FAILS] + [FAILS]);
            && s.rows == map[0 := READY_ROW] && s.locks == map[] && !Live(s.conts, 0)
  {
    hide Apply;
    var begin := Begin(0, Restore(snapshot, image));
    AfterReady();
    RunFew(READY, begin, OK, OK, FAILS);
    RunSplit(EMPTY, CREATED + [OK], [begin, OK, OK, FAILS]);
    RunSnoc(EMPTY, CREATED + [OK] + [begin, OK, OK, FAILS], FAILS);
    hide Run;
    RestoreFails(snapshot, image);
  }

  lemma {:induction false} RestoreFails(snapshot: nat, image: ImageRef)
    ensures Apply(Apply(Apply(Apply(Apply(READY, Begin(0, Restore(snapshot, image))), OK), OK), FAILS), FAILS) ==
            READY.(conts := map[0 := Container(0, IMAGE, CGone)])
  {
    hide Live;
    var b := Apply(Apply(READY, Begin(0, Restore(snapshot, image))), OK);
    assert b == READY.(locks := map[0 := Holder(RtDestroyOld(snapshot, image), READY_ROW)]);
    var c := Apply(b, OK);
    assert c == System(READY.rows, map[0 := Holder(RtCreate(image, Some(snapshot)), READY_ROW)],
                       map[0 := Container(0, IMAGE, CGone)], 1);
  }

  /** A creation whose client goes away while the runtime makes the container: the error is recorded,
      and the container lives on with nobody to name it, for ever. */
  lemma {:induction false} LostCreateCallOrphansForEver(more: seq<Step>)
    ensures var s := Run(EMPTY, [BeginCreate(0, IMAGE), OK, Advance(0, false, true), OK]);
            s.rows == map[0 := NEW_ROW.(state := Error)] && s.locks == map[]
    ensures Orphan(Run(EMPTY, [BeginCreate(0, IMAGE), OK, Advance(0, false, true), OK] + more), 0)
  {
    hide Apply;
    var steps := [BeginCreate(0, IMAGE), OK, Advance(0, false, true), OK];
    RunFew(EMPTY, BeginCreate(0, IMAGE), OK, Advance(0, false, true), OK);
    RunSplit(EMPTY, steps, more);
    hide Run;
    RowInserted();
    CreateCallFails();
    OrphanForEver(Run(EMPTY, steps), 0, more);
  }

  lemma {:induction false} CreateCallFails()
    ensures var s := System(map[0 := NEW_ROW], map[0 := Holder(RtCreate(IMAGE, None), NEW_ROW)], map[], 0);
            var t := Apply(Apply(s, Advance(0, false, true)), OK);
            && t.rows == map[0 := NEW_ROW.(state := Error)] && t.locks == map[] && Orphan(t, 0)
  {
    var rows := map[0 := NEW_ROW];
    var c := Apply(System(rows, map[0 := Holder(RtCreate(IMAGE, None), NEW_ROW)], map[], 0), Advance(0, false, true));
    assert c == System(rows, map[0 := Holder(MarkError(true), NEW_ROW)], map[0 := Container(0, IMAGE, CStopped)], 1);
  }

  // ---------------------------------------------------------------- operations in which nothing fails

  /** Start and stop, undisturbed: the container does what the row then says, and nothing else has
      changed. */
  lemma {:induction false} StartStopMoveTheContainer(s: System, key: nat, target: State)
    requires target == Running || target == Stopped
    requires key in s.rows && key !in s.locks && CanTransition(s.rows[key].state, target)
    requires s.rows[key].runtimeId.Some? && Live(s.conts, s.rows[key].runtimeId.value)
    ensures var ok := Advance(key, true, false); var id := s.rows[key].runtimeId.value;
            var s' := Run(s, [Begin(key, if target == Running then Start else Stop), ok, ok, ok]);
            && s'.rows == s.rows[key := s.rows[key].(state := target)] && s'.locks == s.locks
            && s'.conts.Keys == s.conts.Keys
            && (target == Running ==> s'.conts[id].state == CRunning)
            && (target == Stopped ==> s'.conts[id].state == CStopped)
            && s'.conts[id].image == s.conts[id].image && s'.conts[id].sandbox == s.conts[id].sandbox
            && forall c :: c in s.conts && c != id ==> s'.conts[c] == s.conts[c]
  {
    var ok := Advance(key, true, false);
    var begin := Begin(key, if target == Running then Start else Stop);
    RunFew(s, begin, ok, ok, ok);
    hide Run;
    var row, id := s.rows[key], s.rows[key].runtimeId.value;
    var b := Apply(Apply(s, begin), ok);
    assert b == s.(locks := s.locks[key := Holder(Act(target), row)]);
    var c := Apply(b, ok);
    ActMoves(b, key, target, row, id);
    assert c.locks[key] == Holder(Store, row.(state := target));
    hide Live;
    assert Apply(c, ok).locks == s.locks;
  }

  lemma {:induction false} ActMoves(s: System, key: nat, target: State, row: Row, id: nat)
    requires target == Running || target == Stopped
    requires key in s.locks && s.locks[key] == Holder(Act(target), row)
    requires row.runtimeId == Some(id) && Live(s.conts, id)
    ensures var s' := Apply(s, Advance(key, true, false));
            && s'.rows == s.rows && s'.locks == s.locks[key := Holder(Store, row.(state := target))]
            && s'.conts.Keys == s.conts.Keys
            && (target == Running ==> s'.conts[id].state == CRunning)
            && (target == Stopped ==> s'.conts[id].state == CStopped)
            && s'.conts[id].image == s.conts[id].image && s'.conts[id].sandbox == s.conts[id].sandbox
            && forall c :: c in s.conts && c != id ==> s'.conts[c] == s.conts[c]
  {
  }

  /** Restore, undisturbed: a new running container of the image takes the old one's place, and the
      snapshot becomes the parent. */
  lemma {:induction false} RestoreCompletes(s: System, key: nat, snapshot: nat, image: ImageRef)
    requires Owned(s) && key in s.rows && key !in s.locks && Operable(s.rows[key].state)
    requires s.rows[key].runtimeId.Some? && Live(s.conts, s.rows[key].runtimeId.value)
    ensures var ok := Advance(key, true, false); var was := s.rows[key];
            var s' := Run(Run(s, [Begin(key, Restore(snapshot, image)), ok, ok, ok]), [ok, ok, ok]);
            && s'.locks == s.locks && !Live(s'.conts, was.runtimeId.value)
            && s'.rows == s.rows[key := was.(state := Running, runtimeId := Some(s.next), parent := Some(snapshot))]
            && s'.conts.Keys == s.conts.Keys + {s.next} && s'.conts[s.next] == Container(key, image, CRunning)
            && forall c :: c in s.conts && c != was.runtimeId.value ==> s'.conts[c] == s.conts[c]
  {
    var ok := Advance(key, true, false);
    var begin := Begin(key, Restore(snapshot, image));
    hide Apply;
    RunFew(s, begin, ok, ok, ok);
    RunFew(Run(s, [begin, ok, ok, ok]), ok, ok, ok, ok);
    hide Run;
    var was, id := s.rows[key], s.rows[key].runtimeId.value;
    assert id < s.next;
    hide Owned;
    RestoreBegins(s, key, snapshot, image);
    var b := s.(locks := s.locks[key := Holder(RtDestroyOld(snapshot, image), was)]);
    var d := Apply(Apply(b, ok), ok);
    ReplacedOld(b, key, snapshot, image, was, id);
    LaunchCompletes(d, key, snapshot, image, was.(runtimeId := Some(s.next)), s.next);
  }

  lemma {:induction false} RestoreBegins(s: System, key: nat, snapshot: nat, image: ImageRef)
    requires key in s.rows && key !in s.locks && Operable(s.rows[key].state) && s.rows[key].runtimeId.Some?
    ensures Apply(Apply(s, Begin(key, Restore(snapshot, image))), Advance(key, true, false)) ==
            s.(locks := s.locks[key := Holder(RtDestroyOld(snapshot, image), s.rows[key])])
  {
    hide Live;
  }

  lemma {:induction false} ReplacedOld(s: System, key: nat, snapshot: nat, image: ImageRef, was: Row, id: nat)
    requires key in s.locks && s.locks[key] == Holder(RtDestroyOld(snapshot, image), was)
    requires was.runtimeId == Some(id) && Live(s.conts, id) && id < s.next
    ensures var ok := Advance(key, true, false); var s' := Apply(Apply(s, ok), ok);
            && s'.rows == s.rows && s'.next == s.next + 1
            && s'.locks == s.locks[key := Holder(RtStart(Some(snapshot)), was.(runtimeId := Some(s.next)))]
            && s'.conts.Keys == s.conts.Keys + {s.next} && s'.conts[s.next] == Container(key, image, CStopped)
            && s'.conts[id].state == CGone
            && forall c :: c in s.conts && c != id && c != s.next ==> s'.conts[c] == s.conts[c]
  {
    var ok := Advance(key, true, false);
    var c := Apply(s, ok);
    assert c.locks == s.locks[key := Holder(RtCreate(image, Some(snapshot)), was)] && c.next == s.next;
    assert c.conts == s.conts[id := s.conts[id].(state := CGone)];
  }

  lemma {:induction false} LaunchCompletes(s: System, key: nat, snapshot: nat, image: ImageRef, sb: Row, id: nat)
    requires key in s.locks && s.locks[key] == Holder(RtStart(Some(snapshot)), sb) && sb.runtimeId == Some(id)
    requires id in s.conts && s.conts[id] == Container(key, image, CStopped)
    ensures var ok := Advance(key, true, false); var s' := Apply(Apply(Apply(s, ok), ok), ok);
            && s'.rows == s.rows[key := sb.(state := Running, parent := Some(snapshot))]
            && s'.locks == s.locks - {key} && s'.conts == s.conts[id := Container(key, image, CRunning)]
  {
    var ok := Advance(key, true, false);
    var b := Apply(s, ok);
    assert b == s.(locks := s.locks[key := Holder(RtInspect(Some(snapshot)), sb)],
                   conts := s.conts[id := Container(key, image, CRunning)]);
    var c := Apply(b, ok);
    assert c == b.(locks := b.locks[key := Holder(Store, sb.(state := Running, parent := Some(snapshot)))]);
  }

  /** Which rows each operation gets past its check on. */
  lemma {:induction false} AdmittedExactly(s: System, key: nat, op: Op)
    requires key in s.rows && key !in s.locks
    ensures var s' := Apply(Apply(s, Begin(key, op)), Advance(key, true, false)); var row := s.rows[key];
            && s'.rows == s.rows && s'.conts == s.conts
            && (key in s'.locks <==>
                match op
                case Start => row.state in {Creating, Stopped}
                case Stop => row.state == Running
                case Destroy => row.state in {Running, Stopped, Error}
                case Restore(_, _) => row.state in {Running, Stopped}
                case SetParent(_) => true
                case Callback => row.state in {Running, Stopped} && row.runtimeId.Some?)
            && (key in s'.locks && op == Callback ==> s'.locks[key] == Holder(InCallback, row))
  {
  }

  /** A call to the runtime that is refused, or that needs a container which is not there, leads to the
      error on record, with the containers as they were and the container's name kept in the row. */
  lemma {:induction false} FailuresAreRecorded(s: System, key: nat, ok: bool)
    requires key in s.locks
    requires var h := s.locks[key]; var cont := ContainerOf(s.conts, h.sb);
             var live := cont.Some? && cont != Some(CGone);
             match h.pc
             case Act(_) => !ok || !live
             case RtStart(_) => !ok || !live
             case RtInspect(_) => !ok || cont != Some(CRunning)
             case RtCreate(_, _) => !ok
             case RtDestroy => !ok && live
             case RtDestroyOld(_, _) => !ok && live
             case _ => false
    ensures var refused := Apply(s, Advance(key, ok, false));
            var marked := Apply(refused, Advance(key, true, false));
            && refused.rows == s.rows && refused.conts == s.conts
            && key !in marked.locks && marked.conts == s.conts
            && marked.rows == s.rows[key := s.locks[key].sb.(state := Error)]
  {
    var refused := Apply(s, Advance(key, ok, false));
    assert refused == s.(locks := s.locks[key := Holder(MarkError(false), s.locks[key].sb)]);
  }

  // ---------------------------------------------------------------- which rows can be destroyed

  /** A row in `destroying` whose lock is free, or held by an operation that will not change that. */
  ghost predicate Doomed(s: System, key: nat) {
    && key in s.rows && s.rows[key].state == Destroying
    && (key in s.locks ==>
          s.locks[key].pc.Get? || (s.locks[key].pc == Store && s.locks[key].sb.state == Destroying))
  }

  lemma {:induction false} StepKeepsDoomed(s: System, step: Step, key: nat)
    requires Doomed(s, key)
    ensures Doomed(Apply(s, step), key)
  {
    hide MergedContainers;
    if step.Advance? && step.key in s.locks {
      if step.key == key {
        var h := s.locks[key];
        DoomedCall(s.rows[key], h, ContainerOf(s.conts, h.sb), s.next, step.ok, step.done);
      }
      hide Call;
    }
  }

  /** No operation gets past its check, and a fork's second section keeps the state. */
  lemma {:induction false} DoomedCall(
      row: Row, h: Holder, cont: Option<ContainerState>, n: nat, ok: bool, done: bool)
    requires row.state == Destroying && (h.pc.Get? || (h.pc == Store && h.sb.state == Destroying))
    ensures var e := Call(Some(row), h, cont, n, ok, done);
            && e.cont == NoChange && (e.write.Some? ==> e.write.value.state == Destroying)
            && (e.holder.Some? ==> e.holder.value.pc == Store && e.holder.value.sb.state == Destroying)
  {
  }

  /** A row at rest in `destroying` never leaves it, whatever is tried. */
  lemma {:induction false} DestroyingNeverLeaves(s: System, key: nat, more: seq<Step>)
    requires Doomed(s, key)
    ensures Doomed(Run(s, more), key)
    decreases |more|
  {
    hide Apply, Doomed;
    if more != [] {
      DestroyingNeverLeaves(s, key, more[..|more| - 1]);
      StepKeepsDoomed(Run(s, more[..|more| - 1]), more[|more| - 1], key);
    }
  }

  /** One call of a lock holder, as it shows in its own row and lock. */
  lemma {:induction false} AdvanceShows(s: System, key: nat)
    requires key in s.locks
    ensures var s' := Apply(s, Advance(key, true, false)); var h := s.locks[key];
            var e := Call(Stored(s, key), h, ContainerOf(s.conts, h.sb), s.next, true, false);
            && Stored(s', key) == (if e.write.Some? then e.write else Stored(s, key))
            && HolderOf(s', key) == e.holder
  {
    hide Call, MergedContainers;
  }

  lemma {:induction false} IdleAdvance(s: System, key: nat)
    requires key !in s.locks
    ensures Apply(s, Advance(key, true, false)) == s
  {
  }

  /** A destroy in which nothing fails ends in `destroyed`. */
  lemma {:induction false} DestroyCompletes(s: System, key: nat)
    requires key in s.rows && key !in s.locks && CanTransition(s.rows[key].state, Destroying)
    ensures var ok := Advance(key, true, false);
            var s' := Apply(Apply(Apply(Apply(Apply(s, Begin(key, Destroy)), ok), ok), ok), ok);
            key in s'.rows && s'.rows[key].state == Destroyed
  {
    var ok := Advance(key, true, false);
    var a := Apply(s, Begin(key, Destroy));
    assert a.locks[key] == Holder(Get(Destroy), s.rows[key]) && a.rows == s.rows;
    hide Apply;
    AdvanceShows(a, key);
    var b := Apply(a, ok);
    var doomed := s.rows[key].(state := Destroying);
    assert HolderOf(b, key) == Some(Holder(StoreDestroying, doomed));
    AdvanceShows(b, key);
    var c := Apply(b, ok);
    var closing := Holder(Store, doomed.(state := Destroyed));
    assert HolderOf(c, key) in {Some(Holder(RtDestroy, doomed)), Some(closing)};
    AdvanceShows(c, key);
    var d := Apply(c, ok);
    if c.locks[key].pc == RtDestroy {
      assert HolderOf(d, key) == Some(closing);
      AdvanceShows(d, key);
    } else {
      IdleAdvance(d, key);
    }
  }

  /** A start on a row in `creating` gets it out of there: to running if it has a container, else to
      error, which is what a start of nothing comes to. */
  lemma {:induction false} StartLeavesCreating(s: System, key: nat)
    requires key in s.rows && key !in s.locks && s.rows[key].state == Creating
    ensures var ok := Advance(key, true, false);
            var s' := Apply(Apply(Apply(Apply(s, Begin(key, Start)), ok), ok), ok);
            && key in s'.rows && key !in s'.locks && (s'.rows[key].state == Running || s'.rows[key].state == Error)
            && (s.rows[key].runtimeId == None ==> s'.rows[key].state == Error)
  {
    var ok := Advance(key, true, false);
    var a := Apply(s, Begin(key, Start));
    assert a.locks[key] == Holder(Get(Start), s.rows[key]) && a.rows == s.rows;
    hide Apply;
    AdvanceShows(a, key);
    var b := Apply(a, ok);
    assert HolderOf(b, key) == Some(Holder(Act(Running), s.rows[key]));
    AdvanceShows(b, key);
    var c := Apply(b, ok);
    AdvanceShows(c, key);
  }

  ghost predicate Ends(s: System, key: nat, more: seq<Step>) {
    key in Run(s, more).rows && Run(s, more).rows[key].state == Destroyed
  }

  /** The way to `destroyed` from any other state at rest. */
  lemma {:induction false} WayToDestroyed(s: System, key: nat) returns (more: seq<Step>)
    requires key in s.rows && key !in s.locks && s.rows[key].state != Destroying
    ensures Ends(s, key, more)
  {
    hide Apply;
    var ok := Advance(key, true, false);
    if s.rows[key].state == Destroyed {
      more := [];
    } else if s.rows[key].state == Creating {
      RunFew(s, Begin(key, Start), ok, ok, ok);
      StartLeavesCreating(s, key);
      var up := [Begin(key, Start), ok, ok, ok];
      var rest := WayFromOperable(Run(s, up), key);
      more := up + rest;
      RunSplit(s, up, rest);
    } else {
      more := WayFromOperable(s, key);
    }
  }

  lemma {:induction false} WayFromOperable(s: System, key: nat) returns (more: seq<Step>)
    requires key in s.rows && key !in s.locks && CanTransition(s.rows[key].state, Destroying)
    ensures Ends(s, key, more)
  {
    hide Apply;
    var ok := Advance(key, true, false);
    RunFew(s, Begin(key, Destroy), ok, ok, ok);
    RunSnoc(s, [Begin(key, Destroy), ok, ok, ok], ok);
    DestroyCompletes(s, key);
    more := [Begin(key, Destroy), ok, ok, ok] + [ok];
  }

  /** The exact condition, in every reachable state: a sandbox that nobody is operating on can still
      be destroyed if and only if its row is not in `destroying`. */
  lemma {:induction false} DestroyableExactly(steps: seq<Step>, key: nat)
    requires key in Run(EMPTY, steps).rows && key !in Run(EMPTY, steps).locks
    ensures (exists more :: Ends(Run(EMPTY, steps), key, more)) <==> Run(EMPTY, steps).rows[key].state != Destroying
  {
    hide Apply, Run;
    var s := Run(EMPTY, steps);
    if s.rows[key].state != Destroying {
      var more := WayToDestroyed(s, key);
      assert Ends(s, key, more);
    } else {
      forall more ensures !Ends(s, key, more) {
        DestroyingNeverLeaves(s, key, more);
      }
    }
  }

  /** Its container, if it still had one, lives on for ever too. */
  lemma {:induction false} DoomedContainerLives(s: System, key: nat, id: nat, more: seq<Step>)
    requires Owned(s) && Doomed(s, key) && id in LiveOf(s, key)
    ensures Owned(Run(s, more)) && Doomed(Run(s, more), key) && id in LiveOf(Run(s, more), key)
    decreases |more|
  {
    hide Apply, Doomed, Owned, LiveOf;
    if more != [] {
      var init := more[..|more| - 1];
      DoomedContainerLives(s, key, id, init);
      StepKeepsOwned(Run(s, init), more[|more| - 1]);
      StepKeepsDoomed(Run(s, init), more[|more| - 1], key);
      StepKeepsDoomedContainer(Run(s, init), more[|more| - 1], key);
    }
  }

  lemma {:induction false} StepKeepsDoomedContainer(s: System, step: Step, key: nat)
    requires Owned(s) && Doomed(s, key)
    ensures LiveOf(Apply(s, step), key) == LiveOf(s, key)
  {
    hide Owned, LiveOf, OwnOf, Merged, EffectOf;
    if step.Advance? {
      if step.key in s.locks {
        ContainersAfterCall(s, step.key, step.ok, step.done, key);
        if step.key == key { DoomedEffect(s, key, step.ok, step.done); }
      }
    } else {
      SameContainers(s, step, key);
    }
  }

  lemma {:induction false} DoomedEffect(s: System, key: nat, ok: bool, done: bool)
    requires Doomed(s, key) && key in s.locks
    ensures LiveAfter(LiveOf(s, key), s.locks[key].sb, EffectOf(s, key, ok, done).cont, s.next) == LiveOf(s, key)
  {
    hide LiveOf, Call;
    var h := s.locks[key];
    DoomedCall(s.rows[key], h, ContainerOf(s.conts, h.sb), s.next, ok, done);
  }

  /** A creation whose client goes away leaves a row in `creating`: a destroy is refused there, while
      a start takes it to error and so within reach of one. */
  lemma {:induction false} LostErrorLeavesCreating()
    ensures var s := Run(EMPTY, [BeginCreate(0, IMAGE), OK, FAILS, FAILS]);
            && s == System(map[0 := NEW_ROW], map[], map[], 0) && Apply(Apply(s, Begin(0, Destroy)), OK) == s
            && Apply(Apply(Apply(Apply(s, Begin(0, Start)), OK), OK), OK).rows[0].state == Error
  {
    hide Apply;
    RunFew(EMPTY, BeginCreate(0, IMAGE), OK, FAILS, FAILS);
    hide Run;
    LeftInCreating();
    StartLeavesCreating(System(map[0 := NEW_ROW], map[], map[], 0), 0);
  }

  lemma {:induction false} LeftInCreating()
    ensures var s := Apply(Apply(Apply(Apply(EMPTY, BeginCreate(0, IMAGE)), OK), FAILS), FAILS);
            s == System(map[0 := NEW_ROW], map[], map[], 0) && Apply(Apply(s, Begin(0, Destroy)), OK) == s
  {
    hide Live;
    RowInserted();
    var b := System(map[0 := NEW_ROW], map[0 := Holder(RtCreate(IMAGE, None), NEW_ROW)], map[], 0);
    var c := Apply(b, FAILS);
    assert c == b.(locks := map[0 := Holder(MarkError(false), NEW_ROW)]);
    var d := Apply(c, FAILS);
    assert d == System(map[0 := NEW_ROW], map[], map[], 0);
    DestroyRefused(d);
  }

  lemma {:induction false} DestroyRefused(s: System)
    requires s.locks == map[] && 0 in s.rows && !CanTransition(s.rows[0].state, Destroying)
    ensures Apply(Apply(s, Begin(0, Destroy)), OK) == s
  {
    hide Live;
  }

  /** A destroy that the daemon does not survive: whatever happens afterwards, the row stays in
      `destroying` and its container lives. */
  lemma {:induction false} CrashedDestroyIsStuck(more: seq<Step>)
    ensures var s := Run(EMPTY, CREATED + [OK] + [Begin(0, Destroy), OK, OK, Crash] + more);
            0 in s.rows && s.rows[0].state == Destroying && Live(s.conts, 0)
  {
    hide Apply;
    var doomed := CREATED + [OK] + [Begin(0, Destroy), OK, OK, Crash];
    AfterReady();
    RunFew(READY, Begin(0, Destroy), OK, OK, Crash);
    RunSplit(EMPTY, CREATED + [OK], [Begin(0, Destroy), OK, OK, Crash]);
    RunSplit(EMPTY, doomed, more);
    RunKeepsOwned(doomed);
    hide Run, Owned;
    LeftInDestroying();
    DoomedContainerLives(Run(EMPTY, doomed), 0, 0, more);
  }

  lemma {:induction false} LeftInDestroying()
    ensures var s := Apply(Apply(Apply(Apply(READY, Begin(0, Destroy)), OK), OK), Crash);
            Doomed(s, 0) && 0 in LiveOf(s, 0)
  {
    var doomed := READY_ROW.(state := Destroying);
    var b := Apply(Apply(READY, Begin(0, Destroy)), OK);
    assert b == READY.(locks := map[0 := Holder(StoreDestroying, doomed)]);
    var d := Apply(Apply(b, OK), Crash);
    assert d == READY.(rows := map[0 := doomed]);
  }
}
