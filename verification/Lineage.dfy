/** The runtime the services are written against (internal/runtime/fake/fake.go), with the Docker
    adapter's rule that a container needs its image (internal/runtime/docker/docker.go). */
module FakeRuntime {
  import opened Wrappers
  import opened SandboxStates

  /** images are those committed on this host; next numbers containers and commits. */
  datatype Rt = Rt(conts: map<nat, Container>, images: set<ImageRef>, next: nat)

  datatype DeleteResult = Deleted | ImageNotFound | Refused

  /** made: the call reports a failure but the container was made all the same. */
  ghost function AfterCreate(rt: Rt, sandbox: nat, image: ImageRef, fails: bool, made: bool): (Rt, Option<nat>) {
    if (image.Commit? && image !in rt.images) || (fails && !made) then (rt, None)
    else
      (rt.(conts := rt.conts[rt.next := Container(sandbox, image, CStopped)], next := rt.next + 1),
       if fails then None else Some(rt.next))
  }

  ghost function AfterTransition(rt: Rt, id: nat, state: ContainerState, fails: bool): (Rt, bool) {
    if fails || !Live(rt.conts, id) then (rt, false)
    else (rt.(conts := rt.conts[id := rt.conts[id].(state := state)]), true)
  }

  /** removed: the call reports a failure but the container went all the same. */
  ghost function AfterDestroy(rt: Rt, id: nat, fails: bool, removed: bool): (Rt, bool) {
    if !Live(rt.conts, id) then (rt, true)
    else (if fails && !removed then rt else rt.(conts := rt.conts[id := rt.conts[id].(state := CGone)]), !fails)
  }

  ghost function AfterCommit(rt: Rt, id: nat, fails: bool): (Rt, Option<ImageRef>) {
    if !Live(rt.conts, id) || fails then (rt, None)
    else (rt.(images := rt.images + {Commit(rt.next)}, next := rt.next + 1), Some(Commit(rt.next)))
  }

  ghost predicate InUse(rt: Rt, image: ImageRef) {
    exists id :: Live(rt.conts, id) && rt.conts[id].image == image
  }

  ghost function AfterImageDelete(rt: Rt, image: ImageRef, fails: bool): (Rt, DeleteResult) {
    if fails then (rt, Refused)
    else if image !in rt.images then (rt, ImageNotFound)
    else if InUse(rt, image) then (rt, Refused)
    else (rt.(images := rt.images - {image}), Deleted)
  }

  class Fake {
    var conts: map<nat, Container>
    var images: set<ImageRef>
    var next: nat

    ghost function State(): Rt reads this { Rt(conts, images, next) }

    constructor ()
      ensures State() == Rt(map[], {}, 0)
    {
      conts, images, next := map[], {}, 0;
    }

    method Create(sandbox: nat, image: ImageRef, fails: bool, made: bool) returns (id: Option<nat>)
      modifies this
      ensures (State(), id) == AfterCreate(old(State()), sandbox, image, fails, made)
    {
      if (image.Commit? && image !in images) || (fails && !made) {
        return None;
      }
      id := if fails then None else Some(next);
      conts, next := conts[next := Container(sandbox, image, CStopped)], next + 1;
    }

    /** Start, Stop: a container that is missing or gone is not found. */
    method Transition(id: nat, state: ContainerState, fails: bool) returns (ok: bool)
      modifies this
      ensures (State(), ok) == AfterTransition(old(State()), id, state, fails)
    {
      if fails || id !in conts || conts[id].state == CGone {
        return false;
      }
      conts := conts[id := conts[id].(state := state)];
      return true;
    }

    method Destroy(id: nat, fails: bool, removed: bool) returns (ok: bool)
      modifies this
      ensures (State(), ok) == AfterDestroy(old(State()), id, fails, removed)
    {
      if id !in conts || conts[id].state == CGone {
        return true;
      }
      if !fails || removed {
        conts := conts[id := conts[id].(state := CGone)];
      }
      return !fails;
    }

    method Inspect(id: nat) returns (state: ContainerState)
      ensures state == if id in conts then conts[id].state else CGone
    {
      state := if id in conts then conts[id].state else CGone;
    }

    /** Snapshot: pauses a running container around the commit and restores it. */
    method Snapshot(id: nat, fails: bool) returns (image: Option<ImageRef>)
      modifies this
      ensures (State(), image) == AfterCommit(old(State()), id, fails)
    {
      if id !in conts || conts[id].state == CGone {
        return None;
      }
      var restore := conts[id].state;
      if restore == CRunning {
        conts := conts[id := conts[id].(state := CPaused)];
      }
      if fails {
        image := None;
      } else {
        image := Some(Commit(next));
        images, next := images + {Commit(next)}, next + 1;
      }
      conts := conts[id := conts[id].(state := restore)];
      assert conts == old(conts);
    }

    /** DeleteSnapshot: refuses while any container that is not gone was made from the image. */
    method DeleteSnapshot(image: ImageRef, fails: bool) returns (r: DeleteResult)
      modifies this
      ensures (State(), r) == AfterImageDelete(old(State()), image, fails)
    {
      if fails {
        return Refused;
      }
      if image !in images {
        return ImageNotFound;
      }
      var todo := conts.Keys;
      while todo != {}
        invariant todo <= conts.Keys && State() == old(State())
        invariant forall id :: id in conts.Keys - todo ==> conts[id].image != image || conts[id].state == CGone
        decreases |todo|
      {
        var id :| id in todo;
        if conts[id].image == image && conts[id].state != CGone {
          assert Live(conts, id);
          return Refused;
        }
        todo := todo - {id};
      }
      images := images - {image};
      return Deleted;
    }
  }
}

/** Whole calls of the sandbox and snapshot services, one after the other
    (internal/sandbox/service.go, internal/snapshot/service.go), with any of the runtime's calls
    and the repositories' writes failing. */
module Lineage {
  import opened Wrappers
  import opened SandboxStates
  import F = FakeRuntime

  datatype Snapshot = Snapshot(parent: Option<nat>, image: ImageRef, sandbox: nat)

  /** The three stores: sandbox rows, snapshot rows, and the runtime. */
  datatype Store = Store(rows: map<nat, Row>, rt: F.Rt)

  datatype World = World(sb: Store, snaps: map<nat, Snapshot>)

  /** Which of a call's steps fail. exits: the container stops right after it was started. */
  datatype Faults = Faults(
    insert: bool, create: bool, made: bool, start: bool, exits: bool, inspect: bool, update: bool, mark: bool,
    announce: bool, destroy: bool, removed: bool, setParent: bool, commit: bool, rollback: bool,
    deleteImage: bool, deleteRow: bool)


  // ---------------------------------------------------------------- what each call does

  ghost function Stored(w: Store, key: nat, row: Row, fails: bool): Store {
    if fails then w else w.(rows := w.rows[key := row])
  }

  ghost function MarkedError(w: Store, key: nat, sb: Row, f: Faults): Store {
    Stored(w, key, sb.(state := Error), f.mark)
  }

  /** Start a container and look whether it runs. */
  ghost function Booted(rt: F.Rt, id: nat, f: Faults): (F.Rt, bool) {
    var (rt', started) := F.AfterTransition(rt, id, if f.exits then CStopped else CRunning, f.start);
    (rt', started && !f.inspect && !f.exits)
  }

  /** Create a container from an image, start it, check it runs, record it. */
  ghost function Launched(w: Store, key: nat, sb: Row, image: ImageRef, parent: Option<nat>, f: Faults): Store {
    var (rt, id) := F.AfterCreate(w.rt, key, image, f.create, f.made);
    if id.None? then MarkedError(w.(rt := rt), key, sb, f)
    else
      var (rt', running) := Booted(rt, id.value, f);
      Recorded(w.(rt := rt'), key, sb.(runtimeId := id), running, parent, f)
  }

  /** The row's last write: running, with the parent if there is one, or the error. */
  ghost function Recorded(w: Store, key: nat, made: Row, running: bool, parent: Option<nat>, f: Faults): Store {
    if !running then MarkedError(w, key, made, f)
    else Stored(w, key, made.(state := Running, parent := if parent.Some? then parent else made.parent), f.update)
  }

  ghost function CreateCall(w: Store, key: nat, image: ImageRef, f: Faults): Store {
    var sb := Row(Creating, None, None, image);
    if key in w.rows || f.insert then w
    else Launched(w.(rows := w.rows[key := sb]), key, sb, image, None, f)
  }

  ghost function TransitionCall(w: Store, key: nat, target: State, f: Faults): Store {
    if key !in w.rows || !CanTransition(w.rows[key].state, target) then w
    else
      var sb := w.rows[key];
      if sb.runtimeId.None? then MarkedError(w, key, sb, f)
      else
        var to := if target == Running then CRunning else CStopped;
        var (rt, ok) := F.AfterTransition(w.rt, sb.runtimeId.value, to, f.start);
        if ok then Stored(w.(rt := rt), key, sb.(state := target), f.update) else MarkedError(w, key, sb, f)
  }

  /** rt.Destroy of a row's container, if it has one. */
  ghost function Dropped(rt: F.Rt, sb: Row, f: Faults): (F.Rt, bool) {
    if sb.runtimeId.Some? then F.AfterDestroy(rt, sb.runtimeId.value, f.destroy, f.removed) else (rt, true)
  }

  ghost function DestroyCall(w: Store, key: nat, f: Faults): Store {
    if key !in w.rows || !CanTransition(w.rows[key].state, Destroying) || f.announce then w
    else
      var sb := w.rows[key].(state := Destroying);
      var (rt, ok) := Dropped(w.rt, sb, f);
      var announced := Store(w.rows[key := sb], rt);
      if ok then Stored(announced, key, sb.(state := Destroyed), f.update) else MarkedError(announced, key, sb, f)
  }

  ghost function RestoreCall(w: World, key: nat, snapshot: nat, f: Faults): World {
    if snapshot !in w.snaps || key !in w.sb.rows || !Operable(w.sb.rows[key].state) then w
    else
      var sb := w.sb.rows[key];
      var (rt, ok) := Dropped(w.sb.rt, sb, f);
      var dropped := w.sb.(rt := rt);
      w.(sb := if ok then Launched(dropped, key, sb, w.snaps[snapshot].image, Some(snapshot), f)
               else MarkedError(dropped, key, sb, f))
  }

  ghost function ForkCall(w: World, key: nat, snapshot: nat, f: Faults): World {
    if snapshot !in w.snaps || key in w.sb.rows then w
    else
      var created := CreateCall(w.sb, key, w.snaps[snapshot].image, f);
      w.(sb := if key in created.rows && created.rows[key].state == Running
               then Stored(created, key, created.rows[key].(parent := Some(snapshot)), f.setParent)
               else created)
  }

  /** The image exists before the row; a failed insert rolls the image back. */
  ghost function SnapshotCreateCall(w: World, key: nat, id: nat, f: Faults): World {
    if key !in w.sb.rows || !Operable(w.sb.rows[key].state) || w.sb.rows[key].runtimeId.None? || id in w.snaps then w
    else
      var sb := w.sb.rows[key];
      var (rt, image) := F.AfterCommit(w.sb.rt, sb.runtimeId.value, f.commit);
      if image.None? then w.(sb := w.sb.(rt := rt))
      else if f.insert then w.(sb := w.sb.(rt := F.AfterImageDelete(rt, image.value, f.rollback).0))
      else World(w.sb.(rt := rt), w.snaps[id := Snapshot(sb.parent, image.value, key)])
  }

  ghost predicate HasChildren(snaps: map<nat, Snapshot>, id: nat) {
    exists child :: child in snaps && snaps[child].parent == Some(id)
  }

  ghost function SnapshotDeleteCall(w: World, id: nat, f: Faults): World {
    if id !in w.snaps || HasChildren(w.snaps, id) then w
    else
      var (rt, r) := F.AfterImageDelete(w.sb.rt, w.snaps[id].image, f.deleteImage);
      if r == F.Refused then w
      else World(w.sb.(rt := rt), if f.deleteRow then w.snaps else w.snaps - {id})
  }

  // ---------------------------------------------------------------- the services

  class Sandboxes {
    var rows: map<nat, Row>
    const rt: F.Fake

    ghost function State(): Store reads this, rt { Store(rows, rt.State()) }

    constructor (rt: F.Fake)
      ensures rows == map[] && this.rt == rt
    {
      rows, this.rt := map[], rt;
    }

    method Update(key: nat, row: Row, fails: bool)
      modifies this
      ensures rows == if fails then old(rows) else old(rows)[key := row]
    {
      if !fails {
        rows := rows[key := row];
      }
    }

    method Launch(key: nat, sb: Row, image: ImageRef, parent: Option<nat>, f: Faults)
      modifies this, rt
      ensures State() == Launched(old(State()), key, sb, image, parent, f)
    {
      hide F.AfterCreate, Booted, MarkedError, Recorded;
      var id := rt.Create(key, image, f.create, f.made);
      if id.None? {
        MarkError(key, sb, f);
        return;
      }
      var running := Boot(id.value, f);
      Record(key, sb.(runtimeId := id), running, parent, f);
    }

    method Record(key: nat, made: Row, running: bool, parent: Option<nat>, f: Faults)
      modifies this
      ensures State() == Recorded(old(State()), key, made, running, parent, f)
    {
      if !running {
        MarkError(key, made, f);
        return;
      }
      Update(key, made.(state := Running, parent := if parent.Some? then parent else made.parent), f.update);
    }

    method MarkError(key: nat, sb: Row, f: Faults)
      modifies this
      ensures State() == MarkedError(old(State()), key, sb, f)
    {
      Update(key, sb.(state := Error), f.mark);
    }

    method Boot(id: nat, f: Faults) returns (running: bool)
      modifies rt
      ensures (rt.State(), running) == Booted(old(rt.State()), id, f)
    {
      var started := rt.Transition(id, if f.exits then CStopped else CRunning, f.start);
      if !started {
        return false;
      }
      var status := rt.Inspect(id);
      return !f.inspect && status == CRunning;
    }

    method Create(key: nat, image: ImageRef, f: Faults)
      modifies this, rt
      ensures State() == CreateCall(old(State()), key, image, f)
    {
      if key in rows || f.insert {
        return;
      }
      var sb := Row(Creating, None, None, image);
      rows := rows[key := sb];
      Launch(key, sb, image, None, f);
    }

    /** Start and Stop. */
    method Transition(key: nat, target: State, f: Faults)
      requires target == Running || target == Stopped
      modifies this, rt
      ensures State() == TransitionCall(old(State()), key, target, f)
    {
      if key !in rows || !CanTransition(rows[key].state, target) {
        return;
      }
      var sb := rows[key];
      var ok := false;
      if sb.runtimeId.Some? {
        ok := rt.Transition(sb.runtimeId.value, if target == Running then CRunning else CStopped, f.start);
      }
      if ok {
        Update(key, sb.(state := target), f.update);
      } else {
        MarkError(key, sb, f);
      }
    }

    method Destroy(key: nat, f: Faults)
      modifies this, rt
      ensures State() == DestroyCall(old(State()), key, f)
    {
      if key !in rows || !CanTransition(rows[key].state, Destroying) || f.announce {
        return;
      }
      var sb := rows[key].(state := Destroying);
      rows := rows[key := sb];
      var ok := true;
      if sb.runtimeId.Some? {
        ok := rt.Destroy(sb.runtimeId.value, f.destroy, f.removed);
      }
      if ok {
        Update(key, sb.(state := Destroyed), f.update);
      } else {
        MarkError(key, sb, f);
      }
    }
  }

  class Snapshots {
    var snaps: map<nat, Snapshot>
    const sandboxes: Sandboxes
    const rt: F.Fake

    ghost predicate Valid() { rt == sandboxes.rt }

    ghost function State(): World reads this, sandboxes, sandboxes.rt { World(sandboxes.State(), snaps) }

    constructor (sandboxes: Sandboxes)
      ensures snaps == map[] && this.sandboxes == sandboxes && Valid()
    {
      snaps, this.sandboxes, rt := map[], sandboxes, sandboxes.rt;
    }

    /** sandbox.Service.Restore, which resolves the snapshot through this service. */
    method Restore(key: nat, snapshot: nat, f: Faults)
      requires Valid()
      modifies sandboxes, rt
      ensures State() == RestoreCall(old(State()), key, snapshot, f)
    {
      if snapshot !in snaps || key !in sandboxes.rows || !Operable(sandboxes.rows[key].state) {
        return;
      }
      var sb := sandboxes.rows[key];
      if sb.runtimeId.Some? {
        var ok := rt.Destroy(sb.runtimeId.value, f.destroy, f.removed);
        if !ok {
          sandboxes.MarkError(key, sb, f);
          return;
        }
      }
      sandboxes.Launch(key, sb, snaps[snapshot].image, Some(snapshot), f);
    }

    /** sandbox.Service.Fork: Create, then a second section on the row it re-reads. */
    method Fork(key: nat, snapshot: nat, f: Faults)
      requires Valid()
      modifies sandboxes, rt
      ensures State() == ForkCall(old(State()), key, snapshot, f)
    {
      if snapshot !in snaps || key in sandboxes.rows {
        return;
      }
      sandboxes.Create(key, snaps[snapshot].image, f);
      if key in sandboxes.rows && sandboxes.rows[key].state == Running {
        var current := sandboxes.rows[key];
        sandboxes.Update(key, current.(parent := Some(snapshot)), f.setParent);
      }
    }

    method Create(key: nat, id: nat, f: Faults)
      requires Valid()
      modifies this, rt
      ensures State() == SnapshotCreateCall(old(State()), key, id, f)
    {
      if key !in sandboxes.rows || !Operable(sandboxes.rows[key].state) || id in snaps {
        return;
      }
      var sb := sandboxes.rows[key];
      if sb.runtimeId.None? {
        return;
      }
      var image := rt.Snapshot(sb.runtimeId.value, f.commit);
      if image.None? {
        return;
      }
      if f.insert {
        var _ := rt.DeleteSnapshot(image.value, f.rollback);
        return;
      }
      snaps := snaps[id := Snapshot(sb.parent, image.value, key)];
    }

    method CountChildren(id: nat) returns (n: nat)
      ensures n > 0 <==> HasChildren(snaps, id)
    {
      var todo := snaps.Keys;
      n := 0;
      while todo != {}
        invariant todo <= snaps.Keys
        invariant n > 0 <==> exists child :: child in snaps.Keys - todo && snaps[child].parent == Some(id)
        decreases |todo|
      {
        var child :| child in todo;
        if snaps[child].parent == Some(id) {
          n := n + 1;
        }
        ghost var before := todo;
        todo := todo - {child};
        assert snaps.Keys - todo == (snaps.Keys - before) + {child};
      }
    }

    method Delete(id: nat, f: Faults)
      requires Valid()
      modifies this, rt
      ensures State() == SnapshotDeleteCall(old(State()), id, f)
    {
      if id !in snaps {
        return;
      }
      var children := CountChildren(id);
      if children > 0 {
        return;
      }
      var r := rt.DeleteSnapshot(snaps[id].image, f.deleteImage);
      if r == F.Refused {
        return;
      }
      if !f.deleteRow {
        snaps := snaps - {id};
      }
    }
  }

  // ---------------------------------------------------------------- the invariant

  /** The chain of parents from a snapshot reaches one without a parent within n steps. */
  ghost predicate Rooted(snaps: map<nat, Snapshot>, id: nat, n: nat)
    decreases n
  {
    id in snaps && (snaps[id].parent.Some? ==> n > 0 && Rooted(snaps, snaps[id].parent.value, n - 1))
  }

  ghost predicate AllRooted(snaps: map<nat, Snapshot>) {
    forall id :: id in snaps ==> exists n :: Rooted(snaps, id, n)
  }

  ghost predicate Old(image: ImageRef, next: nat) {
    image.Commit? ==> image.n < next
  }

  /** Numbers are used once, and a snapshot whose image is missing has no container left. */
  ghost predicate ImagesOk(rt: F.Rt, snaps: map<nat, Snapshot>) {
    && (forall c :: c in rt.conts ==> c < rt.next && Old(rt.conts[c].image, rt.next))
    && (forall i :: i in rt.images ==> i.Commit? && Old(i, rt.next))
    && (forall id :: id in snaps ==> snaps[id].image.Commit? && Old(snaps[id].image, rt.next))
    && (forall a, b :: a in snaps && b in snaps && a != b ==> snaps[a].image != snaps[b].image)
    && (forall id :: id in snaps && snaps[id].image !in rt.images ==> !F.InUse(rt, snaps[id].image))
  }

  /** A running or stopped row with a parent, while its container lives, lives on the parent's image. */
  ghost predicate RowOk(row: Row, rt: F.Rt, snaps: map<nat, Snapshot>) {
    row.runtimeId.Some? ==>
      && row.state != Creating
      && row.runtimeId.value in rt.conts
      && (Operable(row.state) && row.parent.Some? && Live(rt.conts, row.runtimeId.value) ==>
            row.parent.value in snaps && rt.conts[row.runtimeId.value].image == snaps[row.parent.value].image)
  }

  ghost predicate RowsOk(w: Store, snaps: map<nat, Snapshot>) {
    forall key :: key in w.rows ==> RowOk(w.rows[key], w.rt, snaps)
  }

  ghost predicate Inv(w: World) {
    AllRooted(w.snaps) && ImagesOk(w.sb.rt, w.snaps) && RowsOk(w.sb, w.snaps)
  }

  // ---------------------------------------------------------------- what runtime calls keep

  /** Containers keep their image and never come back. */
  ghost predicate Evolves(rt: F.Rt, rt': F.Rt) {
    forall c :: c in rt.conts ==>
      c in rt'.conts && rt'.conts[c].image == rt.conts[c].image && (Live(rt'.conts, c) ==> Live(rt.conts, c))
  }

  lemma {:induction false} RowsSurvive(w: Store, rt: F.Rt, snaps: map<nat, Snapshot>)
    requires RowsOk(w, snaps) && Evolves(w.rt, rt)
    ensures RowsOk(w.(rt := rt), snaps)
  {
    forall key | key in w.rows ensures RowOk(w.rows[key], rt, snaps) {
      assert RowOk(w.rows[key], w.rt, snaps);
    }
  }

  lemma {:induction false} StoredKeepsRows(w: Store, key: nat, row: Row, fails: bool, snaps: map<nat, Snapshot>)
    requires RowsOk(w, snaps) && RowOk(row, w.rt, snaps)
    ensures RowsOk(Stored(w, key, row, fails), snaps)
  {
    hide RowOk;
  }

  lemma {:induction false} ErrorRowIsOk(row: Row, rt: F.Rt, snaps: map<nat, Snapshot>)
    requires row.runtimeId.Some? ==> row.runtimeId.value in rt.conts
    ensures RowOk(row.(state := Error), rt, snaps)
  {
  }

  /** Calls that only change containers which exist. */
  lemma {:induction false} ContainersKeepImages(rt: F.Rt, conts: map<nat, Container>, snaps: map<nat, Snapshot>)
    requires ImagesOk(rt, snaps) && conts.Keys == rt.conts.Keys && Evolves(rt, rt.(conts := conts))
    ensures ImagesOk(rt.(conts := conts), snaps)
  {
    var rt' := rt.(conts := conts);
    forall id | id in snaps && snaps[id].image !in rt'.images ensures !F.InUse(rt', snaps[id].image) {
      forall c | Live(rt'.conts, c) ensures rt'.conts[c].image != snaps[id].image {
        assert Live(rt.conts, c) && !F.InUse(rt, snaps[id].image);
      }
    }
  }

  lemma {:induction false} AfterCreateKeeps(
      rt: F.Rt, key: nat, image: ImageRef, fails: bool, made: bool, snaps: map<nat, Snapshot>)
    requires ImagesOk(rt, snaps)
    ensures var (rt', id) := F.AfterCreate(rt, key, image, fails, made);
            && ImagesOk(rt', snaps) && Evolves(rt, rt')
            && (id.Some? ==> id.value in rt'.conts && rt'.conts[id.value].image == image)
  {
    var rt' := F.AfterCreate(rt, key, image, fails, made).0;
    forall id | id in snaps && snaps[id].image !in rt'.images ensures !F.InUse(rt', snaps[id].image) {
      forall c | Live(rt'.conts, c) ensures rt'.conts[c].image != snaps[id].image {
        if c in rt.conts && c != rt.next { assert Live(rt.conts, c) && !F.InUse(rt, snaps[id].image); }
      }
    }
  }

  lemma {:induction false} AfterTransitionKeeps(
      rt: F.Rt, id: nat, state: ContainerState, fails: bool, snaps: map<nat, Snapshot>)
    requires ImagesOk(rt, snaps)
    ensures var rt' := F.AfterTransition(rt, id, state, fails).0;
            ImagesOk(rt', snaps) && Evolves(rt, rt') && rt'.conts.Keys == rt.conts.Keys
  {
    var rt' := F.AfterTransition(rt, id, state, fails).0;
    hide ImagesOk;
    ContainersKeepImages(rt, rt'.conts, snaps);
    assert rt' == rt.(conts := rt'.conts);
  }

  lemma {:induction false} DroppedKeeps(rt: F.Rt, sb: Row, f: Faults, snaps: map<nat, Snapshot>)
    requires ImagesOk(rt, snaps)
    ensures var (rt', ok) := Dropped(rt, sb, f);
            && ImagesOk(rt', snaps) && Evolves(rt, rt') && rt'.conts.Keys == rt.conts.Keys
  {
    var rt' := Dropped(rt, sb, f).0;
    hide ImagesOk;
    ContainersKeepImages(rt, rt'.conts, snaps);
    assert rt' == rt.(conts := rt'.conts);
  }

  // ---------------------------------------------------------------- each call keeps it

  /** The store's part of the invariant. */
  ghost predicate StoreOk(w: Store, snaps: map<nat, Snapshot>) {
    ImagesOk(w.rt, snaps) && RowsOk(w, snaps)
  }

  lemma {:induction false} MarkedKeeps(w: Store, key: nat, sb: Row, f: Faults, snaps: map<nat, Snapshot>)
    requires StoreOk(w, snaps) && (sb.runtimeId.Some? ==> sb.runtimeId.value in w.rt.conts)
    ensures StoreOk(MarkedError(w, key, sb, f), snaps)
  {
    hide ImagesOk, RowsOk;
    ErrorRowIsOk(sb, w.rt, snaps);
    StoredKeepsRows(w, key, sb.(state := Error), f.mark, snaps);
  }

  lemma {:induction false} LaunchKeeps(
      w: Store, key: nat, sb: Row, image: ImageRef, parent: Option<nat>, f: Faults, snaps: map<nat, Snapshot>)
    requires StoreOk(w, snaps) && (sb.runtimeId.Some? ==> sb.runtimeId.value in w.rt.conts)
    requires if parent.Some? then parent.value in snaps && image == snaps[parent.value].image else sb.parent.None?
    ensures StoreOk(Launched(w, key, sb, image, parent, f), snaps)
    ensures (key in w.rows ==> w.rows[key].state != Running) ==>
              RunsOn(Launched(w, key, sb, image, parent, f), key, image)
  {
    var (rt, id) := F.AfterCreate(w.rt, key, image, f.create, f.made);
    AfterCreateKeeps(w.rt, key, image, f.create, f.made, snaps);
    RowsSurvive(w, rt, snaps);
    StillThere(w.rt, rt, sb);
    hide ImagesOk, RowsOk, Evolves, F.AfterCreate, Recorded, MarkedError, Booted, RunsOn;
    if id.None? {
      MarkedKeeps(w.(rt := rt), key, sb, f, snaps);
      MarkedIsNotRunning(w.(rt := rt), key, sb, f, image);
    } else {
      BootKeeps(w, rt, id.value, f, snaps);
      RecordedKeeps(w.(rt := Booted(rt, id.value, f).0), key, sb.(runtimeId := id), image, Booted(rt, id.value, f).1,
                    parent, f, snaps);
    }
  }

  /** A row that reads running has a container made from the image. */
  ghost predicate RunsOn(w: Store, key: nat, image: ImageRef) {
    key in w.rows && w.rows[key].state == Running ==>
      w.rows[key].runtimeId.Some? && w.rows[key].runtimeId.value in w.rt.conts &&
      w.rt.conts[w.rows[key].runtimeId.value].image == image
  }

  lemma {:induction false} StillThere(rt: F.Rt, rt': F.Rt, sb: Row)
    requires Evolves(rt, rt') && (sb.runtimeId.Some? ==> sb.runtimeId.value in rt.conts)
    ensures sb.runtimeId.Some? ==> sb.runtimeId.value in rt'.conts
  {
  }

  lemma {:induction false} MarkedIsNotRunning(w: Store, key: nat, sb: Row, f: Faults, image: ImageRef)
    ensures (key in w.rows ==> w.rows[key].state != Running) ==> RunsOn(MarkedError(w, key, sb, f), key, image)
  {
  }

  lemma {:induction false} BootKeeps(w: Store, rt: F.Rt, id: nat, f: Faults, snaps: map<nat, Snapshot>)
    requires ImagesOk(rt, snaps) && RowsOk(w.(rt := rt), snaps) && id in rt.conts
    ensures var rt' := Booted(rt, id, f).0;
            && StoreOk(w.(rt := rt'), snaps) && id in rt'.conts && rt'.conts[id].image == rt.conts[id].image
  {
    hide ImagesOk, RowsOk, Evolves;
    AfterTransitionKeeps(rt, id, if f.exits then CStopped else CRunning, f.start, snaps);
    var rt' := Booted(rt, id, f).0;
    RowsSurvive(w.(rt := rt), rt', snaps);
    ImageKept(rt, rt', id);
  }

  lemma {:induction false} RecordedKeeps(
      w: Store, key: nat, made: Row, image: ImageRef, running: bool, parent: Option<nat>, f: Faults,
      snaps: map<nat, Snapshot>)
    requires StoreOk(w, snaps) && made.runtimeId.Some? && made.runtimeId.value in w.rt.conts
    requires w.rt.conts[made.runtimeId.value].image == image
    requires if parent.Some? then parent.value in snaps && image == snaps[parent.value].image else made.parent.None?
    ensures StoreOk(Recorded(w, key, made, running, parent, f), snaps)
    ensures (key in w.rows ==> w.rows[key].state != Running) ==>
              RunsOn(Recorded(w, key, made, running, parent, f), key, image)
  {
    hide ImagesOk, RowsOk;
    if running {
      var row := made.(state := Running, parent := if parent.Some? then parent else made.parent);
      StoredKeepsRows(w, key, row, f.update, snaps);
    } else {
      MarkedKeeps(w, key, made, f, snaps);
      MarkedIsNotRunning(w, key, made, f, image);
    }
  }

  lemma {:induction false} ImageKept(rt: F.Rt, rt': F.Rt, c: nat)
    requires Evolves(rt, rt') && c in rt.conts
    ensures c in rt'.conts && rt'.conts[c].image == rt.conts[c].image
  {
  }

  lemma {:induction false} CreateKeeps(w: Store, key: nat, image: ImageRef, f: Faults, snaps: map<nat, Snapshot>)
    requires StoreOk(w, snaps) && key !in w.rows
    ensures StoreOk(CreateCall(w, key, image, f), snaps)
    ensures var w' := CreateCall(w, key, image, f);
            key in w'.rows && w'.rows[key].state == Running ==>
              w'.rows[key].runtimeId.Some? && w'.rows[key].runtimeId.value in w'.rt.conts &&
              w'.rt.conts[w'.rows[key].runtimeId.value].image == image
  {
    hide ImagesOk, Launched;
    if !f.insert {
      var sb := Row(Creating, None, None, image);
      StoredKeepsRows(w, key, sb, false, snaps);
      LaunchKeeps(w.(rows := w.rows[key := sb]), key, sb, image, None, f, snaps);
    }
  }

  lemma {:induction false} TransitionKeeps(w: Store, key: nat, target: State, f: Faults, snaps: map<nat, Snapshot>)
    requires StoreOk(w, snaps) && (target == Running || target == Stopped)
    ensures StoreOk(TransitionCall(w, key, target, f), snaps)
  {
    hide ImagesOk, Evolves;
    if key in w.rows && CanTransition(w.rows[key].state, target) {
      var sb := w.rows[key];
      assert RowOk(sb, w.rt, snaps);
      if sb.runtimeId.Some? {
        var to := if target == Running then CRunning else CStopped;
        var (rt, ok) := F.AfterTransition(w.rt, sb.runtimeId.value, to, f.start);
        AfterTransitionKeeps(w.rt, sb.runtimeId.value, to, f.start, snaps);
        RowsSurvive(w, rt, snaps);
        if ok {
          TransitionedRowIsOk(w, sb, target, rt, snaps);
          StoredKeepsRows(w.(rt := rt), key, sb.(state := target), f.update, snaps);
        } else {
          MarkedKeeps(w, key, sb, f, snaps);
        }
      } else {
        MarkedKeeps(w, key, sb, f, snaps);
      }
    }
  }

  lemma {:induction false} TransitionedRowIsOk(w: Store, sb: Row, target: State, rt: F.Rt, snaps: map<nat, Snapshot>)
    requires RowOk(sb, w.rt, snaps) && CanTransition(sb.state, target) && (target == Running || target == Stopped)
    requires Evolves(w.rt, rt) && sb.runtimeId.Some?
    ensures RowOk(sb.(state := target), rt, snaps)
  {
  }

  lemma {:induction false} DestroyKeeps(w: Store, key: nat, f: Faults, snaps: map<nat, Snapshot>)
    requires StoreOk(w, snaps)
    ensures StoreOk(DestroyCall(w, key, f), snaps)
  {
    hide ImagesOk, Dropped, Evolves;
    if key in w.rows && CanTransition(w.rows[key].state, Destroying) && !f.announce {
      var sb := w.rows[key].(state := Destroying);
      assert RowOk(w.rows[key], w.rt, snaps) && RowOk(sb, w.rt, snaps);
      var (rt, ok) := Dropped(w.rt, sb, f);
      DroppedKeeps(w.rt, sb, f, snaps);
      StoredKeepsRows(w, key, sb, false, snaps);
      var announced := Store(w.rows[key := sb], rt);
      RowsSurvive(w.(rows := w.rows[key := sb]), rt, snaps);
      if ok {
        assert RowOk(sb.(state := Destroyed), rt, snaps);
        StoredKeepsRows(announced, key, sb.(state := Destroyed), f.update, snaps);
      } else {
        MarkedKeeps(announced, key, sb, f, snaps);
      }
    }
  }

  lemma {:induction false} RestoreKeeps(w: World, key: nat, snapshot: nat, f: Faults)
    requires Inv(w)
    ensures Inv(RestoreCall(w, key, snapshot, f))
  {
    hide ImagesOk, AllRooted, Dropped, Launched, Evolves;
    if snapshot in w.snaps && key in w.sb.rows && Operable(w.sb.rows[key].state) {
      var sb := w.sb.rows[key];
      assert RowOk(sb, w.sb.rt, w.snaps);
      var (rt, ok) := Dropped(w.sb.rt, sb, f);
      DroppedKeeps(w.sb.rt, sb, f, w.snaps);
      RowsSurvive(w.sb, rt, w.snaps);
      var dropped := w.sb.(rt := rt);
      if ok {
        LaunchKeeps(dropped, key, sb, w.snaps[snapshot].image, Some(snapshot), f, w.snaps);
      } else {
        MarkedKeeps(dropped, key, sb, f, w.snaps);
      }
    }
  }

  lemma {:induction false} ForkKeeps(w: World, key: nat, snapshot: nat, f: Faults)
    requires Inv(w)
    ensures Inv(ForkCall(w, key, snapshot, f))
  {
    hide ImagesOk, AllRooted, CreateCall;
    if snapshot in w.snaps && key !in w.sb.rows {
      CreateKeeps(w.sb, key, w.snaps[snapshot].image, f, w.snaps);
      var created := CreateCall(w.sb, key, w.snaps[snapshot].image, f);
      if key in created.rows && created.rows[key].state == Running {
        var row := created.rows[key].(parent := Some(snapshot));
        assert RowOk(row, created.rt, w.snaps);
        StoredKeepsRows(created, key, row, f.setParent, w.snaps);
      }
    }
  }

  // ---------------------------------------------------------------- snapshot rows come and go

  lemma {:induction false} RootedInExtension(snaps: map<nat, Snapshot>, snaps': map<nat, Snapshot>, id: nat, n: nat)
    requires Rooted(snaps, id, n) && forall i :: i in snaps ==> i in snaps' && snaps'[i] == snaps[i]
    ensures Rooted(snaps', id, n)
    decreases n
  {
    if snaps[id].parent.Some? {
      RootedInExtension(snaps, snaps', snaps[id].parent.value, n - 1);
    }
  }

  lemma {:induction false} InsertKeepsRooted(snaps: map<nat, Snapshot>, id: nat, snap: Snapshot)
    requires AllRooted(snaps) && id !in snaps && (snap.parent.Some? ==> snap.parent.value in snaps)
    ensures AllRooted(snaps[id := snap])
  {
    var snaps' := snaps[id := snap];
    forall i | i in snaps' ensures exists n :: Rooted(snaps', i, n) {
      if i != id {
        var n: nat :| Rooted(snaps, i, n);
        RootedInExtension(snaps, snaps', i, n);
      } else if snap.parent.Some? {
        var n: nat :| Rooted(snaps, snap.parent.value, n);
        RootedInExtension(snaps, snaps', snap.parent.value, n);
        assert Rooted(snaps', id, n + 1);
      } else {
        assert Rooted(snaps', id, 0);
      }
    }
  }

  lemma {:induction false} RootedWithout(snaps: map<nat, Snapshot>, gone: nat, id: nat, n: nat)
    requires Rooted(snaps, id, n) && id != gone && !HasChildren(snaps, gone)
    ensures Rooted(snaps - {gone}, id, n)
    decreases n
  {
    if snaps[id].parent.Some? {
      RootedWithout(snaps, gone, snaps[id].parent.value, n - 1);
    }
  }

  lemma {:induction false} DeleteKeepsRooted(snaps: map<nat, Snapshot>, gone: nat)
    requires AllRooted(snaps) && !HasChildren(snaps, gone)
    ensures AllRooted(snaps - {gone})
  {
    forall i | i in snaps - {gone} ensures exists n :: Rooted(snaps - {gone}, i, n) {
      var n: nat :| Rooted(snaps, i, n);
      RootedWithout(snaps, gone, i, n);
    }
  }

  lemma {:induction false} CommitKeepsImages(rt: F.Rt, id: nat, fails: bool, snaps: map<nat, Snapshot>)
    requires ImagesOk(rt, snaps)
    ensures var (rt', image) := F.AfterCommit(rt, id, fails);
            && ImagesOk(rt', snaps) && rt'.conts == rt.conts
            && (image.Some? ==> image.value == Commit(rt.next) && image.value in rt'.images && Live(rt.conts, id))
  {
    var rt' := F.AfterCommit(rt, id, fails).0;
    SameContainersSameUse(rt, rt', snaps);
  }

  lemma {:induction false} SameContainersSameUse(rt: F.Rt, rt': F.Rt, snaps: map<nat, Snapshot>)
    requires ImagesOk(rt, snaps) && rt'.conts == rt.conts && rt.images <= rt'.images
    ensures forall id :: id in snaps && snaps[id].image !in rt'.images ==> !F.InUse(rt', snaps[id].image)
  {
    forall id | id in snaps && snaps[id].image !in rt'.images ensures !F.InUse(rt', snaps[id].image) {
      assert !F.InUse(rt, snaps[id].image);
    }
  }

  lemma {:induction false} InsertKeepsImages(rt: F.Rt, id: nat, snap: Snapshot, snaps: map<nat, Snapshot>)
    requires ImagesOk(rt, snaps) && id !in snaps && snap.image in rt.images
    requires forall i :: i in snaps ==> snaps[i].image != snap.image
    ensures ImagesOk(rt, snaps[id := snap])
  {
  }

  lemma {:induction false} ImageDeleteKeeps(rt: F.Rt, image: ImageRef, fails: bool, snaps: map<nat, Snapshot>)
    requires ImagesOk(rt, snaps)
    ensures var (rt', r) := F.AfterImageDelete(rt, image, fails);
            && ImagesOk(rt', snaps) && rt'.conts == rt.conts
            && (r == F.Deleted ==> !F.InUse(rt, image))
  {
    var (rt', r) := F.AfterImageDelete(rt, image, fails);
    forall id | id in snaps && snaps[id].image !in rt'.images ensures !F.InUse(rt', snaps[id].image) {
      assert snaps[id].image !in rt.images ==> !F.InUse(rt, snaps[id].image);
      assert F.InUse(rt', snaps[id].image) == F.InUse(rt, snaps[id].image);
    }
  }

  lemma {:induction false} SnapshotCreateKeeps(w: World, key: nat, id: nat, f: Faults)
    requires Inv(w)
    ensures Inv(SnapshotCreateCall(w, key, id, f))
  {
    hide ImagesOk, AllRooted, F.AfterCommit, F.AfterImageDelete;
    var w' := SnapshotCreateCall(w, key, id, f);
    if key in w.sb.rows && Operable(w.sb.rows[key].state) && w.sb.rows[key].runtimeId.Some? && id !in w.snaps {
      var sb := w.sb.rows[key];
      assert RowOk(sb, w.sb.rt, w.snaps);
      var (rt, image) := F.AfterCommit(w.sb.rt, sb.runtimeId.value, f.commit);
      CommitKeepsImages(w.sb.rt, sb.runtimeId.value, f.commit, w.snaps);
      RowsKeepWithContainers(w.sb, rt, w.snaps, w.snaps);
      if image.Some? && f.insert {
        ImageDeleteKeeps(rt, image.value, f.rollback, w.snaps);
        RowsKeepWithContainers(w.sb, F.AfterImageDelete(rt, image.value, f.rollback).0, w.snaps, w.snaps);
      } else if image.Some? {
        var snap := Snapshot(sb.parent, image.value, key);
        FreshImage(w.sb.rt, w.snaps);
        InsertKeepsImages(rt, id, snap, w.snaps);
        InsertKeepsRooted(w.snaps, id, snap);
        RowsKeepWithContainers(w.sb, rt, w.snaps, w.snaps[id := snap]);
      }
    }
  }

  lemma {:induction false} FreshImage(rt: F.Rt, snaps: map<nat, Snapshot>)
    requires ImagesOk(rt, snaps)
    ensures forall i :: i in snaps ==> snaps[i].image != Commit(rt.next)
  {
  }

  /** Rows depend on the containers and on the snapshots they name. */
  lemma {:induction false} RowsKeepWithContainers(
      w: Store, rt: F.Rt, snaps: map<nat, Snapshot>, snaps': map<nat, Snapshot>)
    requires RowsOk(w, snaps) && rt.conts == w.rt.conts
    requires forall i :: i in snaps ==> i in snaps' && snaps'[i] == snaps[i]
    ensures RowsOk(w.(rt := rt), snaps')
  {
    forall key | key in w.rows ensures RowOk(w.rows[key], rt, snaps') {
      assert RowOk(w.rows[key], w.rt, snaps);
    }
  }

  lemma {:induction false} SnapshotDeleteKeeps(w: World, id: nat, f: Faults)
    requires Inv(w)
    ensures Inv(SnapshotDeleteCall(w, id, f))
  {
    hide AllRooted, F.AfterImageDelete, F.InUse, HasChildren;
    if id in w.snaps && !HasChildren(w.snaps, id) {
      var (rt, r) := F.AfterImageDelete(w.sb.rt, w.snaps[id].image, f.deleteImage);
      ImageDeleteKeeps(w.sb.rt, w.snaps[id].image, f.deleteImage, w.snaps);
      RowsKeepWithContainers(w.sb, rt, w.snaps, w.snaps);
      if r != F.Refused && !f.deleteRow {
        NotFoundMeansMissing(w.sb.rt, w.snaps[id].image, f.deleteImage);
        DeleteKeepsRooted(w.snaps, id);
        hide ImagesOk;
        RowsWithoutSnapshot(w.sb.(rt := rt), w.snaps, id);
        ImagesWithoutSnapshot(rt, w.snaps, id);
      }
    }
  }

  lemma {:induction false} NotFoundMeansMissing(rt: F.Rt, image: ImageRef, fails: bool)
    ensures F.AfterImageDelete(rt, image, fails).1 == F.ImageNotFound ==> image !in rt.images
    ensures F.InUse(F.AfterImageDelete(rt, image, fails).0, image) == F.InUse(rt, image)
  {
  }

  lemma {:induction false} ImagesWithoutSnapshot(rt: F.Rt, snaps: map<nat, Snapshot>, id: nat)
    requires ImagesOk(rt, snaps)
    ensures ImagesOk(rt, snaps - {id})
  {
    hide F.InUse;
  }

  /** A snapshot whose image no live container uses is no live row's parent. */
  lemma {:induction false} RowsWithoutSnapshot(w: Store, snaps: map<nat, Snapshot>, id: nat)
    requires RowsOk(w, snaps) && id in snaps && !F.InUse(w.rt, snaps[id].image)
    ensures RowsOk(w, snaps - {id})
  {
    forall key | key in w.rows ensures RowOk(w.rows[key], w.rt, snaps - {id}) {
      assert RowOk(w.rows[key], w.rt, snaps);
    }
  }

  // ---------------------------------------------------------------- main results

  datatype Call =
    | Create(key: nat, image: ImageRef, f: Faults)
    | Start(key: nat, f: Faults)
    | Stop(key: nat, f: Faults)
    | Destroy(key: nat, f: Faults)
    | Restore(key: nat, snapshot: nat, f: Faults)
    | Fork(key: nat, snapshot: nat, f: Faults)
    | SnapshotCreate(key: nat, id: nat, f: Faults)
    | SnapshotDelete(id: nat, f: Faults)

  ghost function Called(w: World, call: Call): World {
    match call
    case Create(key, image, f) => w.(sb := CreateCall(w.sb, key, image, f))
    case Start(key, f) => w.(sb := TransitionCall(w.sb, key, Running, f))
    case Stop(key, f) => w.(sb := TransitionCall(w.sb, key, Stopped, f))
    case Destroy(key, f) => w.(sb := DestroyCall(w.sb, key, f))
    case Restore(key, snapshot, f) => RestoreCall(w, key, snapshot, f)
    case Fork(key, snapshot, f) => ForkCall(w, key, snapshot, f)
    case SnapshotCreate(key, id, f) => SnapshotCreateCall(w, key, id, f)
    case SnapshotDelete(id, f) => SnapshotDeleteCall(w, id, f)
  }

  ghost function Calls(w: World, calls: seq<Call>): World {
    if calls == [] then w else Called(Calls(w, calls[..|calls| - 1]), calls[|calls| - 1])
  }

  const EMPTY := World(Store(map[], F.Rt(map[], {}, 0)), map[])

  lemma {:induction false} CallKeepsInv(w: World, call: Call)
    requires Inv(w)
    ensures Inv(Called(w, call))
  {
    hide ImagesOk, AllRooted, RowsOk, CreateCall, TransitionCall, DestroyCall, RestoreCall, ForkCall,
         SnapshotCreateCall, SnapshotDeleteCall;
    match call
    case Create(key, image, f) =>
      if key !in w.sb.rows {
        CreateKeeps(w.sb, key, image, f, w.snaps);
      } else {
        KnownKeyRefused(w.sb, key, image, f);
      }
    case Start(key, f) => TransitionKeeps(w.sb, key, Running, f, w.snaps);
    case Stop(key, f) => TransitionKeeps(w.sb, key, Stopped, f, w.snaps);
    case Destroy(key, f) => DestroyKeeps(w.sb, key, f, w.snaps);
    case Restore(key, snapshot, f) => RestoreKeeps(w, key, snapshot, f);
    case Fork(key, snapshot, f) => ForkKeeps(w, key, snapshot, f);
    case SnapshotCreate(key, id, f) => SnapshotCreateKeeps(w, key, id, f);
    case SnapshotDelete(id, f) => SnapshotDeleteKeeps(w, id, f);
  }

  lemma {:induction false} KnownKeyRefused(w: Store, key: nat, image: ImageRef, f: Faults)
    requires key in w.rows
    ensures CreateCall(w, key, image, f) == w
  {
  }

  lemma {:induction false} CallsKeepInv(calls: seq<Call>)
    ensures Inv(Calls(EMPTY, calls))
    decreases |calls|
  {
    hide Inv, Called;
    if calls == [] {
      EmptyInv();
    } else {
      CallsKeepInv(calls[..|calls| - 1]);
      CallKeepsInv(Calls(EMPTY, calls[..|calls| - 1]), calls[|calls| - 1]);
    }
  }

  lemma {:induction false} EmptyInv()
    ensures Inv(EMPTY)
  {
  }

  /** b is reached from a by following k parents. */
  ghost predicate Ancestor(snaps: map<nat, Snapshot>, a: nat, b: nat, k: nat)
    decreases k
  {
    if k == 0 then a == b
    else a in snaps && snaps[a].parent.Some? && Ancestor(snaps, snaps[a].parent.value, b, k - 1)
  }

  /** Lineage closure: after any sequence of whole calls, whatever fails inside them, every
      snapshot's parent row exists and no snapshot is its own ancestor. */
  lemma {:induction false} LineageIsClosed(calls: seq<Call>, id: nat)
    requires id in Calls(EMPTY, calls).snaps
    ensures var snaps := Calls(EMPTY, calls).snaps;
            && (snaps[id].parent.Some? ==> snaps[id].parent.value in snaps)
            && forall k :: k > 0 ==> !Ancestor(snaps, id, id, k)
  {
    hide Calls, ImagesOk, RowsOk, Ancestor;
    CallsKeepInv(calls);
    var snaps := Calls(EMPTY, calls).snaps;
    var n: nat :| Rooted(snaps, id, n);
    if snaps[id].parent.Some? {
      assert Rooted(snaps, snaps[id].parent.value, n - 1);
    }
    forall k | k > 0 ensures !Ancestor(snaps, id, id, k) {
      NoCycle(snaps, id, k, n);
    }
  }

  lemma {:induction false} NoCycle(snaps: map<nat, Snapshot>, id: nat, k: nat, n: nat)
    requires Rooted(snaps, id, n) && k > 0
    ensures !Ancestor(snaps, id, id, k)
    decreases n
  {
    if Ancestor(snaps, id, id, k) {
      AncestorIsRooted(snaps, id, id, k, n);
      NoCycle(snaps, id, k, n - k);
    }
  }

  lemma {:induction false} AncestorIsRooted(snaps: map<nat, Snapshot>, a: nat, b: nat, k: nat, n: nat)
    requires Rooted(snaps, a, n) && Ancestor(snaps, a, b, k)
    ensures k <= n && Rooted(snaps, b, n - k)
    decreases k
  {
    if k > 0 {
      AncestorIsRooted(snaps, snaps[a].parent.value, b, k - 1, n - 1);
    }
  }

  /** The reason: while a running or stopped sandbox's container lives, its parent's image is in
      use, so deleting the parent changes nothing. */
  lemma {:induction false} LiveParentCannotBeDeleted(calls: seq<Call>, key: nat, f: Faults)
    requires var w := Calls(EMPTY, calls);
             key in w.sb.rows && Operable(w.sb.rows[key].state) && w.sb.rows[key].parent.Some? &&
             w.sb.rows[key].runtimeId.Some? && Live(w.sb.rt.conts, w.sb.rows[key].runtimeId.value)
    ensures var w := Calls(EMPTY, calls); var parent := w.sb.rows[key].parent.value;
            parent in w.snaps && SnapshotDeleteCall(w, parent, f) == w
  {
    hide Calls, AllRooted;
    CallsKeepInv(calls);
    var w := Calls(EMPTY, calls);
    assert RowOk(w.sb.rows[key], w.sb.rt, w.snaps);
    var image := w.snaps[w.sb.rows[key].parent.value].image;
    assert F.InUse(w.sb.rt, image);
    assert image in w.sb.rt.images;
  }

  /** A snapshot whose row cannot be inserted leaves no image behind, unless the rollback fails. */
  lemma {:induction false} FailedInsertLeavesNoImage(calls: seq<Call>, key: nat, id: nat, f: Faults)
    requires f.insert && !f.rollback
    ensures var w := Calls(EMPTY, calls);
            var w' := SnapshotCreateCall(w, key, id, f);
            && w'.snaps == w.snaps && w'.sb.rows == w.sb.rows
            && w'.sb.rt.conts == w.sb.rt.conts && w'.sb.rt.images == w.sb.rt.images
  {
    hide Calls, AllRooted, RowsOk;
    CallsKeepInv(calls);
    var w := Calls(EMPTY, calls);
    if key in w.sb.rows && Operable(w.sb.rows[key].state) && w.sb.rows[key].runtimeId.Some? && id !in w.snaps {
      var (rt, image) := F.AfterCommit(w.sb.rt, w.sb.rows[key].runtimeId.value, f.commit);
      if image.Some? {
        assert !F.InUse(rt, image.value);
        assert Commit(w.sb.rt.next) !in w.sb.rt.images;
        assert rt.images - {image.value} == w.sb.rt.images;
      }
    }
  }

  // ---------------------------------------------------------------- calls in which nothing fails

  const NO_FAULTS := Faults(
    false, false, false, false, false, false, false, false, false, false, false, false, false, false, false, false)

  /** A container that was not there before runs this image for the sandbox. */
  ghost predicate RunsAnew(rt: F.Rt, rt': F.Rt, row: Row, key: nat, image: ImageRef) {
    && row.state == Running && row.runtimeId.Some? && row.runtimeId.value !in rt.conts
    && row.runtimeId.value in rt'.conts && rt'.conts[row.runtimeId.value] == Container(key, image, CRunning)
  }

  ghost predicate OthersKept(w: World, w': World, key: nat) {
    && w'.snaps == w.snaps && w'.sb.rt.images == w.sb.rt.images
    && (forall k :: k in w.sb.rows && k != key ==> k in w'.sb.rows && w'.sb.rows[k] == w.sb.rows[k])
    && (forall c :: c in w.sb.rt.conts ==> c in w'.sb.rt.conts && w'.sb.rt.conts[c] == w.sb.rt.conts[c])
  }

  /** Start and stop do to the container what the row then says, and nothing else. */
  lemma {:induction false} StartStopMoveTheContainer(w: World, key: nat, target: State)
    requires target == Running || target == Stopped
    requires key in w.sb.rows && CanTransition(w.sb.rows[key].state, target)
    requires w.sb.rows[key].runtimeId.Some? && Live(w.sb.rt.conts, w.sb.rows[key].runtimeId.value)
    ensures var w' := Called(w, if target == Running then Start(key, NO_FAULTS) else Stop(key, NO_FAULTS));
            var row := w.sb.rows[key]; var id := row.runtimeId.value;
            && w'.snaps == w.snaps && w'.sb.rows == w.sb.rows[key := row.(state := target)]
            && w'.sb.rt.images == w.sb.rt.images && w'.sb.rt.conts.Keys == w.sb.rt.conts.Keys
            && (target == Running ==> w'.sb.rt.conts[id].state == CRunning)
            && (target == Stopped ==> w'.sb.rt.conts[id].state == CStopped)
            && w'.sb.rt.conts[id].image == w.sb.rt.conts[id].image
            && w'.sb.rt.conts[id].sandbox == w.sb.rt.conts[id].sandbox
            && forall c :: c in w.sb.rt.conts && c != id ==> w'.sb.rt.conts[c] == w.sb.rt.conts[c]
  {
  }

  /** After any calls: a start gets the row to running on a running container, a stop to stopped on a
      stopped one. */
  lemma {:induction false} StartedThenStopped(calls: seq<Call>, key: nat)
    requires var w := Calls(EMPTY, calls);
             && key in w.sb.rows && w.sb.rows[key].state == Stopped
             && w.sb.rows[key].runtimeId.Some? && Live(w.sb.rt.conts, w.sb.rows[key].runtimeId.value)
    ensures var w := Calls(EMPTY, calls); var id := w.sb.rows[key].runtimeId.value;
            var up := Calls(EMPTY, calls + [Start(key, NO_FAULTS)]);
            var down := Calls(EMPTY, calls + [Start(key, NO_FAULTS)] + [Stop(key, NO_FAULTS)]);
            && key in up.sb.rows && up.sb.rows[key] == w.sb.rows[key].(state := Running)
            && id in up.sb.rt.conts && up.sb.rt.conts[id].state == CRunning
            && down.sb.rows == w.sb.rows && id in down.sb.rt.conts && down.sb.rt.conts[id].state == CStopped
  {
    hide Called;
    assert (calls + [Start(key, NO_FAULTS)])[..|calls|] == calls;
    var more := calls + [Start(key, NO_FAULTS)];
    assert (more + [Stop(key, NO_FAULTS)])[..|more|] == more;
    StartStopMoveTheContainer(Calls(EMPTY, calls), key, Running);
    StartStopMoveTheContainer(Calls(EMPTY, more), key, Stopped);
    hide Calls;
  }

  /** A start or stop the runtime refuses, or has no container for, leaves the containers alone and
      marks the row, as far as that can be written. */
  lemma {:induction false} RefusedTransitionIsAnError(w: World, key: nat, target: State, f: Faults)
    requires target == Running || target == Stopped
    requires key in w.sb.rows && CanTransition(w.sb.rows[key].state, target)
    requires f.start || w.sb.rows[key].runtimeId.None? || !Live(w.sb.rt.conts, w.sb.rows[key].runtimeId.value)
    ensures var w' := Called(w, if target == Running then Start(key, f) else Stop(key, f));
            && w'.snaps == w.snaps && w'.sb.rt == w.sb.rt
            && w'.sb.rows == if f.mark then w.sb.rows else w.sb.rows[key := w.sb.rows[key].(state := Error)]
  {
  }

  /** A creation or restore whose container does not come up leaves its row in error, naming the
      container if there is one. */
  lemma {:induction false} FailedLaunchIsAnError(
      w: Store, key: nat, sb: Row, image: ImageRef, parent: Option<nat>, f: Faults)
    requires !f.mark && (f.create || f.start || f.exits || f.inspect || (image.Commit? && image !in w.rt.images))
    ensures var w' := Launched(w, key, sb, image, parent, f);
            && w'.rows.Keys == w.rows.Keys + {key} && w'.rows[key].state == Error && w'.rows[key].parent == sb.parent
            && w'.rows[key].runtimeId ==
               if f.create || (image.Commit? && image !in w.rt.images) then sb.runtimeId else Some(w.rt.next)
  {
  }

  /** Restore swaps the sandbox's container for a new one made from the snapshot, and only that. */
  lemma {:induction false} RestoreReplacesContainer(calls: seq<Call>, key: nat, snapshot: nat)
    requires var w := Calls(EMPTY, calls);
             && snapshot in w.snaps && w.snaps[snapshot].image in w.sb.rt.images
             && key in w.sb.rows && Operable(w.sb.rows[key].state)
    ensures var w := Calls(EMPTY, calls); var w' := Called(w, Restore(key, snapshot, NO_FAULTS));
            var was := w.sb.rows[key].runtimeId;
            && w'.snaps == w.snaps && w'.sb.rt.images == w.sb.rt.images
            && key in w'.sb.rows && RunsAnew(w.sb.rt, w'.sb.rt, w'.sb.rows[key], key, w.snaps[snapshot].image)
            && w'.sb.rows[key].parent == Some(snapshot)
            && (was.Some? ==> !Live(w'.sb.rt.conts, was.value))
            && (forall k :: k in w.sb.rows && k != key ==> k in w'.sb.rows && w'.sb.rows[k] == w.sb.rows[k])
            && (forall c :: c in w.sb.rt.conts && Some(c) != was ==>
                  c in w'.sb.rt.conts && w'.sb.rt.conts[c] == w.sb.rt.conts[c])
  {
    hide Calls, Inv, Launched, Dropped;
    var w := Calls(EMPTY, calls);
    CallsKeepInv(calls);
    IdsAreOld(w, key);
    var sb := w.sb.rows[key];
    var rt := Dropped(w.sb.rt, sb, NO_FAULTS).0;
    DroppedOne(w.sb.rt, sb);
    LaunchedAnew(w.sb.(rt := rt), key, sb, w.snaps[snapshot].image, Some(snapshot));
  }

  lemma {:induction false} IdsAreOld(w: World, key: nat)
    requires Inv(w) && key in w.sb.rows
    ensures forall c :: c in w.sb.rt.conts ==> c < w.sb.rt.next
    ensures w.sb.rows[key].runtimeId.Some? ==> w.sb.rows[key].runtimeId.value in w.sb.rt.conts
  {
    hide AllRooted;
    assert RowOk(w.sb.rows[key], w.sb.rt, w.snaps);
  }

  lemma {:induction false} DroppedOne(rt: F.Rt, sb: Row)
    ensures var (rt', ok) := Dropped(rt, sb, NO_FAULTS);
            && ok && rt'.images == rt.images && rt'.next == rt.next && rt'.conts.Keys == rt.conts.Keys
            && (sb.runtimeId.Some? ==> !Live(rt'.conts, sb.runtimeId.value))
            && forall c :: c in rt.conts && Some(c) != sb.runtimeId ==> rt'.conts[c] == rt.conts[c]
  {
  }

  lemma {:induction false} LaunchedAnew(w: Store, key: nat, sb: Row, image: ImageRef, parent: Option<nat>)
    requires (forall c :: c in w.rt.conts ==> c < w.rt.next) && (image.Commit? ==> image in w.rt.images)
    ensures var w' := Launched(w, key, sb, image, parent, NO_FAULTS);
            && w'.rt.images == w.rt.images && w'.rows.Keys == w.rows.Keys + {key}
            && RunsAnew(w.rt, w'.rt, w'.rows[key], key, image)
            && w'.rows[key].parent == (if parent.Some? then parent else sb.parent)
            && (forall k :: k in w.rows && k != key ==> w'.rows[k] == w.rows[k])
            && (forall c :: c in w.rt.conts ==> c in w'.rt.conts && w'.rt.conts[c] == w.rt.conts[c])
            && w'.rt.conts.Keys == w.rt.conts.Keys + {w.rt.next}
  {
  }

  lemma {:induction false} ForkMakesChild(w: World, key: nat, snapshot: nat)
    requires ImagesOk(w.sb.rt, w.snaps) && snapshot in w.snaps && w.snaps[snapshot].image in w.sb.rt.images
    requires key !in w.sb.rows
    ensures var w' := ForkCall(w, key, snapshot, NO_FAULTS); var image := w.snaps[snapshot].image;
            && key in w'.sb.rows && RunsAnew(w.sb.rt, w'.sb.rt, w'.sb.rows[key], key, image)
            && w'.sb.rows[key].parent == Some(snapshot) && OthersKept(w, w', key)
            && w'.sb.rt.conts.Keys == w.sb.rt.conts.Keys + {w'.sb.rows[key].runtimeId.value}
  {
    var sb := Row(Creating, None, None, w.snaps[snapshot].image);
    LaunchedAnew(w.sb.(rows := w.sb.rows[key := sb]), key, sb, sb.image, None);
    hide Launched;
  }

  lemma {:induction false} SnapshotInheritsParent(w: World, key: nat, id: nat)
    requires ImagesOk(w.sb.rt, w.snaps) && id !in w.snaps && key in w.sb.rows && Operable(w.sb.rows[key].state)
    requires w.sb.rows[key].runtimeId.Some? && Live(w.sb.rt.conts, w.sb.rows[key].runtimeId.value)
    ensures var w' := SnapshotCreateCall(w, key, id, NO_FAULTS);
            && w'.snaps.Keys == w.snaps.Keys + {id} && (forall i :: i in w.snaps ==> w'.snaps[i] == w.snaps[i])
            && w'.snaps[id].parent == w.sb.rows[key].parent
            && w'.sb.rt.images == w.sb.rt.images + {w'.snaps[id].image} && !F.InUse(w'.sb.rt, w'.snaps[id].image)
            && w'.sb.rows == w.sb.rows && w'.sb.rt.conts == w.sb.rt.conts
  {
    FreshImage(w.sb.rt, w.snaps);
    assert forall c :: c in w.sb.rt.conts ==> w.sb.rt.conts[c].image != Commit(w.sb.rt.next);
  }

  lemma {:induction false} DeletedExactlyWhenUnused(w: World, id: nat)
    requires ImagesOk(w.sb.rt, w.snaps) && id in w.snaps
    ensures var w' := SnapshotDeleteCall(w, id, NO_FAULTS);
            && (id !in w'.snaps <==> !HasChildren(w.snaps, id) && !F.InUse(w.sb.rt, w.snaps[id].image))
            && (id in w'.snaps ==> w' == w)
            && (id !in w'.snaps ==> w'.snaps == w.snaps - {id} && w'.sb.rt.conts == w.sb.rt.conts)
  {
    hide F.InUse, HasChildren;
    assert w.snaps[id].image !in w.sb.rt.images ==> !F.InUse(w.sb.rt, w.snaps[id].image);
  }

  lemma {:induction false} DestroyFreesImage(w: World, key: nat)
    requires key in w.sb.rows && w.sb.rows[key].state == Running && w.sb.rows[key].runtimeId.Some?
    ensures var w' := Called(w, Destroy(key, NO_FAULTS)); var id := w.sb.rows[key].runtimeId.value;
            && w'.snaps == w.snaps && w'.sb.rows[key].state == Destroyed
            && forall c :: Live(w'.sb.rt.conts, c) <==> Live(w.sb.rt.conts, c) && c != id
    ensures forall c :: Live(w.sb.rt.conts, c) && c != w.sb.rows[key].runtimeId.value ==>
              Called(w, Destroy(key, NO_FAULTS)).sb.rt.conts[c] == w.sb.rt.conts[c]
  {
  }

  /** The life of a family, from any state the services can reach, when nothing fails: fork a
      sandbox from a snapshot and snapshot the fork. The child's parent is the snapshot; the
      snapshot cannot be deleted while the fork runs, nor after the fork is gone while the child is
      there; and once the child is deleted it goes if and only if it had no other children and no
      other user before. */
  lemma {:induction false} FamilyLife(calls: seq<Call>, key: nat, snapshot: nat, child: nat)
    requires var w := Calls(EMPTY, calls);
             && snapshot in w.snaps && w.snaps[snapshot].image in w.sb.rt.images
             && key !in w.sb.rows && child !in w.snaps
    ensures var w := Calls(EMPTY, calls);
            var born := Called(Called(w, Fork(key, snapshot, NO_FAULTS)), SnapshotCreate(key, child, NO_FAULTS));
            var left := Called(born, Destroy(key, NO_FAULTS));
            var alone := Called(left, SnapshotDelete(child, NO_FAULTS));
            && child in born.snaps && born.snaps[child].parent == Some(snapshot)
            && Called(born, SnapshotDelete(snapshot, NO_FAULTS)) == born
            && Called(left, SnapshotDelete(snapshot, NO_FAULTS)) == left
            && child !in alone.snaps && snapshot in alone.snaps
            && (snapshot !in Called(alone, SnapshotDelete(snapshot, NO_FAULTS)).snaps <==>
                !HasChildren(w.snaps, snapshot) && !F.InUse(w.sb.rt, w.snaps[snapshot].image))
  {
    hide Calls, Inv, Called, HasChildren, F.InUse;
    CallsKeepInv(calls);
    FamilyDeletions(Calls(EMPTY, calls), key, snapshot, child);
  }

  /** The fork, its snapshot and the fork's end. */
  lemma {:induction false} FamilyBorn(w: World, key: nat, snapshot: nat, child: nat)
    requires Inv(w) && snapshot in w.snaps && w.snaps[snapshot].image in w.sb.rt.images
    requires key !in w.sb.rows && child !in w.snaps
    ensures var born := Called(Called(w, Fork(key, snapshot, NO_FAULTS)), SnapshotCreate(key, child, NO_FAULTS));
            var left := Called(born, Destroy(key, NO_FAULTS)); var image := w.snaps[snapshot].image;
            && Inv(born) && Inv(left) && left.snaps == born.snaps
            && born.snaps.Keys == w.snaps.Keys + {child} && (forall i :: i in w.snaps ==> born.snaps[i] == w.snaps[i])
            && born.snaps[child].parent == Some(snapshot)
            && !HasChildren(left.snaps, child) && !F.InUse(left.sb.rt, left.snaps[child].image)
            && F.InUse(left.sb.rt, image) == F.InUse(w.sb.rt, image)
  {
    hide Inv, AllRooted, RowsOk, ImagesOk, HasChildren, F.InUse, ForkCall, SnapshotCreateCall, DestroyCall;
    InvImages(w);
    var forked := Called(w, Fork(key, snapshot, NO_FAULTS));
    ForkMakesChild(w, key, snapshot);
    CallKeepsInv(w, Fork(key, snapshot, NO_FAULTS));
    InvImages(forked);
    SnapshotInheritsParent(forked, key, child);
    var born := Called(forked, SnapshotCreate(key, child, NO_FAULTS));
    CallKeepsInv(forked, SnapshotCreate(key, child, NO_FAULTS));
    DestroyFreesImage(born, key);
    CallKeepsInv(born, Destroy(key, NO_FAULTS));
    ChildUnused(w, forked, born, Called(born, Destroy(key, NO_FAULTS)), key, snapshot, child);
  }

  /** What can be deleted when. */
  lemma {:induction false} FamilyDeletions(w: World, key: nat, snapshot: nat, child: nat)
    requires Inv(w) && snapshot in w.snaps && w.snaps[snapshot].image in w.sb.rt.images
    requires key !in w.sb.rows && child !in w.snaps
    ensures var born := Called(Called(w, Fork(key, snapshot, NO_FAULTS)), SnapshotCreate(key, child, NO_FAULTS));
            var left := Called(born, Destroy(key, NO_FAULTS));
            var alone := Called(left, SnapshotDelete(child, NO_FAULTS));
            && child in born.snaps && born.snaps[child].parent == Some(snapshot)
            && Called(born, SnapshotDelete(snapshot, NO_FAULTS)) == born
            && Called(left, SnapshotDelete(snapshot, NO_FAULTS)) == left
            && child !in alone.snaps && snapshot in alone.snaps
            && (snapshot !in Called(alone, SnapshotDelete(snapshot, NO_FAULTS)).snaps <==>
                !HasChildren(w.snaps, snapshot) && !F.InUse(w.sb.rt, w.snaps[snapshot].image))
  {
    hide Inv, Called, HasChildren, F.InUse;
    FamilyBorn(w, key, snapshot, child);
    var born := Called(Called(w, Fork(key, snapshot, NO_FAULTS)), SnapshotCreate(key, child, NO_FAULTS));
    var left := Called(born, Destroy(key, NO_FAULTS));
    var alone := Called(left, SnapshotDelete(child, NO_FAULTS));
    DeletionCalled(born, snapshot);
    DeletionCalled(left, snapshot);
    DeletionCalled(left, child);
    DeletionCalled(alone, snapshot);
    ChildCounts(born.snaps, snapshot, child);
    AloneAgain(w.snaps, alone.snaps, snapshot, child);
    UseUnchanged(left.sb.rt, alone.sb.rt, w.snaps[snapshot].image);
  }

  lemma {:induction false} DeletionCalled(w: World, id: nat)
    requires Inv(w) && id in w.snaps
    ensures var w' := Called(w, SnapshotDelete(id, NO_FAULTS));
            && Inv(w')
            && (id !in w'.snaps <==> !HasChildren(w.snaps, id) && !F.InUse(w.sb.rt, w.snaps[id].image))
            && (id in w'.snaps ==> w' == w)
            && (id !in w'.snaps ==> w'.snaps == w.snaps - {id} && w'.sb.rt.conts == w.sb.rt.conts)
  {
    hide Inv, SnapshotDeleteCall, HasChildren, F.InUse;
    InvImages(w);
    DeletedExactlyWhenUnused(w, id);
    CallKeepsInv(w, SnapshotDelete(id, NO_FAULTS));
  }

  lemma {:induction false} InvImages(w: World)
    requires Inv(w)
    ensures ImagesOk(w.sb.rt, w.snaps)
  {
  }

  lemma {:induction false} ChildCounts(snaps: map<nat, Snapshot>, parent: nat, child: nat)
    requires child in snaps && snaps[child].parent == Some(parent)
    ensures HasChildren(snaps, parent)
  {
  }

  lemma {:induction false} UseUnchanged(rt: F.Rt, rt': F.Rt, image: ImageRef)
    requires rt.conts == rt'.conts
    ensures F.InUse(rt, image) == F.InUse(rt', image)
  {
  }

  /** After the child is gone the snapshot's children are those it had. */
  lemma {:induction false} AloneAgain(before: map<nat, Snapshot>, now: map<nat, Snapshot>, id: nat, child: nat)
    requires now.Keys == before.Keys && forall i :: i in before ==> now[i] == before[i]
    ensures HasChildren(now, id) == HasChildren(before, id)
  {
    assert now == before;
  }

  /** Nobody uses or descends from the child, and the fork leaves the use of the snapshot's image as
      it was. */
  lemma {:induction false} ChildUnused(
      w: World, forked: World, born: World, left: World, key: nat, snapshot: nat, child: nat)
    requires Inv(w) && ImagesOk(w.sb.rt, w.snaps) && snapshot in w.snaps && child !in w.snaps
    requires key in forked.sb.rows && forked.sb.rows[key].runtimeId.Some?
    requires var c := forked.sb.rows[key].runtimeId.value;
             && c !in w.sb.rt.conts && forked.sb.rt.conts.Keys == w.sb.rt.conts.Keys + {c}
    requires forall c :: c in w.sb.rt.conts ==> forked.sb.rt.conts[c] == w.sb.rt.conts[c]
    requires born.sb.rt.conts == forked.sb.rt.conts && child in born.snaps
    requires !F.InUse(born.sb.rt, born.snaps[child].image)
    requires left.snaps == born.snaps && born.snaps.Keys == w.snaps.Keys + {child}
    requires forall i :: i in w.snaps ==> born.snaps[i] == w.snaps[i]
    requires born.snaps[child].parent == Some(snapshot)
    requires forall c :: Live(left.sb.rt.conts, c) <==>
               Live(born.sb.rt.conts, c) && c != forked.sb.rows[key].runtimeId.value
    requires forall c :: Live(left.sb.rt.conts, c) ==>
               c in born.sb.rt.conts && left.sb.rt.conts[c] == born.sb.rt.conts[c]
    ensures !HasChildren(left.snaps, child) && !F.InUse(left.sb.rt, left.snaps[child].image)
    ensures F.InUse(left.sb.rt, w.snaps[snapshot].image) == F.InUse(w.sb.rt, w.snaps[snapshot].image)
  {
    hide ImagesOk, RowsOk;
    forall i | i in left.snaps ensures left.snaps[i].parent != Some(child) {
      if i in w.snaps { ParentExists(w, i); }
    }
    SameUsers(w.sb.rt, born.sb.rt, left.sb.rt, forked.sb.rows[key].runtimeId.value, w.snaps[snapshot].image);
    FewerUsers(born.sb.rt, left.sb.rt, born.snaps[child].image);
  }

  lemma {:induction false} ParentExists(w: World, id: nat)
    requires AllRooted(w.snaps) && id in w.snaps
    ensures w.snaps[id].parent.Some? ==> w.snaps[id].parent.value in w.snaps
  {
    var n: nat :| Rooted(w.snaps, id, n);
    if w.snaps[id].parent.Some? {
      assert Rooted(w.snaps, w.snaps[id].parent.value, n - 1);
    }
  }

  lemma {:induction false} FewerUsers(rt: F.Rt, rt': F.Rt, image: ImageRef)
    requires !F.InUse(rt, image)
    requires forall c :: Live(rt'.conts, c) ==> Live(rt.conts, c) && rt'.conts[c] == rt.conts[c]
    ensures !F.InUse(rt', image)
  {
    forall c | Live(rt'.conts, c) ensures rt'.conts[c].image != image {
      assert Live(rt.conts, c);
    }
  }

  lemma {:induction false} SameUsers(rt: F.Rt, mid: F.Rt, rt': F.Rt, one: nat, image: ImageRef)
    requires one !in rt.conts && mid.conts.Keys == rt.conts.Keys + {one}
    requires forall c :: c in rt.conts ==> mid.conts[c] == rt.conts[c]
    requires forall c :: Live(rt'.conts, c) <==> Live(mid.conts, c) && c != one
    requires forall c :: Live(rt'.conts, c) ==> c in mid.conts && rt'.conts[c] == mid.conts[c]
    ensures F.InUse(rt', image) == F.InUse(rt, image)
  {
    forall c ensures Live(rt'.conts, c) <==> Live(rt.conts, c) {
      assert Live(mid.conts, c) <==> Live(rt.conts, c) || (c == one && Live(mid.conts, one));
    }
    if F.InUse(rt, image) {
      var c :| Live(rt.conts, c) && rt.conts[c].image == image;
      assert Live(rt'.conts, c) && rt'.conts[c].image == image;
    }
    if F.InUse(rt', image) {
      var c :| Live(rt'.conts, c) && rt'.conts[c].image == image;
      assert Live(rt.conts, c) && rt.conts[c].image == image;
    }
  }

  /** A destroy that the runtime refuses leaves the row in error, naming the container still. */
  lemma {:induction false} RefusedDestroyIsAnError(w: World, key: nat, f: Faults)
    requires key in w.sb.rows && CanTransition(w.sb.rows[key].state, Destroying) && !f.announce && !f.mark
    requires w.sb.rows[key].runtimeId.Some? && Live(w.sb.rt.conts, w.sb.rows[key].runtimeId.value) && f.destroy
    ensures var w' := Called(w, Destroy(key, f));
            && w'.snaps == w.snaps && w'.sb.rows == w.sb.rows[key := w.sb.rows[key].(state := Error)]
            && (Live(w'.sb.rt.conts, w.sb.rows[key].runtimeId.value) <==> !f.removed)
  {
  }

  /** A last write that is lost leaves the row as it was before it, whatever the container did. */
  lemma {:induction false} LostWritesLeaveTheRow(w: World, key: nat, target: State)
    requires target == Running || target == Stopped
    requires key in w.sb.rows && w.sb.rows[key].runtimeId.Some? && Live(w.sb.rt.conts, w.sb.rows[key].runtimeId.value)
    ensures var f := NO_FAULTS.(update := true); var id := w.sb.rows[key].runtimeId.value;
            && (CanTransition(w.sb.rows[key].state, target) ==>
                  var w' := Called(w, if target == Running then Start(key, f) else Stop(key, f));
                  && w'.sb.rows == w.sb.rows && Live(w'.sb.rt.conts, id)
                  && w'.sb.rt.conts[id].state == (if target == Running then CRunning else CStopped))
            && (CanTransition(w.sb.rows[key].state, Destroying) ==>
                  var w' := Called(w, Destroy(key, f));
                  && w'.sb.rows == w.sb.rows[key := w.sb.rows[key].(state := Destroying)] && !Live(w'.sb.rt.conts, id))
            && (CanTransition(w.sb.rows[key].state, Destroying) ==> Called(w, Destroy(key, f.(announce := true))) == w)
  {
  }

  lemma {:induction false} LostLaunchLeavesTheRow(w: Store, key: nat, sb: Row, image: ImageRef, parent: Option<nat>)
    requires image.Commit? ==> image in w.rt.images
    ensures var w' := Launched(w, key, sb, image, parent, NO_FAULTS.(update := true));
            w'.rows == w.rows && w'.rt.conts == w.rt.conts[w.rt.next := Container(key, image, CRunning)]
  {
  }

  /** What a snapshot records, from any reachable state: the sandbox it was taken of, that sandbox's
      parent and a new image, with the containers as they were. A commit that fails changes nothing. */
  lemma {:induction false} SnapshotRecords(calls: seq<Call>, key: nat, id: nat, f: Faults)
    ensures var w := Calls(EMPTY, calls); var w' := Called(w, SnapshotCreate(key, id, f));
            && w'.sb.rows == w.sb.rows && w'.sb.rt.conts == w.sb.rt.conts
            && (f.commit ==> w' == w)
            && (w'.snaps != w.snaps ==>
                  && id !in w.snaps && key in w.sb.rows && !f.insert
                  && exists image :: image !in w.sb.rt.images && w'.sb.rt.images == w.sb.rt.images + {image} &&
                                     w'.snaps == w.snaps[id := Snapshot(w.sb.rows[key].parent, image, key)])
            && (id !in w.snaps && key in w.sb.rows && Operable(w.sb.rows[key].state) && !f.commit && !f.insert &&
                w.sb.rows[key].runtimeId.Some? && Live(w.sb.rt.conts, w.sb.rows[key].runtimeId.value) ==>
                  id in w'.snaps)
  {
    hide Calls, AllRooted, RowsOk;
    CallsKeepInv(calls);
    var w := Calls(EMPTY, calls);
    assert Commit(w.sb.rt.next) !in w.sb.rt.images;
  }

  /** A deletion, with any of its steps failing: the row goes if and only if nothing descends from it, the
      image was removed or was not there any more, and the row could be deleted; a refusal by the runtime
      changes nothing, and a row that stays behind has lost its image. */
  lemma {:induction false} DeletionOutcome(w: World, id: nat, f: Faults)
    requires id in w.snaps
    ensures var w' := Called(w, SnapshotDelete(id, f)); var image := w.snaps[id].image;
            var removable := !f.deleteImage && (image in w.sb.rt.images ==> !F.InUse(w.sb.rt, image));
            var childless := forall c :: c in w.snaps ==> w.snaps[c].parent != Some(id);
            && w'.sb.rows == w.sb.rows && w'.sb.rt.conts == w.sb.rt.conts
            && (id !in w'.snaps <==> childless && removable && !f.deleteRow)
            && w'.snaps == (if id in w'.snaps then w.snaps else w.snaps - {id})
            && w'.sb.rt.images == (if childless && removable then w.sb.rt.images - {image} else w.sb.rt.images)
  {
    hide F.InUse;
  }

  /** A container that is missing or gone is no obstacle to a destroy, whatever the runtime would say. */
  lemma {:induction false} MissingContainerIsNoError(w: World, key: nat, f: Faults)
    requires key in w.sb.rows && CanTransition(w.sb.rows[key].state, Destroying) && !f.announce && !f.update
    requires var id := w.sb.rows[key].runtimeId; id.None? || !Live(w.sb.rt.conts, id.value)
    ensures var rows := w.sb.rows[key := w.sb.rows[key].(state := Destroyed)];
            Called(w, Destroy(key, f)) == w.(sb := w.sb.(rows := rows))
  {
    hide Live;
  }

  /** A fork is a creation from the snapshot's image whose row then gets the snapshot for a parent, if it
      runs and that write succeeds; there is nothing to fork without the snapshot; and a creation whose
      first write fails makes nothing. */
  lemma {:induction false} ForkIsCreation(w: World, key: nat, snapshot: nat, image: ImageRef, f: Faults)
    requires key !in w.sb.rows
    ensures f.insert ==> Called(w, Create(key, image, f)) == w && Called(w, Fork(key, snapshot, f)) == w
    ensures snapshot !in w.snaps ==> Called(w, Fork(key, snapshot, f)) == w
    ensures snapshot in w.snaps && image == w.snaps[snapshot].image ==>
              var made, forked := Called(w, Create(key, image, f)), Called(w, Fork(key, snapshot, f));
              && forked.sb.rt == made.sb.rt && forked.snaps == made.snaps && forked.sb.rows.Keys == made.sb.rows.Keys
              && (forall k :: k in made.sb.rows && k != key ==> forked.sb.rows[k] == made.sb.rows[k])
              && (key in made.sb.rows ==>
                    var row := made.sb.rows[key];
                    var named := row.state == Running && !f.setParent;
                    forked.sb.rows[key] == if named then row.(parent := Some(snapshot)) else row)
  {
    hide Launched;
  }
}
