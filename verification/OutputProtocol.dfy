/** The wake-up channels of internal/exec/broadcaster.go. A channel is a number; it is open
    until it is closed, and closing is for ever. */
module Broadcast {
  datatype Channels = Channels(waiters: map<string, nat>, closed: set<nat>, next: nat)

  predicate Sound(c: Channels) {
    (forall id :: id in c.waiters ==> c.waiters[id] < c.next && c.waiters[id] !in c.closed) &&
    (forall ch :: ch in c.closed ==> ch < c.next) &&
    (forall a, b :: a in c.waiters && b in c.waiters && a != b ==> c.waiters[a] != c.waiters[b])
  }

  function Waited(c: Channels, id: string): Channels {
    if id in c.waiters then c else c.(waiters := c.waiters[id := c.next], next := c.next + 1)
  }

  function WaitChannel(c: Channels, id: string): nat {
    if id in c.waiters then c.waiters[id] else c.next
  }

  function Notified(c: Channels, id: string): Channels {
    if id in c.waiters
    then c.(waiters := c.waiters - {id}, closed := c.closed + {c.waiters[id]})
    else c
  }

  class Broadcaster {
    var waiters: map<string, nat>
    var closed: set<nat>
    var next: nat

    ghost function State(): Channels reads this { Channels(waiters, closed, next) }

    constructor ()
      ensures State() == Channels(map[], {}, 0) && Sound(State())
    {
      waiters, closed, next := map[], {}, 0;
    }

    method Wait(id: string) returns (ch: nat)
      modifies this
      ensures State() == Waited(old(State()), id) && ch == WaitChannel(old(State()), id)
    {
      if id in waiters {
        ch := waiters[id];
      } else {
        ch := next;
        waiters, next := waiters[id := ch], next + 1;
      }
    }

    method Notify(id: string)
      modifies this
      ensures State() == Notified(old(State()), id)
    {
      if id in waiters {
        closed := closed + {waiters[id]};
        waiters := waiters - {id};
      }
    }
  }

  datatype Call = Wait(id: string) | Notify(id: string)

  function Called(c: Channels, call: Call): Channels {
    match call
    case Wait(id) => Waited(c, id)
    case Notify(id) => Notified(c, id)
  }

  function Calls(c: Channels, calls: seq<Call>): Channels
    decreases |calls|
  {
    if calls == [] then c else Calls(Called(c, calls[0]), calls[1..])
  }

  lemma {:induction false} CallKeepsSound(c: Channels, call: Call)
    requires Sound(c)
    ensures Sound(Called(c, call)) && c.closed <= Called(c, call).closed
  {
  }

  /** The channel a Wait returns is open then, and after any further calls it is closed exactly
      when one of them was a Notify of the same id. */
  lemma {:induction false} ClosedExactlyByNotify(c: Channels, id: string, calls: seq<Call>)
    requires Sound(c)
    ensures WaitChannel(c, id) !in c.closed
    ensures WaitChannel(c, id) in Calls(Waited(c, id), calls).closed <==> Notify(id) in calls
  {
    CallKeepsSound(c, Wait(id));
    ClosedWhileHeld(Waited(c, id), id, calls);
  }

  lemma {:induction false} ClosedWhileHeld(c: Channels, id: string, calls: seq<Call>)
    requires Sound(c) && id in c.waiters
    ensures c.waiters[id] in Calls(c, calls).closed <==> Notify(id) in calls
    decreases |calls|
  {
    if calls != [] {
      var d := Called(c, calls[0]);
      CallKeepsSound(c, calls[0]);
      if calls[0] == Notify(id) {
        ClosedStays(d, calls[1..], c.waiters[id]);
      } else {
        ClosedWhileHeld(d, id, calls[1..]);
        assert calls == [calls[0]] + calls[1..];
      }
    }
  }

  lemma {:induction false} ClosedStays(c: Channels, calls: seq<Call>, ch: nat)
    requires Sound(c) && ch in c.closed
    ensures ch in Calls(c, calls).closed
    decreases |calls|
  {
    if calls != [] {
      CallKeepsSound(c, calls[0]);
      ClosedStays(Called(c, calls[0]), calls[1..], ch);
    }
  }
}

/** One exec's supervisor and any number of output handlers, as interleaved atomic steps, over all
    the daemons of the exec's life (internal/exec/service.go supervise and Reconcile,
    internal/api/execs.go handleExecOutput). */
module OutputProtocol {
  import opened Wrappers
  import opened ExecLog
  import Broadcast

  /** Where the writing side of the exec is. An exec whose start fails is abandoned: its row is marked
      failed, if that write succeeds, and nobody is notified. Bytes of an append may reach the file one by one.
      A write that fails leaves the loop, after a notification if it was the gap's; dirty says that
      its frame was complete and nobody has been notified since. */
  datatype Writer =
    | Starting
    | Abandoned(ended: bool)
    | Idle
    | Writing(base: seq<Byte>, frame: Frame, done: nat)
    | Appended
    | Leaving(dirty: bool)
    | Finished
    | Done

  datatype PC = Top | Draining | Getting | Parked | LastDrain | ExitSent | Gone

  datatype Handler = Handler(pc: PC, start: nat, offset: nat, sent: seq<Record>, wake: nat)

  datatype System = System(
    file: seq<Byte>, running: bool, writer: Writer, chans: Broadcast.Channels, handlers: map<nat, Handler>)

  const EXEC := "exec"

  datatype Step =
    | Start
    | OpenFails
    | MarkFailed(stored: bool)
    | BeginAppend(frame: Frame)
    | DropAppend
    | WriteBytes(n: nat)
    | AppendReturns
    | AppendFails
    | NotifyAppend
    | Leave
    | Finish(stored: bool)
    | NotifyFinish
    | OtherExec(call: Broadcast.Call)
    | Connect(id: nat, start: nat)
    | WaitStep(id: nat)
    | SendNext(id: nat)
    | DrainEnds(id: nat)
    | GetRow(id: nat)
    | Wake(id: nat)
    | Heartbeat(id: nat)
    | Disconnect(id: nat)
    | Restart(repaired: bool)

  /** The writer has changed something a reader waits for and has not notified since. */
  ghost predicate Owes(w: Writer) {
    match w
    case Starting => false
    case Abandoned(ended) => ended
    case Idle => false
    case Writing(base, frame, done) => done == HEADER_SIZE + |frame.data|
    case Appended => true
    case Leaving(dirty) => dirty
    case Finished => true
    case Done => false
  }

  // ---------------------------------------------------------------- the steps

  /** A step that is not possible in a state leaves it as it is, so that every sequence of
      steps is an interleaving. */
  ghost function Apply(s: System, step: Step): System {
    match step
    case OtherExec(call) => if call.id == EXEC then s else s.(chans := Broadcast.Called(s.chans, call))
    case Connect(id, start) =>
      if id in s.handlers || !Boundary(s.file, start) then s
      else s.(handlers := s.handlers[id := Handler(Top, start, start, [], 0)])
    case Restart(repaired) => Restarted(s, repaired)
    case WaitStep(_) => HandlerStep(s, step)
    case SendNext(_) => HandlerStep(s, step)
    case DrainEnds(_) => HandlerStep(s, step)
    case GetRow(_) => HandlerStep(s, step)
    case Wake(_) => HandlerStep(s, step)
    case Heartbeat(_) => HandlerStep(s, step)
    case Disconnect(_) => HandlerStep(s, step)
    case _ => WriterStep(s, step)
  }

  /** The daemon is killed, at any point, and started again: connections and channels are gone. An
      exec whose row still says running is taken up again, with its log repaired if that works; one
      that has ended is left alone. */
  ghost function Restarted(s: System, repaired: bool): System {
    var handlers := map id | id in s.handlers :: s.handlers[id].(pc := Gone);
    var anew := s.(handlers := handlers, chans := Broadcast.Channels(map[], {}, 0));
    if !s.running then anew.(writer := Done)
    else if repaired then anew.(writer := Idle, file := s.file[..End(s.file, 0)])
    else anew.(writer := Leaving(false))
  }

  ghost function WriterStep(s: System, step: Step): System {
    match (step, s.writer)
    case (Start, Starting) => s.(writer := Idle)
    case (OpenFails, Starting) => s.(writer := Leaving(false))
    case (MarkFailed(stored), Starting) => s.(writer := Abandoned(stored), running := s.running && !stored)
    case (BeginAppend(frame), Idle) =>
      if |frame.data| > MAX_FRAME_PAYLOAD then s else s.(writer := Writing(s.file, frame, 0))
    case (DropAppend, Idle) => s.(writer := Appended)
    case (WriteBytes(n), Writing(base, frame, done)) =>
      if |frame.data| > MAX_FRAME_PAYLOAD || done + n > |Encode(frame)| then s
      else s.(file := base + Encode(frame)[..done + n], writer := Writing(base, frame, done + n))
    case (AppendReturns, Writing(_, frame, done)) => if Owes(s.writer) then s.(writer := Appended) else s
    case (AppendFails, Writing(_, _, _)) => s.(writer := Leaving(Owes(s.writer)))
    case (NotifyAppend, Appended) => s.(writer := Idle, chans := Broadcast.Notified(s.chans, EXEC))
    case (NotifyAppend, Leaving(_)) => s.(writer := Leaving(false), chans := Broadcast.Notified(s.chans, EXEC))
    case (Leave, Idle) => s.(writer := Leaving(false))
    case (Finish(stored), Leaving(_)) => s.(writer := Finished, running := s.running && !stored)
    case (NotifyFinish, Finished) => s.(writer := Done, chans := Broadcast.Notified(s.chans, EXEC))
    case _ => s
  }

  ghost predicate IsHandlerStep(step: Step) {
    || step.WaitStep? || step.SendNext? || step.DrainEnds? || step.GetRow?
    || step.Wake? || step.Heartbeat? || step.Disconnect?
  }

  ghost function HandlerStep(s: System, step: Step): System
    requires IsHandlerStep(step)
  {
    if step.id !in s.handlers then s
    else
      var h := s.handlers[step.id];
      var h' := Moved(s, h, step);
      var chans := if step.WaitStep? && h.pc == Top then Broadcast.Waited(s.chans, EXEC) else s.chans;
      s.(handlers := s.handlers[step.id := h'], chans := chans)
  }

  /** One handler's own step: the loop of handleExecOutput, with drain's loop one record at a time. */
  ghost function Moved(s: System, h: Handler, step: Step): Handler
    requires IsHandlerStep(step)
  {
    match step
    case WaitStep(_) =>
      if h.pc == Top then h.(pc := Draining, wake := Broadcast.WaitChannel(s.chans, EXEC)) else h
    case SendNext(_) =>
      if h.pc != Draining && h.pc != LastDrain then h
      else (match FrameAt(s.file, h.offset)
            case None => h
            case Some(f) =>
              var next := h.offset + HEADER_SIZE + |f.data|;
              h.(offset := next, sent := h.sent + [Record(f.stream, f.data, next)]))
    case DrainEnds(_) =>
      if FrameAt(s.file, h.offset).Some? then h
      else if h.pc == Draining then h.(pc := Getting)
      else if h.pc == LastDrain then h.(pc := ExitSent)
      else h
    case GetRow(_) =>
      if h.pc != Getting then h else h.(pc := if s.running then Parked else LastDrain)
    case Wake(_) => if h.pc == Parked && h.wake in s.chans.closed then h.(pc := Top) else h
    case Heartbeat(_) => if h.pc == Parked then h.(pc := Top) else h
    case Disconnect(_) => if h.pc == ExitSent then h else h.(pc := Gone)
  }

  ghost function Run(s: System, steps: seq<Step>): System {
    if steps == [] then s else Apply(Run(s, steps[..|steps| - 1]), steps[|steps| - 1])
  }

  /** An exec about to be started, a supervisor that has just opened the log, or one that could not and
      goes straight to the end. */
  ghost predicate Init(s: System) {
    s.running && s.handlers == map[] && Broadcast.Sound(s.chans) &&
    (((s.writer == Idle || s.writer == Starting) && Whole(s.file)) || s.writer == Leaving(false))
  }

  // ---------------------------------------------------------------- the invariant

  ghost predicate WriterOk(s: System) {
    match s.writer
    case Starting => s.running && Whole(s.file)
    case Abandoned(ended) => ended || s.running
    case Idle => s.running && Whole(s.file)
    case Writing(base, frame, done) =>
      && s.running && Whole(base) && |frame.data| <= MAX_FRAME_PAYLOAD && done <= |Encode(frame)|
      && s.file == base + Encode(frame)[..done]
    case Appended => s.running && Whole(s.file)
    case Leaving(_) => s.running
    case Finished => true
    case Done => true
  }

  /** What was sent is what the file held from the start to the cursor. */
  ghost predicate Delivered(file: seq<Byte>, h: Handler) {
    && Boundary(file, h.start) && Boundary(file, h.offset)
    && Scan(file, h.start) == h.sent + Scan(file, h.offset)
  }

  ghost predicate Listening(c: Broadcast.Channels, h: Handler) {
    h.wake in c.closed || (EXEC in c.waiters && c.waiters[EXEC] == h.wake)
  }

  ghost predicate Quiet(s: System, h: Handler) {
    h.wake !in s.chans.closed && !Owes(s.writer)
  }

  ghost predicate PlaceOk(s: System, h: Handler) {
    match h.pc
    case Top => true
    case Draining => Listening(s.chans, h)
    case Getting => Listening(s.chans, h) && (Quiet(s, h) ==> h.offset == End(s.file, 0))
    case Parked => Listening(s.chans, h) && (Quiet(s, h) ==> s.running && h.offset == End(s.file, 0))
    case LastDrain => !s.running
    case ExitSent => !s.running && h.offset == End(s.file, 0)
    case Gone => true
  }

  ghost predicate Inv(s: System) {
    && Broadcast.Sound(s.chans) && WriterOk(s)
    && forall id :: id in s.handlers ==> Delivered(s.file, s.handlers[id]) && PlaceOk(s, s.handlers[id])
  }

  // ---------------------------------------------------------------- files and cursors

  /** A cursor with no complete frame behind it is at the end of the records, and conversely. */
  lemma {:induction false} CaughtUp(file: seq<Byte>, at: nat)
    requires Boundary(file, at)
    ensures FrameAt(file, at) == None <==> at == End(file, 0)
    ensures at == End(file, 0) ==> Scan(file, at) == []
  {
    hide FrameAt;
    EndFromBoundary(file, at);
  }

  lemma {:induction false} DeliveredSurvivesGrowth(file: seq<Byte>, file': seq<Byte>, h: Handler)
    requires file <= file' && Delivered(file, h)
    ensures Delivered(file', h)
  {
    hide Scan, End, Boundary;
    var more := Scan(file', End(file, 0));
    TailGrows(file, file', h.start);
    TailGrows(file, file', h.offset);
    assert (h.sent + Scan(file, h.offset)) + more == h.sent + (Scan(file, h.offset) + more);
  }

  lemma {:induction false} TailGrows(file: seq<Byte>, file': seq<Byte>, at: nat)
    requires file <= file' && Boundary(file, at)
    ensures Boundary(file', at) && Scan(file', at) == Scan(file, at) + Scan(file', End(file, 0))
  {
    hide Scan, End, Below, Boundary;
    ScanGrows(file, file', 0);
    BoundaryOfExtension(file, file', at);
    EndFromBoundary(file, at);
    ScanGrows(file, file', at);
  }

  lemma {:induction false} SendingKeepsDelivered(file: seq<Byte>, h: Handler, f: Frame)
    requires Delivered(file, h) && FrameAt(file, h.offset) == Some(f)
    ensures var next := h.offset + HEADER_SIZE + |f.data|;
            Delivered(file, h.(offset := next, sent := h.sent + [Record(f.stream, f.data, next)]))
  {
    hide FrameAt;
    var next := h.offset + HEADER_SIZE + |f.data|;
    assert Scan(file, h.offset) == [Record(f.stream, f.data, next)] + Scan(file, next);
    ReadReturnsBoundaries(file, h.offset, 0);
  }

  /** Bytes of an append move the end of the records only when they complete the frame. */
  lemma {:induction false} PartialWrite(base: seq<Byte>, frame: Frame, done: nat)
    requires Whole(base) && |frame.data| <= MAX_FRAME_PAYLOAD && done <= |Encode(frame)|
    ensures done < |Encode(frame)| ==> End(base + Encode(frame)[..done], 0) == |base|
    ensures done == |Encode(frame)| ==> Whole(base + Encode(frame)[..done])
  {
    hide Scan, End;
    if done < |Encode(frame)| {
      TornTailAddsNothing(base, frame, done);
    } else {
      assert Encode(frame)[..done] == Encode(frame);
      WholeFrameAddsOne(base, frame);
    }
  }

  // ---------------------------------------------------------------- preservation

  lemma {:induction false} InitInv(s: System)
    requires Init(s)
    ensures Inv(s)
  {
  }

  lemma {:induction false} WriteBytesKeepsInv(s: System, n: nat)
    requires Inv(s)
    ensures Inv(WriterStep(s, WriteBytes(n)))
  {
    hide Scan, End, Encode, Below, Boundary;
    var s' := WriterStep(s, WriteBytes(n));
    if s' != s {
      var Writing(base, frame, done) := s.writer;
      PartialWrite(base, frame, done);
      PartialWrite(base, frame, done + n);
      assert Encode(frame)[..done + n][..done] == Encode(frame)[..done];
      assert s.file <= s'.file;
      forall id | id in s'.handlers ensures Delivered(s'.file, s'.handlers[id]) && PlaceOk(s', s'.handlers[id]) {
        DeliveredSurvivesGrowth(s.file, s'.file, s.handlers[id]);
      }
    }
  }

  /** The other steps of the writer leave the file alone. */
  lemma {:induction false} WriterKeepsInv(s: System, step: Step)
    requires Inv(s) && !step.WriteBytes?
    ensures Inv(WriterStep(s, step))
  {
    hide Scan, End, Encode, Below, Boundary, Delivered, PlaceOk;
    var s' := WriterStep(s, step);
    if s.writer.Writing? {
      PartialWrite(s.writer.base, s.writer.frame, s.writer.done);
    }
    if step.BeginAppend? && s' != s {
      assert s.file + Encode(step.frame)[..0] == s.file;
    }
    forall id | id in s'.handlers ensures Delivered(s'.file, s'.handlers[id]) && PlaceOk(s', s'.handlers[id]) {
      WriterKeepsPlace(s, step, s.handlers[id]);
    }
  }

  lemma {:induction false} WriterKeepsPlace(s: System, step: Step, h: Handler)
    requires Broadcast.Sound(s.chans) && WriterOk(s) && !step.WriteBytes? && PlaceOk(s, h)
    ensures PlaceOk(WriterStep(s, step), h)
  {
    hide Scan, End, Encode, Below, Boundary;
  }

  lemma {:induction false} OtherKeepsInv(s: System, call: Broadcast.Call)
    requires Inv(s) && call.id != EXEC
    ensures Inv(s.(chans := Broadcast.Called(s.chans, call)))
  {
    hide Scan, End, Encode, Below, Boundary;
    var s' := s.(chans := Broadcast.Called(s.chans, call));
    Broadcast.CallKeepsSound(s.chans, call);
    forall id | id in s'.handlers ensures PlaceOk(s', s'.handlers[id]) {
      assert Delivered(s.file, s.handlers[id]);
    }
  }

  lemma {:induction false} HandlerKeepsInv(s: System, step: Step)
    requires Inv(s)
    requires IsHandlerStep(step)
    ensures Inv(HandlerStep(s, step))
  {
    hide Delivered, PlaceOk, Moved;
    if step.id in s.handlers {
      var h := s.handlers[step.id];
      var s' := HandlerStep(s, step);
      Broadcast.CallKeepsSound(s.chans, Broadcast.Wait(EXEC));
      MovedKeepsPlace(s, h, step);
      assert WriterOk(s');
      forall id | id in s'.handlers ensures Delivered(s'.file, s'.handlers[id]) && PlaceOk(s', s'.handlers[id]) {
        PlaceIsOwn(s.(chans := s'.chans), s', s'.handlers[id]);
        if id != step.id {
          WaitKeepsPlace(s, s.handlers[id]);
        }
      }
    }
  }

  /** Where a handler stands does not depend on the other handlers ... */
  lemma {:induction false} PlaceIsOwn(s: System, s': System, h: Handler)
    requires s' == s.(handlers := s'.handlers)
    ensures PlaceOk(s, h) == PlaceOk(s', h)
  {
    hide Scan, End, Boundary;
  }

  /** ... and another handler's Wait leaves it where it was. */
  lemma {:induction false} WaitKeepsPlace(s: System, h: Handler)
    requires PlaceOk(s, h)
    ensures PlaceOk(s.(chans := Broadcast.Waited(s.chans, EXEC)), h)
  {
    hide Scan, End, Boundary;
  }

  lemma {:induction false} MovedKeepsPlace(s: System, h: Handler, step: Step)
    requires Broadcast.Sound(s.chans) && WriterOk(s) && Delivered(s.file, h) && PlaceOk(s, h)
    requires IsHandlerStep(step)
    ensures Delivered(s.file, Moved(s, h, step))
    ensures var chans := if step.WaitStep? && h.pc == Top then Broadcast.Waited(s.chans, EXEC) else s.chans;
            PlaceOk(s.(chans := chans), Moved(s, h, step))
  {
    hide Scan, End, Encode, Below, Boundary, FrameAt;
    CaughtUp(s.file, h.offset);
    if FrameAt(s.file, h.offset).Some? {
      SendingKeepsDelivered(s.file, h, FrameAt(s.file, h.offset).value);
    }
  }

  lemma {:induction false} ConnectKeepsInv(s: System, id: nat, start: nat)
    requires Inv(s)
    ensures Inv(Apply(s, Connect(id, start)))
  {
    hide Scan, End, Encode, Below, Boundary;
    var s' := Apply(s, Connect(id, start));
    forall i | i in s'.handlers ensures Delivered(s'.file, s'.handlers[i]) && PlaceOk(s', s'.handlers[i]) {
      if i in s.handlers { assert Delivered(s.file, s.handlers[i]); }
    }
  }

  /** Cutting a torn tail leaves every handler's delivery as it was. */
  lemma {:induction false} DeliveredSurvivesCut(file: seq<Byte>, h: Handler)
    requires Delivered(file, h)
    ensures Delivered(file[..End(file, 0)], h.(pc := Gone)) && Whole(file[..End(file, 0)])
  {
    hide Scan, End, Below;
    var cut := file[..End(file, 0)];
    CutKeepsRecords(file, 0);
    BoundaryOfExtension(file, cut, h.start);
    BoundaryOfExtension(file, cut, h.offset);
    ScanFromBoundary(file, h.start);
    ScanFromBoundary(file, h.offset);
    CancelPrefix(Below(Scan(file, 0), h.start), Scan(file, h.start), Scan(cut, h.start));
    CancelPrefix(Below(Scan(file, 0), h.offset), Scan(file, h.offset), Scan(cut, h.offset));
  }

  lemma {:induction false} RestartKeepsInv(s: System, repaired: bool)
    requires Inv(s)
    ensures Inv(Restarted(s, repaired))
  {
    hide Scan, End, Boundary;
    var s' := Restarted(s, repaired);
    CutKeepsRecords(s.file, 0);
    forall id | id in s'.handlers ensures Delivered(s'.file, s'.handlers[id]) && PlaceOk(s', s'.handlers[id]) {
      DeliveredSurvivesCut(s.file, s.handlers[id]);
    }
  }

  lemma {:induction false} StepKeepsInv(s: System, step: Step)
    requires Inv(s)
    ensures Inv(Apply(s, step))
  {
    hide Inv, WriterStep, HandlerStep, Restarted;
    match step
    case Restart(repaired) => RestartKeepsInv(s, repaired);
    case OtherExec(call) => if call.id != EXEC { OtherKeepsInv(s, call); }
    case Connect(id, start) => ConnectKeepsInv(s, id, start);
    case WriteBytes(n) => WriteBytesKeepsInv(s, n);
    case WaitStep(_) => HandlerKeepsInv(s, step);
    case SendNext(_) => HandlerKeepsInv(s, step);
    case DrainEnds(_) => HandlerKeepsInv(s, step);
    case GetRow(_) => HandlerKeepsInv(s, step);
    case Wake(_) => HandlerKeepsInv(s, step);
    case Heartbeat(_) => HandlerKeepsInv(s, step);
    case Disconnect(_) => HandlerKeepsInv(s, step);
    case _ => WriterKeepsInv(s, step);
  }

  lemma {:induction false} RunKeepsInv(s: System, steps: seq<Step>)
    requires Init(s)
    ensures Inv(Run(s, steps))
    decreases |steps|
  {
    hide Inv, Init, Apply;
    if steps == [] {
      InitInv(s);
    } else {
      RunKeepsInv(s, steps[..|steps| - 1]);
      StepKeepsInv(Run(s, steps[..|steps| - 1]), steps[|steps| - 1]);
    }
  }

  /** The records of the log only gain a tail, whatever any process does and however often the
      daemon is killed and repairs what it left. */
  lemma {:induction false} RecordsOnlyGrow(s: System, steps: seq<Step>, i: nat)
    requires Init(s) && i <= |steps|
    ensures Scan(Run(s, steps[..i]).file, 0) <= Scan(Run(s, steps).file, 0)
    decreases |steps|
  {
    hide Inv, Init, Apply, Scan;
    if i == |steps| {
      assert steps[..i] == steps;
    } else {
      var init := steps[..|steps| - 1];
      assert init[..i] == steps[..i];
      RecordsOnlyGrow(s, init, i);
      RunKeepsInv(s, init);
      StepGrows(Run(s, init), steps[|steps| - 1]);
    }
  }

  lemma {:induction false} StepGrows(s: System, step: Step)
    requires Inv(s)
    ensures Scan(s.file, 0) <= Scan(Apply(s, step).file, 0)
  {
    hide Scan, End, Boundary, FrameAt, Encode, Moved, Below;
    if step.Restart? {
      CutKeepsRecords(s.file, 0);
    } else {
      WritesAppend(s, step);
      ScanGrows(s.file, Apply(s, step).file, 0);
    }
  }

  lemma {:induction false} WritesAppend(s: System, step: Step)
    requires WriterOk(s) && !step.Restart?
    ensures s.file <= Apply(s, step).file
  {
    hide Scan, End, Boundary, FrameAt, Encode, Moved, Below;
    if step.WriteBytes? && s.writer.Writing? && Apply(s, step) != s {
      var bytes := Encode(s.writer.frame);
      assert bytes[..s.writer.done + step.n][..s.writer.done] == bytes[..s.writer.done];
    }
  }

  // ---------------------------------------------------------------- main results

  /** At every moment of every interleaving a handler has sent the records from its start to its
      cursor: in order, each once, none skipped. */
  lemma {:induction false} DeliveryIsExact(s: System, steps: seq<Step>, id: nat)
    requires Init(s) && id in Run(s, steps).handlers
    ensures var now := Run(s, steps); var h := now.handlers[id];
            && h.sent <= Scan(now.file, h.start)
            && Scan(now.file, h.start) == h.sent + Scan(now.file, h.offset)
  {
    RunKeepsInv(s, steps);
  }

  /** A handler that has sent `exit` has sent exactly the records of the final log from its
      start, and nothing any process does afterwards changes that log. */
  lemma {:induction false} ExitAfterEverything(s: System, steps: seq<Step>, more: seq<Step>, id: nat)
    requires Init(s) && id in Run(s, steps).handlers && Run(s, steps).handlers[id].pc == ExitSent
    ensures var h := Run(s, steps).handlers[id];
            && h.sent == Scan(Run(s, steps).file, h.start)
            && Run(s, steps + more).file == Run(s, steps).file
            && !Run(s, steps).running
  {
    hide Scan, End, Boundary, Run;
    var now := Run(s, steps);
    RunKeepsInv(s, steps);
    CaughtUp(now.file, now.handlers[id].offset);
    FrozenAfterFinish(s, steps, more);
  }

  lemma {:induction false} FrozenAfterFinish(s: System, steps: seq<Step>, more: seq<Step>)
    requires Init(s) && !Run(s, steps).running
    ensures Run(s, steps + more).file == Run(s, steps).file && !Run(s, steps + more).running
    decreases |more|
  {
    hide FrameAt, Encode, Boundary;
    if more == [] {
      assert steps + more == steps;
    } else {
      var init := more[..|more| - 1];
      FrozenAfterFinish(s, steps, init);
      assert (steps + more)[..|steps + more| - 1] == steps + init;
      RunKeepsInv(s, steps + init);
      FinishedDoesNotWrite(Run(s, steps + init), more[|more| - 1]);
    }
  }

  lemma {:induction false} FinishedDoesNotWrite(s: System, step: Step)
    requires WriterOk(s) && !s.running
    ensures Apply(s, step).file == s.file && !Apply(s, step).running
  {
    hide FrameAt, Encode, Boundary, Moved;
  }

  /** No lost wake-up: a handler parked on a channel that is still open, while the writer owes
      no notification, has sent every record there is, and the exec is still running. */
  lemma {:induction false} NoLostWakeUp(s: System, steps: seq<Step>, id: nat)
    requires Init(s) && id in Run(s, steps).handlers
    requires var now := Run(s, steps); var h := now.handlers[id];
             h.pc == Parked && h.wake !in now.chans.closed && !Owes(now.writer)
    ensures var now := Run(s, steps); var h := now.handlers[id];
            now.running && h.sent == Scan(now.file, h.start) && FrameAt(now.file, h.offset) == None
  {
    hide Scan, End, Boundary, Run, FrameAt;
    var now := Run(s, steps);
    RunKeepsInv(s, steps);
    CaughtUp(now.file, now.handlers[id].offset);
  }

  /** A handler holds a channel from its Wait until it starts over or drains for the last time. */
  ghost predicate Holds(h: Handler) {
    h.pc == Draining || h.pc == Getting || h.pc == Parked
  }

  /** While an exec is being started, and when that failed, nobody has been notified: what handlers
      hold is the channel the next notification would close. */
  ghost predicate Unnotified(s: System) {
    s.writer.Starting? || s.writer.Abandoned? ==>
      forall id :: id in s.handlers && Holds(s.handlers[id]) ==>
        EXEC in s.chans.waiters && s.chans.waiters[EXEC] == s.handlers[id].wake
  }

  lemma {:induction false} StepKeepsUnnotified(s: System, step: Step)
    requires Inv(s) && Unnotified(s)
    ensures Unnotified(Apply(s, step))
  {
    hide Inv, Unnotified, WriterStep, HandlerStep, Restarted;
    InvSound(s);
    match step
    case OtherExec(call) => OtherKeepsUnnotified(s, call);
    case Connect(id, start) => ConnectKeepsUnnotified(s, id, start);
    case Restart(repaired) => RestartKeepsUnnotified(s, repaired);
    case _ =>
      if IsHandlerStep(step) {
        HandlerKeepsUnnotified(s, step);
      } else {
        WriterKeepsUnnotified(s, step);
      }
  }

  lemma {:induction false} InvSound(s: System)
    requires Inv(s)
    ensures Broadcast.Sound(s.chans)
  {
    hide Delivered, PlaceOk, WriterOk;
  }

  lemma {:induction false} OtherKeepsUnnotified(s: System, call: Broadcast.Call)
    requires Broadcast.Sound(s.chans) && Unnotified(s)
    ensures Unnotified(Apply(s, OtherExec(call)))
  {
  }

  lemma {:induction false} ConnectKeepsUnnotified(s: System, id: nat, start: nat)
    requires Unnotified(s)
    ensures Unnotified(Apply(s, Connect(id, start)))
  {
    hide Boundary;
  }

  lemma {:induction false} RestartKeepsUnnotified(s: System, repaired: bool)
    ensures Unnotified(Restarted(s, repaired))
  {
    hide End;
  }

  lemma {:induction false} HandlerKeepsUnnotified(s: System, step: Step)
    requires Unnotified(s) && IsHandlerStep(step)
    ensures Unnotified(HandlerStep(s, step))
  {
    hide Moved;
    if step.id in s.handlers {
      MovedHolds(s, s.handlers[step.id], step);
    }
  }

  /** A handler comes to hold a channel only by waiting for the one there is. */
  lemma {:induction false} MovedHolds(s: System, h: Handler, step: Step)
    requires IsHandlerStep(step)
    ensures var h' := Moved(s, h, step);
            Holds(h') ==> (Holds(h) && h'.wake == h.wake) ||
                          (step.WaitStep? && h.pc == Top && h'.wake == Broadcast.WaitChannel(s.chans, EXEC))
  {
    hide FrameAt;
  }

  lemma {:induction false} WriterKeepsUnnotified(s: System, step: Step)
    requires Unnotified(s)
    ensures Unnotified(WriterStep(s, step))
  {
    hide Encode;
  }

  lemma {:induction false} RunKeepsUnnotified(s: System, steps: seq<Step>)
    requires Init(s)
    ensures Unnotified(Run(s, steps))
    decreases |steps|
  {
    hide Inv, Apply, Unnotified;
    if steps == [] {
      InitUnnotified(s);
    } else {
      RunKeepsInv(s, steps[..|steps| - 1]);
      RunKeepsUnnotified(s, steps[..|steps| - 1]);
      StepKeepsUnnotified(Run(s, steps[..|steps| - 1]), steps[|steps| - 1]);
    }
  }

  lemma {:induction false} InitUnnotified(s: System)
    requires Init(s)
    ensures Unnotified(s)
  {
    hide Whole;
  }

  /** Which handlers must wait for their heartbeat to see that an exec has ended: of those parked when
      nothing more will be written, exactly those whose exec's start failed. */
  lemma {:induction false} HeartbeatNeededExactly(s: System, steps: seq<Step>, id: nat)
    requires Init(s) && Over(Run(s, steps), id) && Run(s, steps).handlers[id].pc == Parked
    ensures Run(s, steps).handlers[id].wake !in Run(s, steps).chans.closed <==> Run(s, steps).writer.Abandoned?
    ensures Run(s, steps).writer.Abandoned? ==> Apply(Run(s, steps), Wake(id)) == Run(s, steps)
  {
    hide Scan, End, Boundary, Run, FrameAt;
    var now := Run(s, steps);
    RunKeepsInv(s, steps);
    RunKeepsUnnotified(s, steps);
    assert PlaceOk(now, now.handlers[id]) && Holds(now.handlers[id]);
    if now.writer.Abandoned? {
      assert now.chans.waiters[EXEC] == now.handlers[id].wake;
      assert now.handlers == now.handlers[id := now.handlers[id]];
    }
  }

  /** Once the supervisor is done and the row records it, no handler is left asleep. */
  lemma {:induction false} EveryoneIsWoken(s: System, steps: seq<Step>, id: nat)
    requires Init(s) && id in Run(s, steps).handlers
    requires var now := Run(s, steps); now.writer == Done && !now.running && now.handlers[id].pc == Parked
    ensures Run(s, steps).handlers[id].wake in Run(s, steps).chans.closed
    ensures Apply(Run(s, steps), Wake(id)).handlers[id].pc == Top
  {
    hide Scan, End, Boundary, Run, FrameAt;
    RunKeepsInv(s, steps);
  }

  /** How many own steps a handler is from `exit` once it has sent all there is. */
  ghost function StepsLeft(pc: PC): nat {
    match pc case Parked => 5 case Top => 4 case Draining => 3 case Getting => 2 case LastDrain => 1 case _ => 0
  }

  ghost predicate Over(s: System, id: nat) {
    (s.writer == Done || s.writer.Abandoned?) && !s.running && id in s.handlers && s.handlers[id].pc != Gone
  }

  /** The step a handler takes next when nobody else moves. */
  ghost function OwnStep(s: System, id: nat): Step
    requires id in s.handlers
  {
    match s.handlers[id].pc
    case Top => WaitStep(id)
    case Parked => if s.handlers[id].wake in s.chans.closed then Wake(id) else Heartbeat(id)
    case Getting => GetRow(id)
    case _ => if FrameAt(s.file, s.handlers[id].offset).Some? then SendNext(id) else DrainEnds(id)
  }

  lemma {:induction false} OwnStepAdvances(s: System, id: nat)
    requires Inv(s) && Over(s, id) && s.handlers[id].pc != ExitSent
    ensures var s' := Apply(s, OwnStep(s, id));
            && Over(s', id) && s'.file == s.file && s'.writer == s.writer
            && (OwnStep(s, id) == Heartbeat(id) ==> s.writer.Abandoned?)
            && (s'.handlers[id].offset > s.handlers[id].offset ||
                (s'.handlers[id].offset == s.handlers[id].offset &&
                 StepsLeft(s'.handlers[id].pc) < StepsLeft(s.handlers[id].pc)))
  {
    hide Scan, End, Boundary, FrameAt, Encode, Delivered, WriterOk;
    assert PlaceOk(s, s.handlers[id]);
  }

  ghost predicate OwnSteps(id: nat, own: seq<Step>, heartbeats: bool) {
    forall i :: 0 <= i < |own| ==>
      || own[i] in {WaitStep(id), SendNext(id), DrainEnds(id), GetRow(id), Wake(id)}
      || (heartbeats && own[i] == Heartbeat(id))
  }

  /** From there each handler that is still connected reaches `exit` by its own steps alone; only
      when the exec's start failed may it take a heartbeat to get there. */
  lemma {:induction false} ExitIsReachable(s: System, steps: seq<Step>, id: nat) returns (own: seq<Step>)
    requires Init(s) && Over(Run(s, steps), id)
    ensures id in Run(s, steps + own).handlers && Run(s, steps + own).handlers[id].pc == ExitSent
    ensures OwnSteps(id, own, Run(s, steps).writer.Abandoned?)
    decreases |Run(s, steps).file| - Run(s, steps).handlers[id].offset, StepsLeft(Run(s, steps).handlers[id].pc)
  {
    hide Scan, End, Boundary, FrameAt, Init, Encode, Apply, StepsLeft, Inv, OwnSteps, OwnStep;
    var now := Run(s, steps);
    RunKeepsInv(s, steps);
    if now.handlers[id].pc == ExitSent {
      own := [];
      assert steps + own == steps;
      NoOwnSteps(id, now.writer.Abandoned?);
    } else {
      var step := OwnStep(now, id);
      OwnStepAdvances(now, id);
      assert (steps + [step])[..|steps|] == steps;
      RunKeepsInv(s, steps + [step]);
      CursorOfInv(Run(s, steps + [step]), id);
      var rest := ExitIsReachable(s, steps + [step], id);
      own := [step] + rest;
      assert steps + own == steps + [step] + rest;
      OneOwnStep(now, id, rest);
    }
  }

  lemma {:induction false} NoOwnSteps(id: nat, heartbeats: bool)
    ensures OwnSteps(id, [], heartbeats)
  {
  }

  lemma {:induction false} OneOwnStep(s: System, id: nat, rest: seq<Step>)
    requires id in s.handlers && OwnSteps(id, rest, s.writer.Abandoned?)
    requires OwnStep(s, id) == Heartbeat(id) ==> s.writer.Abandoned?
    ensures OwnSteps(id, [OwnStep(s, id)] + rest, s.writer.Abandoned?)
  {
    hide FrameAt;
  }

  lemma {:induction false} CursorOfInv(s: System, id: nat)
    requires Inv(s) && id in s.handlers
    ensures s.handlers[id].offset <= |s.file|
  {
    hide Boundary, Scan, PlaceOk;
    assert Delivered(s.file, s.handlers[id]);
    CursorInFile(s.file, s.handlers[id].offset);
  }

  lemma {:induction false} CursorInFile(file: seq<Byte>, at: nat)
    requires Boundary(file, at)
    ensures at <= |file|
  {
    hide Scan, End;
    ScanOffsets(file, 0);
  }
}
