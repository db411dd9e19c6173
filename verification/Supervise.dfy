/** From the runtime's byte stream to the log: the 8-byte framing of internal/runtime/docker/demux.go
    and the supervisor of internal/exec/service.go that records it. */
module Supervise {
  import opened Wrappers
  import opened ExecLog

  const DOCKER_HEADER_SIZE: nat := 8
  const DOCKER_MAX_PAYLOAD: nat := 16 * 1024 * 1024

  // ---------------------------------------------------------------- the runtime's stream

  /** How a connection ends: the peer closed it, or reading fails. */
  datatype Ending = PeerClosed | ReadFails

  datatype ReadError = NoReadError | Eof | UnexpectedEof | Broken

  /** A received frame, or an error; what matters of an error is whether it is io.EOF, also
      under a wrapping. */
  datatype Received = Got(frame: Frame) | IsEof | NotEof

  class Wire {
    const bytes: seq<Byte>
    const ending: Ending
    var pos: nat

    ghost predicate Valid() reads this { pos <= |bytes| }

    constructor (bytes: seq<Byte>, ending: Ending)
      ensures this.bytes == bytes && this.ending == ending && pos == 0 && Valid()
    {
      this.bytes, this.ending, pos := bytes, ending, 0;
    }

    /** io.ReadFull: asking for nothing always succeeds, a short read uses up what there is. */
    method ReadFull(n: nat) returns (data: seq<Byte>, err: ReadError)
      requires Valid()
      modifies this
      ensures Valid()
      ensures old(pos) + n <= |bytes| ==> err == NoReadError && pos == old(pos) + n && data == bytes[old(pos)..pos]
      ensures old(pos) + n > |bytes| ==>
                err == ShortRead(bytes, ending, old(pos)) && pos == |bytes| && data == []
    {
      if pos + n <= |bytes| {
        data, err := bytes[pos..pos + n], NoReadError;
        pos := pos + n;
      } else {
        data := [];
        if ending == ReadFails {
          err := Broken;
        } else if pos == |bytes| {
          err := Eof;
        } else {
          err := UnexpectedEof;
        }
        pos := |bytes|;
      }
    }

    /** The closure demux returns. A short header keeps io.EOF bare or reports a truncated
        header; a short payload wraps whatever the read returned. */
    method Recv() returns (r: Received)
      requires Valid()
      modifies this
      ensures Valid() && (r, pos) == RecvAt(bytes, ending, old(pos))
    {
      var header, err := ReadFull(DOCKER_HEADER_SIZE);
      if err != NoReadError {
        return if err == Eof then IsEof else NotEof;
      }
      assert header[4..] == bytes[pos - 4..pos];
      var size := Uint32(header[4..]);
      if size > DOCKER_MAX_PAYLOAD {
        return NotEof;
      }
      var data, dataErr := ReadFull(size);
      if dataErr != NoReadError {
        return if dataErr == Eof then IsEof else NotEof;
      }
      return Got(Frame(if header[0] == 2 then LOG_STDERR else LOG_STDOUT, data));
    }
  }

  function ShortRead(bytes: seq<Byte>, ending: Ending, pos: nat): ReadError {
    if ending == ReadFails then Broken else if pos >= |bytes| then Eof else UnexpectedEof
  }

  function RecvAt(bytes: seq<Byte>, ending: Ending, pos: nat): (r: (Received, nat))
    requires pos <= |bytes|
    ensures pos <= r.1 <= |bytes| && (r.0.Got? ==> pos < r.1)
  {
    if pos + DOCKER_HEADER_SIZE > |bytes| then
      (if ShortRead(bytes, ending, pos) == Eof then IsEof else NotEof, |bytes|)
    else
      var at := pos + DOCKER_HEADER_SIZE;
      var size := Uint32(bytes[at - 4..at]);
      if size > DOCKER_MAX_PAYLOAD then (NotEof, at)
      else if at + size > |bytes| then
        (if ShortRead(bytes, ending, at) == Eof then IsEof else NotEof, |bytes|)
      else (Got(Frame(if bytes[pos] == 2 then LOG_STDERR else LOG_STDOUT, bytes[at..at + size])), at + size)
  }

  /** All the frames of a stream from a position, as log frames, and where the first read that
      returns no frame starts. */
  function StreamFrames(bytes: seq<Byte>, ending: Ending, pos: nat): seq<Frame>
    requires pos <= |bytes|
    decreases |bytes| - pos
  {
    var (r, next) := RecvAt(bytes, ending, pos);
    if r.Got? then [r.frame] + StreamFrames(bytes, ending, next) else []
  }

  function StreamStop(bytes: seq<Byte>, ending: Ending, pos: nat): (stop: nat)
    requires pos <= |bytes|
    ensures pos <= stop <= |bytes|
    decreases |bytes| - pos
  {
    var (r, next) := RecvAt(bytes, ending, pos);
    if r.Got? then StreamStop(bytes, ending, next) else pos
  }

  /** Whether the stream ends in an error the supervisor does not take for a clean end. */
  function EndsInError(bytes: seq<Byte>, ending: Ending): bool {
    RecvAt(bytes, ending, StreamStop(bytes, ending, 0)).0 == NotEof
  }

  /** The stream is whole: it stops at a frame boundary and the peer closed it. */
  predicate EndsWhole(bytes: seq<Byte>, ending: Ending) {
    ending == PeerClosed && StreamStop(bytes, ending, 0) == |bytes|
  }

  /** The stream stops right behind the header of a frame that announced a payload. */
  predicate EndsBehindHeader(bytes: seq<Byte>, ending: Ending) {
    var stop := StreamStop(bytes, ending, 0);
    ending == PeerClosed && stop + DOCKER_HEADER_SIZE == |bytes| &&
    0 < Uint32(bytes[|bytes| - 4..]) <= DOCKER_MAX_PAYLOAD
  }

  lemma {:induction false} StopIsNoFrame(bytes: seq<Byte>, ending: Ending, pos: nat)
    requires pos <= |bytes|
    ensures !RecvAt(bytes, ending, StreamStop(bytes, ending, pos)).0.Got?
    decreases |bytes| - pos
  {
    hide RecvAt;
    var (r, next) := RecvAt(bytes, ending, pos);
    if r.Got? {
      StopIsNoFrame(bytes, ending, next);
    }
  }

  /** A broken end is noticed exactly when the stream is not whole and does not stop right behind
      a header: there the payload read returns a bare io.EOF, and the wrapping keeps it. */
  lemma {:induction false} BrokenEndIsNoticedExactly(bytes: seq<Byte>, ending: Ending)
    ensures EndsInError(bytes, ending) <==> !EndsWhole(bytes, ending) && !EndsBehindHeader(bytes, ending)
  {
    StopIsNoFrame(bytes, ending, 0);
    var stop := StreamStop(bytes, ending, 0);
    hide StreamStop;
    if stop + DOCKER_HEADER_SIZE == |bytes| {
      assert bytes[stop + DOCKER_HEADER_SIZE - 4..stop + DOCKER_HEADER_SIZE] == bytes[|bytes| - 4..];
    }
  }

  /** So an incomplete stream can end with no error: five bytes announced, none delivered. */
  lemma {:induction false} TornStreamTakenAsClean()
    ensures var bytes: seq<Byte> := [1, 0, 0, 0, 0, 0, 0, 5];
            !EndsWhole(bytes, PeerClosed) && !EndsInError(bytes, PeerClosed)
  {
    var bytes: seq<Byte> := [1, 0, 0, 0, 0, 0, 0, 5];
    assert bytes[4..8] == [0, 0, 0, 5];
    assert StreamStop(bytes, PeerClosed, 0) == 0;
  }

  // ---------------------------------------------------------------- the framing, read and written

  /** One write of the runtime: the stream it is on, three bytes that mean nothing, the payload's
      length and the payload. */
  datatype Chunk = Chunk(stream: Byte, pad: seq<Byte>, payload: seq<Byte>) {
    ghost predicate Valid() { |pad| == 3 && |payload| <= DOCKER_MAX_PAYLOAD }
  }

  function Framed(c: Chunk): (bytes: seq<Byte>)
    requires c.Valid()
    ensures |bytes| == DOCKER_HEADER_SIZE + |c.payload|
  {
    [c.stream] + c.pad + PutUint32(|c.payload|) + c.payload
  }

  ghost predicate AllValid(cs: seq<Chunk>) {
    forall i :: 0 <= i < |cs| ==> cs[i].Valid()
  }

  function FramedAll(cs: seq<Chunk>): seq<Byte>
    requires AllValid(cs)
  {
    if cs == [] then [] else Framed(cs[0]) + FramedAll(cs[1..])
  }

  /** Round trip of the runtime's framing: for whatever it writes, the log gets one frame for each
      chunk, in order and with its payload, on standard error exactly for stream byte 2; and the
      stream is whole. */
  lemma {:induction false} FramesAreDelivered(cs: seq<Chunk>)
    requires AllValid(cs)
    ensures var fs := StreamFrames(FramedAll(cs), PeerClosed, 0);
            && |fs| == |cs|
            && forall i :: 0 <= i < |cs| ==>
                 && fs[i].data == cs[i].payload
                 && (fs[i].stream == LOG_STDERR <==> cs[i].stream == 2)
                 && (fs[i].stream == LOG_STDOUT <==> cs[i].stream != 2)
    ensures EndsWhole(FramedAll(cs), PeerClosed) && !EndsInError(FramedAll(cs), PeerClosed)
  {
    assert [] + FramedAll(cs) == FramedAll(cs);
    DeliveredFrom([], cs);
    BrokenEndIsNoticedExactly(FramedAll(cs), PeerClosed);
  }

  lemma {:induction false} DeliveredFrom(pre: seq<Byte>, cs: seq<Chunk>)
    requires AllValid(cs)
    ensures var bytes := pre + FramedAll(cs); var fs := StreamFrames(bytes, PeerClosed, |pre|);
            && |fs| == |cs| && StreamStop(bytes, PeerClosed, |pre|) == |bytes|
            && forall i :: 0 <= i < |cs| ==> Carries(fs[i], cs[i])
    decreases |cs|
  {
    hide RecvAt, Framed;
    var bytes := pre + FramedAll(cs);
    StreamStep(bytes, PeerClosed, |pre|);
    if cs == [] {
      NothingLeft(bytes);
    } else {
      var head, rest := Framed(cs[0]), FramedAll(cs[1..]);
      assert bytes == pre + head + rest;
      ReceivesChunk(pre, cs[0], rest);
      DeliveredFrom(pre + head, cs[1..]);
      var fs := StreamFrames(bytes, PeerClosed, |pre|);
      forall i | 0 <= i < |cs| ensures Carries(fs[i], cs[i]) {
        if i > 0 { assert fs[i] == fs[1..][i - 1] && cs[i] == cs[1..][i - 1]; }
      }
    }
  }

  ghost predicate Carries(f: Frame, c: Chunk) {
    && f.data == c.payload
    && (f.stream == LOG_STDERR <==> c.stream == 2) && (f.stream == LOG_STDOUT <==> c.stream != 2)
  }

  lemma {:induction false} NothingLeft(bytes: seq<Byte>)
    ensures RecvAt(bytes, PeerClosed, |bytes|) == (IsEof, |bytes|)
  {
  }

  lemma {:induction false} ReceivesChunk(pre: seq<Byte>, c: Chunk, post: seq<Byte>)
    requires c.Valid()
    ensures var bytes := pre + Framed(c) + post; var (r, next) := RecvAt(bytes, PeerClosed, |pre|);
            r.Got? && Carries(r.frame, c) && next == |pre + Framed(c)|
  {
    var bytes, at := pre + Framed(c) + post, |pre| + DOCKER_HEADER_SIZE;
    Uint32RoundTrip(|c.payload|);
    hide PutUint32, Uint32;
    assert bytes[at - 4..at] == PutUint32(|c.payload|);
    assert bytes[|pre|] == c.stream && bytes[at..at + |c.payload|] == c.payload;
  }

  // ---------------------------------------------------------------- the supervisor

  const GAP_FRAME := Frame(LOG_GAP, [])

  /** Appending frame after frame, stopping at the first error; k counts the append calls. */
  ghost function Fed(s: LogState, fs: seq<Frame>, disk: nat -> Disk, k: nat): (LogState, bool)
    decreases |fs|
  {
    if fs == [] then (s, false)
    else
      var s' := AppendSpec(s, fs[0], disk(k));
      if AppendErrorSpec(s, fs[0], disk(k)) != NoError then (s', true) else Fed(s', fs[1..], disk, k + 1)
  }

  /** The log a supervisor leaves, and whether one of its appends failed. */
  ghost function Supervised(s: LogState, fs: seq<Frame>, error: bool, disk: nat -> Disk): (LogState, bool) {
    var (s', failed) := Fed(s, fs, disk, 0);
    if failed || !error then (s', failed)
    else (AppendSpec(s', GAP_FRAME, disk(|fs|)), AppendErrorSpec(s', GAP_FRAME, disk(|fs|)) != NoError)
  }

  datatype ExecState = Exited | Failed

  datatype Outcome = Outcome(state: ExecState, exitCode: Option<int>, outputBytes: nat, truncated: bool)

  /** wait is the exit code the runtime reports, or none when waiting fails. */
  function OutcomeFor(appendFailed: bool, wait: Option<int>): (ExecState, Option<int>) {
    if wait.None? || appendFailed then (ExecState.Failed, None) else (Exited, wait)
  }

  method Run(wire: Wire, f: LogFile, maxBytes: int, fault: OpenFault, disk: nat -> Disk, wait: Option<int>)
    returns (out: Outcome)
    requires wire.Valid() && wire.pos == 0 && f.Valid()
    modifies wire, f
    ensures f.Valid()
    ensures var opens := fault == NoFault || (fault == ScanFails && old(f.data) == []);
            var (log, failed) := Supervised(OpenSpec(old(f.data), maxBytes), StreamFrames(wire.bytes, wire.ending, 0),
                                            EndsInError(wire.bytes, wire.ending), disk);
            if opens then
              && f.data == log.file
              && out == Outcome(OutcomeFor(failed, wait).0, OutcomeFor(failed, wait).1, log.offset, log.truncated)
            else f.data == old(f.data) && out == Outcome(ExecState.Failed, None, 0, false)
    ensures out.state == Exited ==>
              && wait.Some? && out.exitCode == wait && out.outputBytes == |f.data|
              && (out.truncated <==>
                  Frames(Scan(f.data, 0)) != Frames(Scan(old(f.data), 0)) + StreamFrames(wire.bytes, wire.ending, 0) +
                                             (if EndsInError(wire.bytes, wire.ending) then [GAP_FRAME] else []))
    ensures Works(disk) && fault == NoFault ==>
              (out.state == Exited <==> wait.Some? && AllFit(StreamFrames(wire.bytes, wire.ending, 0)))
  {
    hide RecvAt, AppendSpec, AppendErrorSpec, Fed, StreamFrames, StreamStop, Scan, End, AllFit, Works;
    ghost var was := f.data;
    var writer := NewLogWriter(f, maxBytes, fault);
    if writer == null {
      return Outcome(ExecState.Failed, None, 0, false);
    }
    var appendFailed := false;
    ghost var all := StreamFrames(wire.bytes, wire.ending, 0);
    ghost var start := writer.State();
    assert start == OpenSpec(was, maxBytes) && all[0..] == all;
    var k: nat := 0;
    while true
      invariant writer.f == f && writer.Valid() && wire.Valid() && !appendFailed && k <= |all|
      invariant fresh(writer) && writer.maxBytes == maxBytes
      invariant StreamFrames(wire.bytes, wire.ending, wire.pos) == all[k..]
      invariant StreamStop(wire.bytes, wire.ending, wire.pos) == StreamStop(wire.bytes, wire.ending, 0)
      invariant Fed(start, all, disk, 0) == Fed(writer.State(), all[k..], disk, k)
      decreases |wire.bytes| - wire.pos
    {
      ghost var at := wire.pos;
      StreamStep(wire.bytes, wire.ending, at);
      FedStep(writer.State(), all[k..], disk, k);
      var r := wire.Recv();
      if !r.Got? {
        assert all[k..] == [] && StreamStop(wire.bytes, wire.ending, 0) == at;
        assert k == |all|;
        if r == NotEof {
          var _, gapErr := writer.Append(LOG_GAP, [], disk(k));
          if gapErr != NoError {
            appendFailed := true;
          }
        }
        break;
      }
      assert all[k] == all[k..][0] == r.frame && all[k..][1..] == all[k + 1..];
      var _, err := writer.Append(r.frame.stream, r.frame.data, disk(k));
      if err != NoError {
        appendFailed := true;
        break;
      }
      k := k + 1;
    }
    var (state, exitCode) := OutcomeFor(appendFailed, wait);
    out := Outcome(state, exitCode, writer.offset, writer.truncated);
    ExitedMeansRecorded(was, maxBytes, all, EndsInError(wire.bytes, wire.ending), disk, wait);
  }

  lemma {:induction false} StreamStep(bytes: seq<Byte>, ending: Ending, pos: nat)
    requires pos <= |bytes|
    ensures var (r, next) := RecvAt(bytes, ending, pos);
            && StreamFrames(bytes, ending, pos) ==
               (if r.Got? then [r.frame] + StreamFrames(bytes, ending, next) else [])
            && StreamStop(bytes, ending, pos) == (if r.Got? then StreamStop(bytes, ending, next) else pos)
  {
    hide RecvAt;
  }

  lemma {:induction false} FedStep(s: LogState, fs: seq<Frame>, disk: nat -> Disk, k: nat)
    ensures Fed(s, fs, disk, k) ==
            if fs == [] then (s, false)
            else if AppendErrorSpec(s, fs[0], disk(k)) != NoError then (AppendSpec(s, fs[0], disk(k)), true)
            else Fed(AppendSpec(s, fs[0], disk(k)), fs[1..], disk, k + 1)
  {
    hide AppendSpec, AppendErrorSpec;
  }

  // ---------------------------------------------------------------- the log is a bounded prefix

  /** How many of the frames reach the log in full. */
  ghost function Taken(s: LogState, fs: seq<Frame>, disk: nat -> Disk, k: nat): (n: nat)
    ensures n <= |fs|
    decreases |fs|
  {
    if fs == [] then 0
    else
      var e := LogEvent.Append(fs[0], disk(k));
      if AppendErrorSpec(s, fs[0], disk(k)) != NoError then |FullyWritten(s, e)|
      else if FullyWritten(s, e) == [] then 0
      else 1 + Taken(Step(s, e), fs[1..], disk, k + 1)
  }

  /** Once a frame has been dropped for want of room, no later append writes or clears that. */
  lemma {:induction false} NothingAfterADrop(s: LogState, fs: seq<Frame>, disk: nat -> Disk, k: nat)
    requires s.truncated
    ensures Fed(s, fs, disk, k).0 == s && Taken(s, fs, disk, k) == 0
    decreases |fs|
  {
    hide Encode;
    if fs != [] {
      NothingAfterADrop(s, fs[1..], disk, k + 1);
    }
  }

  lemma {:induction false} SizeStaysBounded(s: LogState, f: Frame, disk: Disk)
    requires Sound(s)
    ensures |AppendSpec(s, f, disk).file| <= (if s.maxBytes > |s.file| then s.maxBytes else |s.file|)
    ensures AppendSpec(s, f, disk).maxBytes == s.maxBytes
    ensures |AppendSpec(s, f, disk).file| >= |s.file|
  {
    hide End, Encode;
  }

  /** What was appended is a prefix of the frames; it falls short only when a frame was dropped
      for want of room or an append failed; and the file stays within its bound. */
  lemma {:induction false} FedTakesPrefix(s: LogState, fs: seq<Frame>, disk: nat -> Disk, k: nat)
    requires Sound(s) && s.phase == Healthy
    ensures var (s', failed) := Fed(s, fs, disk, k);
            && Sound(s') && s'.maxBytes == s.maxBytes && (!failed ==> s'.phase == Healthy)
            && Frames(Scan(s'.file, 0)) == Frames(Scan(s.file, 0)) + fs[..Taken(s, fs, disk, k)]
            && (Taken(s, fs, disk, k) < |fs| && !failed ==> s'.truncated)
            && (s'.truncated && !s.truncated ==> Taken(s, fs, disk, k) < |fs|)
            && |s.file| <= |s'.file| <= (if s.maxBytes > |s.file| then s.maxBytes else |s.file|)
    decreases |fs|
  {
    hide Scan, End, Encode, AppendSpec, AppendErrorSpec, FullyWritten, Sound;
    if fs == [] {
      assert fs[..0] == [];
    } else {
      var e := LogEvent.Append(fs[0], disk(k));
      var next := AppendSpec(s, fs[0], disk(k));
      StepKeepsRecords(s, e);
      SizeStaysBounded(s, fs[0], disk(k));
      AppendDrops(s, fs[0], disk(k));
      if AppendErrorSpec(s, fs[0], disk(k)) == NoError {
        FedTakesPrefix(next, fs[1..], disk, k + 1);
        if FullyWritten(s, e) == [] {
          NothingAfterADrop(next, fs[1..], disk, k + 1);
        } else {
          var n := Taken(next, fs[1..], disk, k + 1);
          assert fs[..1 + n] == [fs[0]] + fs[1..][..n];
        }
      } else {
        assert fs[..|FullyWritten(s, e)|] == FullyWritten(s, e);
      }
    }
  }

  lemma {:induction false} AppendDrops(s: LogState, f: Frame, disk: Disk)
    requires s.phase == Healthy
    ensures FullyWritten(s, LogEvent.Append(f, disk)) in {[], [f]}
    ensures AppendErrorSpec(s, f, disk) == NoError ==>
              && AppendSpec(s, f, disk).phase == Healthy
              && (FullyWritten(s, LogEvent.Append(f, disk)) == [] ==> AppendSpec(s, f, disk).truncated)
    ensures AppendErrorSpec(s, f, disk) != NoError || FullyWritten(s, LogEvent.Append(f, disk)) != [] ==>
              AppendSpec(s, f, disk).truncated == s.truncated
  {
    hide Encode;
  }

  /** The whole run of one supervisor over a log it opens: a prefix of the frames, then at most
      one gap, which needs a noticed broken end, every frame taken and room for it. */
  lemma {:induction false} LogIsBoundedPrefix(
      file: seq<Byte>, maxBytes: int, fs: seq<Frame>, error: bool, disk: nat -> Disk)
    returns (n: nat, gap: seq<Frame>)
    ensures n <= |fs| && gap in {[], [GAP_FRAME]}
    ensures var initial := OpenSpec(file, maxBytes);
            var (s', failed) := Supervised(initial, fs, error, disk);
            && Frames(Scan(s'.file, 0)) == Frames(Scan(file, 0)) + fs[..n] + gap
            && (n < |fs| ==> s'.truncated || failed)
            && (s'.truncated ==> n < |fs| || (error && gap == []))
            && (gap != [] ==> error && n == |fs| && !s'.truncated)
            && (error && !failed && !s'.truncated ==> gap == [GAP_FRAME])
            && (!failed ==> s'.offset == |s'.file|)
            && |s'.file| <= (if maxBytes > |initial.file| then maxBytes else |initial.file|)
  {
    var initial := OpenSpec(file, maxBytes);
    OpenIsSound(file, maxBytes);
    CutKeepsRecords(file, 0);
    FedTakesPrefix(initial, fs, disk, 0);
    hide Scan, End, Encode, Sound, AppendSpec, AppendErrorSpec, FullyWritten, Taken;
    n, gap := Taken(initial, fs, disk, 0), [];
    var (mid, failed) := Fed(initial, fs, disk, 0);
    if error && !failed {
      gap := GapAppended(mid, disk(|fs|));
    }
  }

  lemma {:induction false} GapAppended(s: LogState, disk: Disk) returns (gap: seq<Frame>)
    requires Sound(s) && s.phase == Healthy
    ensures gap in {[], [GAP_FRAME]}
    ensures var s' := AppendSpec(s, GAP_FRAME, disk);
            && Frames(Scan(s'.file, 0)) == Frames(Scan(s.file, 0)) + gap
            && (gap != [] ==> !s.truncated && !s'.truncated)
            && (s.truncated ==> s'.truncated)
            && (AppendErrorSpec(s, GAP_FRAME, disk) == NoError && !s'.truncated ==> gap == [GAP_FRAME])
            && (AppendErrorSpec(s, GAP_FRAME, disk) == NoError ==> s'.offset == |s'.file|)
            && |s'.file| <= (if s.maxBytes > |s.file| then s.maxBytes else |s.file|)
  {
    hide Scan, End, Encode;
    var e := LogEvent.Append(GAP_FRAME, disk);
    StepKeepsRecords(s, e);
    SizeStaysBounded(s, GAP_FRAME, disk);
    gap := FullyWritten(s, e);
  }

  // ---------------------------------------------------------------- with a working disk

  ghost function TotalSize(fs: seq<Frame>): nat {
    if fs == [] then 0 else HEADER_SIZE + |fs[0].data| + TotalSize(fs[1..])
  }

  ghost predicate Works(disk: nat -> Disk) {
    forall k :: disk(k) == GOOD_DISK
  }

  /** With a disk that works an append fails if and only if some frame is too large for the log, also
      when room has run out before it. */
  lemma {:induction false} AppendFailsExactlyWhenTooLarge(s: LogState, fs: seq<Frame>, disk: nat -> Disk, k: nat)
    requires s.phase == Healthy && Works(disk)
    ensures Fed(s, fs, disk, k).1 <==> !AllFit(fs)
    decreases |fs|
  {
    hide Encode, AllFit;
    AllFitSplit(fs);
    if fs != [] {
      AppendWorks(s, fs[0], disk(k));
      hide AppendSpec, AppendErrorSpec;
      if |fs[0].data| <= MAX_FRAME_PAYLOAD {
        AppendFailsExactlyWhenTooLarge(AppendSpec(s, fs[0], disk(k)), fs[1..], disk, k + 1);
      }
    }
  }

  lemma {:induction false} AllFitSplit(fs: seq<Frame>)
    ensures AllFit(fs) <==> fs == [] || (|fs[0].data| <= MAX_FRAME_PAYLOAD && AllFit(fs[1..]))
  {
    if fs != [] && AllFit(fs[1..]) {
      forall i | 0 < i < |fs| ensures |fs[i].data| <= MAX_FRAME_PAYLOAD {
        assert fs[i] == fs[1..][i - 1];
      }
    }
  }

  lemma {:induction false} AppendWorks(s: LogState, f: Frame, disk: Disk)
    requires s.phase == Healthy && disk == GOOD_DISK
    ensures AppendErrorSpec(s, f, disk) == (if |f.data| > MAX_FRAME_PAYLOAD then PayloadTooLarge else NoError)
    ensures AppendSpec(s, f, disk).phase == Healthy
  {
    hide PutUint32;
  }

  /** With a disk that works, exactly the longest prefix of frames is recorded that fits the bound
      and has no frame too large for the log; truncated says that the frame behind it was dropped
      for want of room. */
  lemma {:induction false} LongestPrefixThatFits(s: LogState, fs: seq<Frame>, disk: nat -> Disk, k: nat)
    requires Sound(s) && s.phase == Healthy && !s.truncated && Works(disk)
    ensures var n := Taken(s, fs, disk, k);
            Fed(s, fs, disk, k).0.truncated <==> n < |fs| && |fs[n].data| <= MAX_FRAME_PAYLOAD
    ensures forall n :: 0 <= n <= |fs| ==>
              (n <= Taken(s, fs, disk, k) <==>
               n == 0 || (AllFit(fs[..n]) && s.offset + TotalSize(fs[..n]) <= s.maxBytes))
    decreases |fs|
  {
    hide Scan, End, Encode, AllFit;
    if fs != [] {
      var f, rest := fs[0], fs[1..];
      var next := AppendSpec(s, f, disk(k));
      AppendIsSound(s, f, disk(k));
      if Accepts(s, |f.data|) {
        LongestPrefixThatFits(next, rest, disk, k + 1);
      } else if |f.data| <= MAX_FRAME_PAYLOAD {
        NothingAfterADrop(next, rest, disk, k + 1);
      }
      forall n | 0 <= n <= |fs|
        ensures n <= Taken(s, fs, disk, k) <==>
                n == 0 || (AllFit(fs[..n]) && s.offset + TotalSize(fs[..n]) <= s.maxBytes)
      {
        if n > 0 {
          AllFitSplit(fs[..n]);
          assert fs[..n][0] == f && fs[..n][1..] == rest[..n - 1];
          AllFitSplit([]);
        }
      }
    }
  }

  // ---------------------------------------------------------------- the verdict

  /** What a row says of its log: an exec that exited has the runtime's code, and all the frames
      received are recorded, with a gap behind them for a broken end, if and only if the row does not
      say truncated; with a working disk it fails exactly if waiting failed or a frame was too large,
      and its output bytes are the size of the log. */
  lemma {:induction false} ExitedMeansRecorded(
      file: seq<Byte>, maxBytes: int, fs: seq<Frame>, error: bool, disk: nat -> Disk, wait: Option<int>)
    ensures var (log, failed) := Supervised(OpenSpec(file, maxBytes), fs, error, disk);
            var (state, code) := OutcomeFor(failed, wait);
            && (state == Exited ==> wait.Some? && code == wait)
            && (state == Exited ==> (log.truncated <==>
                  Frames(Scan(log.file, 0)) != Frames(Scan(file, 0)) + fs + (if error then [GAP_FRAME] else [])))
            && (state == Exited ==> log.offset == |log.file|)
            && (state == ExecState.Failed ==> code == None)
            && (Works(disk) ==> (state == Exited <==> wait.Some? && AllFit(fs)))
  {
    var n, gap := LogIsBoundedPrefix(file, maxBytes, fs, error, disk);
    WorkingSupervisor(file, maxBytes, fs, error, disk);
    hide Scan, Supervised, OpenSpec, AllFit, Works;
    assert n == |fs| ==> fs[..n] == fs;
  }

  lemma {:induction false} WorkingSupervisor(
      file: seq<Byte>, maxBytes: int, fs: seq<Frame>, error: bool, disk: nat -> Disk)
    ensures Works(disk) ==> (Supervised(OpenSpec(file, maxBytes), fs, error, disk).1 <==> !AllFit(fs))
  {
    var start := OpenSpec(file, maxBytes);
    if Works(disk) {
      AppendFailsExactlyWhenTooLarge(start, fs, disk, 0);
      OpenIsSound(file, maxBytes);
      FedTakesPrefix(start, fs, disk, 0);
      hide Scan, AllFit, Fed, OpenSpec, AppendSpec, AppendErrorSpec;
      if !Fed(start, fs, disk, 0).1 {
        AppendWorks(Fed(start, fs, disk, 0).0, GAP_FRAME, disk(|fs|));
      }
    }
  }
}
