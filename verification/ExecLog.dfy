/** The framed, append-only output log of one exec (internal/exec/log.go): the byte format,
    the reader, the repair of a torn tail, and the writer with its size bound and its failures. */
module ExecLog {
  import opened Wrappers

  type Byte = b: int | 0 <= b < 256

  const MAX_FRAME_PAYLOAD: nat := 65536
  const HEADER_SIZE: nat := 5
  const LOG_STDOUT: Byte := 1
  const LOG_STDERR: Byte := 2
  const LOG_GAP: Byte := 3

  datatype Frame = Frame(stream: Byte, data: seq<Byte>)

  datatype Record = Record(stream: Byte, data: seq<Byte>, offset: nat) {
    function ToFrame(): Frame { Frame(stream, data) }
  }

  // ---------------------------------------------------------------- the wire format

  /** binary.BigEndian.PutUint32: lengths are below 2^32. */
  function PutUint32(n: nat): seq<Byte>
    requires n < 0x1_0000_0000
  {
    [n / 0x100_0000, n / 0x1_0000 % 256, n / 0x100 % 256, n % 256]
  }

  function Uint32(b: seq<Byte>): nat
    requires |b| == 4
  {
    b[0] as int * 0x100_0000 + b[1] as int * 0x1_0000 + b[2] as int * 0x100 + b[3] as int
  }

  function Encode(f: Frame): (r: seq<Byte>)
    requires |f.data| <= MAX_FRAME_PAYLOAD
    ensures |r| == HEADER_SIZE + |f.data|
  {
    [f.stream] + PutUint32(|f.data|) + f.data
  }

  ghost predicate AllFit(fs: seq<Frame>) {
    forall i :: 0 <= i < |fs| ==> |fs[i].data| <= MAX_FRAME_PAYLOAD
  }

  function EncodeAll(fs: seq<Frame>): seq<Byte>
    requires AllFit(fs)
  {
    if fs == [] then [] else Encode(fs[0]) + EncodeAll(fs[1..])
  }

  // ---------------------------------------------------------------- what a reader sees

  /** The complete frame that starts at an offset, if the bytes there are one. */
  function FrameAt(file: seq<Byte>, at: nat): (r: Option<Frame>)
    ensures r.Some? ==> |r.value.data| <= MAX_FRAME_PAYLOAD && at + HEADER_SIZE + |r.value.data| <= |file|
  {
    if at + HEADER_SIZE > |file| then None
    else
      var n := Uint32(file[at + 1..at + HEADER_SIZE]);
      if n > MAX_FRAME_PAYLOAD || at + HEADER_SIZE + n > |file| then None
      else Some(Frame(file[at], file[at + HEADER_SIZE..at + HEADER_SIZE + n]))
  }

  /** All the records from an offset on: the sequence a reader of the whole file ends up with. */
  function Scan(file: seq<Byte>, from: nat): seq<Record>
    decreases if from <= |file| then |file| - from else 0
  {
    match FrameAt(file, from)
    case None => []
    case Some(f) =>
      var next := from + HEADER_SIZE + |f.data|;
      [Record(f.stream, f.data, next)] + Scan(file, next)
  }

  /** Where a scan from an offset stops. */
  function End(file: seq<Byte>, from: nat): (r: nat)
    ensures r >= from
    ensures from <= |file| ==> r <= |file|
    decreases if from <= |file| then |file| - from else 0
  {
    match FrameAt(file, from)
    case None => from
    case Some(f) => End(file, from + HEADER_SIZE + |f.data|)
  }

  function Frames(rs: seq<Record>): (fs: seq<Frame>)
    ensures |fs| == |rs|
  {
    seq(|rs|, i requires 0 <= i < |rs| => rs[i].ToFrame())
  }

  /** The offsets handed to clients: the start of the file and the end of each complete record. */
  ghost predicate Boundary(file: seq<Byte>, at: nat) {
    at == 0 || exists i :: 0 <= i < |Scan(file, 0)| && Scan(file, 0)[i].offset == at
  }

  /** The complete records that lie below an offset. */
  function Below(rs: seq<Record>, at: nat): seq<Record> {
    if rs == [] || rs[0].offset > at then [] else [rs[0]] + Below(rs[1..], at)
  }

  /** A file made of complete frames only. */
  ghost predicate Whole(file: seq<Byte>) {
    End(file, 0) == |file|
  }

  // ---------------------------------------------------------------- lemmas about scans

  lemma {:induction false} Uint32RoundTrip(n: nat)
    requires n < 0x1_0000_0000
    ensures Uint32(PutUint32(n)) == n
  {
    var a, b, c := n / 0x100, n / 0x1_0000, n / 0x100_0000;
    assert n == a * 0x100 + n % 0x100;
    assert b == a / 0x100 && a == b * 0x100 + a % 0x100;
    assert c == b / 0x100 && b == c * 0x100 + b % 0x100;
  }

  /** Big-endian: each byte weighs 256 times the one behind it. */
  lemma {:induction false} Uint32IsBigEndian(a: Byte, b: Byte, c: Byte, d: Byte)
    ensures Uint32([0, 0, 0, d]) == d && Uint32([a, b, c, d]) < 0x1_0000_0000
    ensures a == 0 ==> Uint32([b, c, d, 0]) == 256 * Uint32([a, b, c, d])
    ensures Uint32([a, b, c, d]) == Uint32([a, b, c, 0]) + d
  {
  }

  lemma {:induction false} PutOfUint32(b: seq<Byte>)
    requires |b| == 4
    ensures Uint32(b) < 0x1_0000_0000 && PutUint32(Uint32(b)) == b
  {
    var n := Uint32(b);
    var h2: int := b[0] as int * 0x100 + b[1];
    var h3: int := h2 * 0x100 + b[2];
    assert n == h3 * 0x100 + b[3];
    assert n / 0x100 == h3 && h3 / 0x100 == h2 && h2 / 0x100 == b[0];
    assert n / 0x1_0000 == h2 && n / 0x100_0000 == b[0];
  }

  /** Appending bytes never changes a frame that is already complete. */
  lemma {:induction false} FrameAtStable(file: seq<Byte>, file': seq<Byte>, at: nat)
    requires file <= file' && FrameAt(file, at).Some?
    ensures FrameAt(file', at) == FrameAt(file, at)
  {
    assert file'[at + 1..at + HEADER_SIZE] == file[at + 1..at + HEADER_SIZE];
    var n := Uint32(file[at + 1..at + HEADER_SIZE]);
    assert file'[at + HEADER_SIZE..at + HEADER_SIZE + n] == file[at + HEADER_SIZE..at + HEADER_SIZE + n];
  }

  /** A frame that lies within a prefix of the file is a frame of the prefix. */
  lemma {:induction false} FrameAtInPrefix(file: seq<Byte>, m: nat, at: nat)
    requires m <= |file| && FrameAt(file, at).Some?
    requires at + HEADER_SIZE + |FrameAt(file, at).value.data| <= m
    ensures FrameAt(file[..m], at) == FrameAt(file, at)
  {
    assert file[..m][at + 1..at + HEADER_SIZE] == file[at + 1..at + HEADER_SIZE];
    var n := Uint32(file[at + 1..at + HEADER_SIZE]);
    assert file[..m][at + HEADER_SIZE..at + HEADER_SIZE + n] == file[at + HEADER_SIZE..at + HEADER_SIZE + n];
  }

  /** Reading the header first and the payload after it finds the same frame. */
  lemma {:induction false} ParsedFrame(file: seq<Byte>, at: nat, header: seq<Byte>)
    requires at + HEADER_SIZE <= |file| && header == file[at..at + HEADER_SIZE]
    ensures var n := Uint32(header[1..]);
            FrameAt(file, at) ==
            if n > MAX_FRAME_PAYLOAD || at + HEADER_SIZE + n > |file| then None
            else Some(Frame(header[0], file[at + HEADER_SIZE..at + HEADER_SIZE + n]))
  {
    hide Uint32;
    assert header[1..] == file[at + 1..at + HEADER_SIZE];
  }

  lemma {:induction false} ScanStep(file: seq<Byte>, at: nat)
    ensures match FrameAt(file, at)
            case None => Scan(file, at) == []
            case Some(f) =>
              var next := at + HEADER_SIZE + |f.data|;
              Scan(file, at) == [Record(f.stream, f.data, next)] + Scan(file, next)
  {
    hide FrameAt;
  }

  lemma {:induction false} ScanPastEnd(file: seq<Byte>, at: nat)
    requires at + HEADER_SIZE > |file|
    ensures Scan(file, at) == []
  {
  }

  lemma {:induction false} FrameBytes(file: seq<Byte>, at: nat)
    requires FrameAt(file, at).Some?
    ensures var f := FrameAt(file, at).value;
            file[at..at + HEADER_SIZE + |f.data|] == Encode(f)
  {
    var b := file[at + 1..at + HEADER_SIZE];
    PutOfUint32(b);
    hide Uint32, PutUint32;
    var f := FrameAt(file, at).value;
    assert file[at..at + HEADER_SIZE + |f.data|] ==
           [file[at]] + b + file[at + HEADER_SIZE..at + HEADER_SIZE + |f.data|];
  }

  lemma {:induction false} NoFrameAtEnd(file: seq<Byte>, at: nat)
    requires at >= |file|
    ensures FrameAt(file, at) == None
  {
  }

  /** A longer file is scanned to the same records, with more behind them. */
  lemma {:induction false} ScanGrows(file: seq<Byte>, file': seq<Byte>, from: nat)
    requires file <= file'
    ensures Scan(file', from) == Scan(file, from) + Scan(file', End(file, from))
    decreases if from <= |file| then |file| - from else 0
  {
    hide FrameAt;
    match FrameAt(file, from)
    case None =>
    case Some(f) =>
      var next := from + HEADER_SIZE + |f.data|;
      var head := [Record(f.stream, f.data, next)];
      FrameAtStable(file, file', from);
      ScanGrows(file, file', next);
      assert Scan(file, from) == head + Scan(file, next);
      assert Scan(file', from) == head + Scan(file', next);
      var more := Scan(file', End(file, next));
      assert head + (Scan(file, next) + more) == Scan(file, from) + more;
  }

  /** Reading from the end of the k-th record drops the first k records. */
  lemma {:induction false} ScanFromKth(file: seq<Byte>, from: nat, k: nat)
    requires 0 < k <= |Scan(file, from)|
    ensures Scan(file, Scan(file, from)[k - 1].offset) == Scan(file, from)[k..]
    ensures End(file, Scan(file, from)[k - 1].offset) == End(file, from)
    decreases k
  {
    hide FrameAt;
    var next := from + HEADER_SIZE + |FrameAt(file, from).value.data|;
    assert Scan(file, from)[1..] == Scan(file, next);
    if k > 1 {
      ScanFromKth(file, next, k - 1);
      assert Scan(file, next)[k - 2] == Scan(file, from)[k - 1];
      assert Scan(file, next)[k - 1..] == Scan(file, from)[k..];
    }
  }

  /** Offsets grow by the size of each record and the last one is where the scan ends. */
  lemma {:induction false} ScanOffsets(file: seq<Byte>, from: nat)
    ensures forall i :: 0 <= i < |Scan(file, from)| ==> from < Scan(file, from)[i].offset <= End(file, from)
    ensures forall i, j :: 0 <= i < j < |Scan(file, from)| ==> Scan(file, from)[i].offset < Scan(file, from)[j].offset
    ensures Scan(file, from) != [] ==> Scan(file, from)[|Scan(file, from)| - 1].offset == End(file, from)
    ensures Scan(file, from) == [] ==> End(file, from) == from
    decreases if from <= |file| then |file| - from else 0
  {
    hide FrameAt;
    match FrameAt(file, from)
    case None =>
    case Some(f) =>
      var next := from + HEADER_SIZE + |f.data|;
      ScanOffsets(file, next);
      var rest := Scan(file, next);
      assert Scan(file, from)[1..] == rest;
      forall i | 0 <= i < |Scan(file, from)|
        ensures from < Scan(file, from)[i].offset <= End(file, from)
        ensures i > 0 ==> next < Scan(file, from)[i].offset
      {
        if i > 0 { assert Scan(file, from)[i] == rest[i - 1]; }
      }
    }

  /** The bytes a scan covers are exactly the encoding of the frames it returns. */
  lemma {:induction false} ScannedBytesAreEncoding(file: seq<Byte>, from: nat)
    requires from <= |file|
    ensures AllFit(Frames(Scan(file, from)))
    ensures file[from..End(file, from)] == EncodeAll(Frames(Scan(file, from)))
    decreases |file| - from
  {
    hide FrameAt, Encode;
    match FrameAt(file, from)
    case None =>
    case Some(f) =>
      var next := from + HEADER_SIZE + |f.data|;
      ScannedBytesAreEncoding(file, next);
      FrameBytes(file, from);
      var fs := Frames(Scan(file, from));
      assert fs[0] == f && fs[1..] == Frames(Scan(file, next));
      assert file[from..End(file, from)] == file[from..next] + file[next..End(file, from)];
  }

  lemma {:induction false} FrameAtEncoded(pre: seq<Byte>, f: Frame, post: seq<Byte>)
    requires |f.data| <= MAX_FRAME_PAYLOAD
    ensures FrameAt(pre + Encode(f) + post, |pre|) == Some(f)
  {
    var file := pre + Encode(f) + post;
    var at := |pre|;
    Uint32RoundTrip(|f.data|);
    assert file[at] == f.stream;
    assert file[at + 1..at + HEADER_SIZE] == PutUint32(|f.data|);
    assert file[at + HEADER_SIZE..at + HEADER_SIZE + |f.data|] == f.data;
  }

  /** A strict prefix of a frame at the end of a file is not a frame. */
  lemma {:induction false} TornFrameIsNoFrame(pre: seq<Byte>, f: Frame, k: nat)
    requires |f.data| <= MAX_FRAME_PAYLOAD && k < |Encode(f)|
    ensures FrameAt(pre + Encode(f)[..k], |pre|) == None
  {
    var file := pre + Encode(f)[..k];
    if k >= HEADER_SIZE {
      assert file[|pre| + 1..|pre| + HEADER_SIZE] == PutUint32(|f.data|);
      Uint32RoundTrip(|f.data|);
    }
  }

  /** Writing any strict prefix of a frame behind whole frames adds no record ... */
  lemma {:induction false} TornTailAddsNothing(file: seq<Byte>, f: Frame, k: nat)
    requires Whole(file) && |f.data| <= MAX_FRAME_PAYLOAD && k < |Encode(f)|
    ensures Scan(file + Encode(f)[..k], 0) == Scan(file, 0)
    ensures End(file + Encode(f)[..k], 0) == |file|
  {
    hide FrameAt;
    var file' := file + Encode(f)[..k];
    TornFrameIsNoFrame(file, f, k);
    ScanGrows(file, file', 0);
    EndGrows(file, file', 0);
  }

  /** ... and writing all of it adds exactly that one. */
  lemma {:induction false} WholeFrameAddsOne(file: seq<Byte>, f: Frame)
    requires Whole(file) && |f.data| <= MAX_FRAME_PAYLOAD
    ensures Scan(file + Encode(f), 0) == Scan(file, 0) + [Record(f.stream, f.data, |file| + |Encode(f)|)]
    ensures Whole(file + Encode(f))
  {
    hide Encode, Scan, End;
    var file' := file + Encode(f);
    assert file' == file + Encode(f) + [];
    FrameAtEncoded(file, f, []);
    ScanOfLastFrame(file', |file|, f);
    ScanGrows(file, file', 0);
    EndGrows(file, file', 0);
  }

  lemma {:induction false} ScanOfLastFrame(file: seq<Byte>, at: nat, f: Frame)
    requires FrameAt(file, at) == Some(f) && at + HEADER_SIZE + |f.data| == |file|
    ensures Scan(file, at) == [Record(f.stream, f.data, |file|)] && End(file, at) == |file|
  {
    hide FrameAt;
    NoFrameAtEnd(file, |file|);
    assert Scan(file, |file|) == [] && End(file, |file|) == |file|;
  }

  lemma {:induction false} NoFrameBehindEnd(file: seq<Byte>, at: nat)
    ensures FrameAt(file, End(file, at)) == None
    decreases if at <= |file| then |file| - at else 0
  {
    hide FrameAt;
    match FrameAt(file, at)
    case None =>
    case Some(f) => NoFrameBehindEnd(file, at + HEADER_SIZE + |f.data|);
  }

  lemma {:induction false} EndGrows(file: seq<Byte>, file': seq<Byte>, from: nat)
    requires file <= file'
    ensures End(file', from) == End(file', End(file, from))
    decreases if from <= |file| then |file| - from else 0
  {
    hide FrameAt;
    match FrameAt(file, from)
    case None =>
    case Some(f) =>
      FrameAtStable(file, file', from);
      EndGrows(file, file', from + HEADER_SIZE + |f.data|);
  }

  /** Cutting a file where its scan ends keeps every record and leaves nothing torn. */
  lemma {:induction false} CutKeepsRecords(file: seq<Byte>, from: nat)
    requires from <= |file|
    ensures Scan(file[..End(file, from)], from) == Scan(file, from)
    ensures End(file[..End(file, from)], from) == End(file, from)
    decreases |file| - from
  {
    hide FrameAt;
    match FrameAt(file, from)
    case None =>
      NoFrameAtEnd(file[..from], from);
    case Some(f) =>
      FrameAtInPrefix(file, End(file, from), from);
      CutKeepsRecords(file, from + HEADER_SIZE + |f.data|);
  }

  /** Round trip of the format: what was encoded is what is read, and nothing is left over. */
  lemma {:induction false} EncodeThenScan(fs: seq<Frame>)
    requires AllFit(fs)
    ensures Frames(Scan(EncodeAll(fs), 0)) == fs && Whole(EncodeAll(fs))
    decreases |fs|
  {
    if fs != [] {
      var last := |fs| - 1;
      EncodeThenScan(fs[..last]);
      EncodeAllSnoc(fs[..last], fs[last]);
      assert fs == fs[..last] + [fs[last]];
      WholeFrameAddsOne(EncodeAll(fs[..last]), fs[last]);
      assert fs[..last] == Frames(Scan(EncodeAll(fs[..last]), 0));
    }
  }

  lemma {:induction false} EncodeAllSnoc(fs: seq<Frame>, f: Frame)
    requires AllFit(fs) && |f.data| <= MAX_FRAME_PAYLOAD
    ensures EncodeAll(fs + [f]) == EncodeAll(fs) + Encode(f)
    decreases |fs|
  {
    if fs == [] {
      assert [f][1..] == [];
    } else {
      EncodeAllSnoc(fs[1..], f);
      assert (fs + [f])[1..] == fs[1..] + [f];
    }
  }

  /** What a reader who resumes at an offset has already seen does not depend on later records. */
  lemma {:induction false} BelowOfPrefix(rs: seq<Record>, more: seq<Record>, k: nat)
    requires k < |rs|
    requires forall i, j :: 0 <= i < j < |rs + more| ==> (rs + more)[i].offset < (rs + more)[j].offset
    ensures Below(rs + more, rs[k].offset) == rs[..k + 1]
    decreases k
  {
    var all := rs + more;
    if k > 0 {
      assert all[0].offset < all[k].offset;
      assert all[1..] == rs[1..] + more;
      forall i, j | 0 <= i < j < |all[1..]| ensures all[1..][i].offset < all[1..][j].offset {
        assert all[1..][i] == all[i + 1] && all[1..][j] == all[j + 1];
      }
      BelowOfPrefix(rs[1..], more, k - 1);
      assert rs[1..][k - 1] == rs[k];
      assert rs[..k + 1] == [rs[0]] + rs[1..][..k];
    } else {
      assert all[0] == rs[0];
      if |all| > 1 { assert all[0].offset < all[1].offset; }
      assert Below(all[1..], rs[0].offset) == [];
    }
  }

  // ---------------------------------------------------------------- the writer as a state

  datatype Phase = Closed | Healthy | Failed

  datatype LogState = LogState(file: seq<Byte>, phase: Phase, offset: nat, maxBytes: int, truncated: bool)

  datatype AppendError = NoError | PayloadTooLarge | WriterFailed

  /** What one write call does: how many bytes reach the file, whether it reports success,
      and whether the stat that follows a failure works. */
  datatype Disk = Disk(written: nat, ok: bool, statOk: bool) {
    function Reached(size: nat): (n: nat)
      ensures n <= size
    {
      if written < size then written else size
    }

    predicate Succeeds(size: nat) { ok && written >= size }
  }

  const GOOD_DISK := Disk(MAX_FRAME_PAYLOAD + HEADER_SIZE, true, true)

  ghost function OpenSpec(file: seq<Byte>, maxBytes: int): LogState {
    LogState(file[..End(file, 0)], Healthy, End(file, 0), maxBytes, false)
  }

  /** A payload is written only while the writer is healthy, has dropped nothing and has room. */
  ghost predicate Accepts(s: LogState, size: nat) {
    s.phase == Healthy && !s.truncated && size <= MAX_FRAME_PAYLOAD &&
    s.offset + HEADER_SIZE + size <= s.maxBytes
  }

  ghost function AppendSpec(s: LogState, f: Frame, disk: Disk): LogState {
    if |f.data| > MAX_FRAME_PAYLOAD || s.phase != Healthy || s.truncated then s
    else if s.offset + HEADER_SIZE + |f.data| > s.maxBytes then s.(truncated := true)
    else
      var reached := disk.Reached(|Encode(f)|);
      var file' := s.file + Encode(f)[..reached];
      if disk.Succeeds(|Encode(f)|) then s.(file := file', offset := s.offset + |Encode(f)|)
      else s.(file := file', phase := Failed, offset := if disk.statOk then |file'| else s.offset)
  }

  ghost function AppendErrorSpec(s: LogState, f: Frame, disk: Disk): AppendError {
    if |f.data| > MAX_FRAME_PAYLOAD then PayloadTooLarge
    else if s.phase == Failed || (Accepts(s, |f.data|) && !disk.Succeeds(|Encode(f)|)) then WriterFailed
    else NoError
  }

  ghost predicate Sound(s: LogState) {
    s.phase == Healthy ==> s.offset == |s.file| && Whole(s.file)
  }

  // ---------------------------------------------------------------- the code

  /** The file at a log path; a path nobody has opened for writing holds no file. */
  class LogFile {
    var present: bool
    var data: seq<Byte>

    ghost predicate Valid() reads this { !present ==> data == [] }

    constructor ()
      ensures Valid() && !present && data == []
    {
      present, data := false, [];
    }

    /** io.ReadFull of n bytes at a position: none when fewer are left. */
    method ReadFull(at: nat, n: nat) returns (r: Option<seq<Byte>>)
      ensures at + n <= |data| ==> r == Some(data[at..at + n])
      ensures at + n > |data| ==> r == None
    {
      if at + n <= |data| {
        r := Some(data[at..at + n]);
      } else {
        r := None;
      }
    }
  }

  /** How a read may fail for reasons of its own: on opening, or at its k-th read of the file. */
  datatype ReadFault = ReadFault(openFails: bool, fails: nat -> bool)

  /** How many reads a scan from an offset makes: one for each header, one for each payload. */
  function Reads(file: seq<Byte>, from: nat): nat
    decreases if from <= |file| then |file| - from else 0
  {
    if from + HEADER_SIZE > |file| then 1
    else
      var n := Uint32(file[from + 1..from + HEADER_SIZE]);
      if n > MAX_FRAME_PAYLOAD then 1
      else if from + HEADER_SIZE + n > |file| then 2
      else 2 + Reads(file, from + HEADER_SIZE + n)
  }

  /** A missing file has no records; a negative offset cannot be sought to; any read that fails is
      an error, however many records came before it. */
  ghost function ReadSpec(present: bool, file: seq<Byte>, from: int, fault: ReadFault): Option<seq<Record>> {
    if !present then Some([])
    else if fault.openFails || from < 0 || (exists k :: 0 <= k < Reads(file, from) && fault.fails(k)) then None
    else Some(Scan(file, from))
  }

  lemma {:induction false} ReadIsScan(present: bool, file: seq<Byte>, from: nat, fault: ReadFault)
    requires !present ==> file == []
    ensures ReadSpec(present, file, from, fault) in {None, Some(Scan(file, from))}
  {
    if !present { ScanPastEnd(file, from); }
    hide Scan, Reads;
  }

  lemma {:induction false} ReadsStep(file: seq<Byte>, at: nat, header: seq<Byte>)
    requires at + HEADER_SIZE <= |file| && header == file[at..at + HEADER_SIZE]
    ensures var n := Uint32(header[1..]);
            Reads(file, at) ==
            if n > MAX_FRAME_PAYLOAD then 1
            else if at + HEADER_SIZE + n > |file| then 2
            else 2 + Reads(file, at + HEADER_SIZE + n)
  {
    hide Uint32;
    assert header[1..] == file[at + 1..at + HEADER_SIZE];
  }

  method ReadRecords(f: LogFile, from: int, fault: ReadFault) returns (r: Option<seq<Record>>)
    requires f.Valid()
    ensures r == ReadSpec(f.present, f.data, from, fault)
  {
    hide Uint32, FrameAt, Scan;
    if !f.present {
      return Some([]);
    }
    if fault.openFails || from < 0 {
      return None;
    }
    var records: seq<Record>, offset: nat, k: nat := [], from, 0;
    while true
      invariant Scan(f.data, from) == records + Scan(f.data, offset)
      invariant Reads(f.data, from) == k + Reads(f.data, offset)
      invariant forall j :: 0 <= j < k ==> !fault.fails(j)
      decreases if offset <= |f.data| then |f.data| - offset else 0
    {
      if fault.fails(k) {
        return None;
      }
      var header := f.ReadFull(offset, HEADER_SIZE);
      assert records + [] == records;
      if header.None? {
        ScanPastEnd(f.data, offset);
        return Some(records);
      }
      ParsedFrame(f.data, offset, header.value);
      ScanStep(f.data, offset);
      ReadsStep(f.data, offset, header.value);
      hide Reads;
      var n := Uint32(header.value[1..]);
      if n > MAX_FRAME_PAYLOAD {
        return Some(records);
      }
      if fault.fails(k + 1) {
        return None;
      }
      var data := f.ReadFull(offset + HEADER_SIZE, n);
      if data.None? {
        return Some(records);
      }
      offset, k := offset + HEADER_SIZE + n, k + 2;
      records := records + [Record(header.value[0], data.value, offset)];
    }
  }

  /** Where opening a log can fail: before the file is touched, or while its frames are walked. */
  datatype OpenFault = NoFault | OpenFails | ScanFails

  class LogWriter {
    const f: LogFile
    const maxBytes: int
    var offset: nat
    var truncated: bool
    var failed: bool

    ghost function State(): LogState reads this, f {
      LogState(f.data, if failed then Failed else Healthy, offset, maxBytes, truncated)
    }

    ghost predicate Valid() reads this, f {
      f.present && Sound(State())
    }

    constructor Raw(f: LogFile, maxBytes: int)
      ensures this.f == f && this.maxBytes == maxBytes && offset == |f.data| && !truncated && !failed
    {
      this.f, this.maxBytes, offset, truncated, failed := f, maxBytes, |f.data|, false, false;
    }

    /** Walks the frames, seeking over each payload, and cuts the file at the last boundary. */
    method RepairTornTail()
      requires f.present && offset == |f.data| && !failed
      modifies this`offset, f`data
      ensures f.data == old(f.data)[..End(old(f.data), 0)] && offset == End(old(f.data), 0)
    {
      hide FrameAt, Uint32;
      var size := |f.data|;
      var lastBoundary: nat, at: nat := 0, 0;
      while true
        invariant lastBoundary == at <= size == |f.data|
        invariant End(f.data, 0) == End(f.data, at)
        invariant f.data == old(f.data) && offset == size
        decreases size - at
      {
        var header := f.ReadFull(at, HEADER_SIZE);
        if header.None? {
          break;
        }
        ParsedFrame(f.data, at, header.value);
        var n := Uint32(header.value[1..]);
        if n > MAX_FRAME_PAYLOAD {
          break;
        }
        var next := at + HEADER_SIZE + n;
        if next > size {
          break;
        }
        at := next;
        lastBoundary := at;
      }
      assert End(f.data, at) == at;
      if lastBoundary < offset {
        f.data := f.data[..lastBoundary];
        offset := lastBoundary;
      }
    }

    /** Append, with the disk's behaviour as a parameter. */
    method Append(stream: Byte, data: seq<Byte>, disk: Disk) returns (off: nat, err: AppendError)
      requires Valid()
      modifies this`offset, this`truncated, this`failed, f`data
      ensures Valid()
      ensures State() == AppendSpec(old(State()), Frame(stream, data), disk)
      ensures err == AppendErrorSpec(old(State()), Frame(stream, data), disk)
      ensures off == if err == PayloadTooLarge then 0 else offset
    {
      ghost var before, frame := State(), Frame(stream, data);
      if |data| > MAX_FRAME_PAYLOAD {
        return 0, PayloadTooLarge;
      }
      if failed {
        return offset, WriterFailed;
      }
      if truncated {
        return offset, NoError;
      }
      var size := HEADER_SIZE + |data|;
      if offset + size > maxBytes {
        truncated := true;
        return offset, NoError;
      }
      var buf := [stream] + PutUint32(|data|) + data;
      assert buf == Encode(frame) && |buf| == size;
      var n := disk.Reached(|buf|);
      f.data := f.data + buf[..n];
      AppendIsSound(before, frame, disk);
      if !disk.ok || n != |buf| || !disk.Succeeds(|buf|) {
        if disk.statOk {
          offset := |f.data|;
        }
        failed := true;
        return offset, WriterFailed;
      }
      offset := offset + size;
      return offset, NoError;
    }
  }

  /** NewLogWriter: creates the file if it is missing and repairs it if it holds anything. */
  method NewLogWriter(f: LogFile, maxBytes: int, fault: OpenFault) returns (w: LogWriter?)
    requires f.Valid()
    modifies f
    ensures f.Valid() && (old(f.present) ==> f.present)
    ensures w == null <==> fault == OpenFails || (fault == ScanFails && old(f.data) != [])
    ensures w == null ==> f.data == old(f.data)
    ensures w != null ==> fresh(w) && w.f == f && w.Valid() && w.State() == OpenSpec(old(f.data), maxBytes)
  {
    var existsAndNonEmpty := f.present && |f.data| > 0;
    if fault == OpenFails {
      return null;
    }
    f.present := true;
    CutKeepsRecords(f.data, 0);
    w := new LogWriter.Raw(f, maxBytes);
    if existsAndNonEmpty {
      if fault == ScanFails {
        return null;
      }
      w.RepairTornTail();
    }
  }

  // ---------------------------------------------------------------- main results

  lemma {:induction false} OpenIsSound(file: seq<Byte>, maxBytes: int)
    ensures Sound(OpenSpec(file, maxBytes))
  {
    CutKeepsRecords(file, 0);
  }

  lemma {:induction false} AppendIsSound(s: LogState, f: Frame, disk: Disk)
    requires Sound(s)
    ensures Sound(AppendSpec(s, f, disk))
  {
    if Accepts(s, |f.data|) && disk.Succeeds(|Encode(f)|) {
      WholeFrameAddsOne(s.file, f);
      assert Encode(f)[..|Encode(f)|] == Encode(f);
    }
  }

  /** On arbitrary bytes, repair cuts at the last offset the reader returns (0 if none), keeps
      exactly the reader's records as bytes, and repairing again changes nothing. */
  lemma {:induction false} RepairRefinesReader(file: seq<Byte>)
    ensures var rs, cut := Scan(file, 0), file[..End(file, 0)];
            && End(file, 0) == (if rs == [] then 0 else rs[|rs| - 1].offset)
            && AllFit(Frames(rs)) && cut == EncodeAll(Frames(rs))
            && Scan(cut, 0) == rs
            && cut[..End(cut, 0)] == cut
    ensures forall k :: 0 < k <= |Scan(file, 0)| ==>
              Scan(file, Scan(file, 0)[k - 1].offset) == Scan(file, 0)[k..]
  {
    ScanOffsets(file, 0);
    ScannedBytesAreEncoding(file, 0);
    CutKeepsRecords(file, 0);
    assert file[0..End(file, 0)] == file[..End(file, 0)];
    forall k | 0 < k <= |Scan(file, 0)|
      ensures Scan(file, Scan(file, 0)[k - 1].offset) == Scan(file, 0)[k..]
    {
      ScanFromKth(file, 0, k);
    }
  }

  /** One event in the life of a log across daemon generations. A kill during an append leaves
      any prefix of the frame, the whole of it included; a kill at rest leaves no writer. */
  datatype LogEvent =
    | Open(maxBytes: int)
    | Append(frame: Frame, disk: Disk)
    | KilledInAppend(frame: Frame, reached: nat)
    | Killed

  ghost function Step(s: LogState, e: LogEvent): LogState {
    match e
    case Open(maxBytes) => OpenSpec(s.file, maxBytes)
    case Append(frame, disk) => AppendSpec(s, frame, disk)
    case KilledInAppend(frame, reached) => AppendSpec(s, frame, Disk(reached, false, false)).(phase := Closed)
    case Killed => s.(phase := Closed)
  }

  /** The frame an event writes in full, if any: what the writer took and the disk finished. */
  ghost function FullyWritten(s: LogState, e: LogEvent): seq<Frame> {
    match e
    case Append(frame, disk) =>
      if Accepts(s, |frame.data|) && disk.written >= |Encode(frame)| then [frame] else []
    case KilledInAppend(frame, reached) =>
      if Accepts(s, |frame.data|) && reached >= |Encode(frame)| then [frame] else []
    case _ => []
  }

  const EMPTY_LOG := LogState([], Closed, 0, 0, false)

  ghost function Run(s: LogState, es: seq<LogEvent>): LogState {
    if es == [] then s else Step(Run(s, es[..|es| - 1]), es[|es| - 1])
  }

  ghost function WrittenBy(s: LogState, es: seq<LogEvent>): seq<Frame> {
    if es == [] then []
    else WrittenBy(s, es[..|es| - 1]) + FullyWritten(Run(s, es[..|es| - 1]), es[|es| - 1])
  }

  /** One event, from any state: the records read afterwards are those before, in the same
      place, and the frame the event wrote in full. */
  lemma {:induction false} StepKeepsRecords(s: LogState, e: LogEvent)
    requires Sound(s)
    ensures Sound(Step(s, e))
    ensures Scan(s.file, 0) <= Scan(Step(s, e).file, 0)
    ensures Frames(Scan(Step(s, e).file, 0)) == Frames(Scan(s.file, 0)) + FullyWritten(s, e)
  {
    match e
    case Open(maxBytes) =>
      CutKeepsRecords(s.file, 0);
    case Killed =>
    case Append(frame, disk) =>
      AppendIsSound(s, frame, disk);
      AppendedRecords(s, frame, disk);
    case KilledInAppend(frame, reached) =>
      AppendedRecords(s, frame, Disk(reached, false, false));
  }

  lemma {:induction false} AppendedRecords(s: LogState, f: Frame, disk: Disk)
    requires Sound(s)
    ensures Scan(s.file, 0) <= Scan(AppendSpec(s, f, disk).file, 0)
    ensures Frames(Scan(AppendSpec(s, f, disk).file, 0)) ==
            Frames(Scan(s.file, 0)) + if Accepts(s, |f.data|) && disk.written >= |Encode(f)| then [f] else []
  {
    hide Scan, End, Encode;
    if Accepts(s, |f.data|) {
      if disk.written >= |Encode(f)| {
        assert Encode(f)[..|Encode(f)|] == Encode(f);
        WholeFrameAddsOne(s.file, f);
      } else {
        TornTailAddsNothing(s.file, f, disk.written);
      }
    }
  }

  lemma {:induction false} RunKeepsRecords(es: seq<LogEvent>)
    ensures Sound(Run(EMPTY_LOG, es))
    ensures Frames(Scan(Run(EMPTY_LOG, es).file, 0)) == WrittenBy(EMPTY_LOG, es)
    decreases |es|
  {
    if es != [] {
      var init := es[..|es| - 1];
      RunKeepsRecords(init);
      StepKeepsRecords(Run(EMPTY_LOG, init), es[|es| - 1]);
    }
  }

  /** After any history of writers and kills, opening the log leaves exactly the records that
      were written in full, in order, and nothing else in the file. */
  lemma {:induction false} ReopenKeepsFullyWritten(es: seq<LogEvent>, maxBytes: int)
    ensures var reopened := Run(EMPTY_LOG, es + [Open(maxBytes)]);
            && Frames(Scan(reopened.file, 0)) == WrittenBy(EMPTY_LOG, es)
            && AllFit(WrittenBy(EMPTY_LOG, es))
            && reopened.file == EncodeAll(WrittenBy(EMPTY_LOG, es))
  {
    var before := Run(EMPTY_LOG, es);
    assert (es + [Open(maxBytes)])[..|es|] == es;
    RunKeepsRecords(es);
    RepairRefinesReader(before.file);
  }

  lemma {:induction false} RecordsOnlyGrow(es: seq<LogEvent>, i: nat)
    requires i <= |es|
    ensures Sound(Run(EMPTY_LOG, es))
    ensures Scan(Run(EMPTY_LOG, es[..i]).file, 0) <= Scan(Run(EMPTY_LOG, es).file, 0)
    decreases |es|
  {
    RunKeepsRecords(es);
    if i == |es| {
      assert es[..i] == es;
    } else {
      var init := es[..|es| - 1];
      RecordsOnlyGrow(init, i);
      assert init[..i] == es[..i];
      StepKeepsRecords(Run(EMPTY_LOG, init), es[|es| - 1]);
    }
  }

  /** The records a scan has passed when it reaches the end of its k-th record. */
  lemma {:induction false} BelowBoundary(file: seq<Byte>, file': seq<Byte>, k: nat)
    requires Scan(file, 0) <= Scan(file', 0) && k < |Scan(file, 0)|
    ensures Below(Scan(file', 0), Scan(file, 0)[k].offset) == Scan(file, 0)[..k + 1]
  {
    hide Scan, Below;
    var rs, all := Scan(file, 0), Scan(file', 0);
    ScanOffsets(file', 0);
    assert all == rs + all[|rs|..];
    BelowOfPrefix(rs, all[|rs|..], k);
  }

  lemma {:induction false} ScanFromBoundary(file: seq<Byte>, at: nat)
    requires Boundary(file, at)
    ensures Scan(file, 0) == Below(Scan(file, 0), at) + Scan(file, at)
  {
    hide Scan, Below;
    var rs := Scan(file, 0);
    if at == 0 {
      BelowZero(file);
    } else {
      var k :| 0 <= k < |rs| && rs[k].offset == at;
      BelowBoundary(file, file, k);
      ScanFromKth(file, 0, k + 1);
    }
  }

  lemma {:induction false} EndFromBoundary(file: seq<Byte>, at: nat)
    requires Boundary(file, at)
    ensures End(file, at) == End(file, 0)
  {
    hide Scan, End;
    if at != 0 {
      var k :| 0 <= k < |Scan(file, 0)| && Scan(file, 0)[k].offset == at;
      ScanFromKth(file, 0, k + 1);
    }
  }

  lemma {:induction false} CancelPrefix<T>(a: seq<T>, b: seq<T>, c: seq<T>)
    requires a + b == a + c
    ensures b == c
  {
    assert b == (a + b)[|a|..] && c == (a + c)[|a|..];
  }

  lemma {:induction false} BelowZero(file: seq<Byte>)
    ensures Below(Scan(file, 0), 0) == []
  {
    ScanOffsets(file, 0);
  }

  /** Every offset that was once a record boundary is one for ever after, whatever kills, torn
      writes and repairs follow, and a reader resuming there has seen the same records. */
  lemma {:induction false} CursorSurvives(es: seq<LogEvent>, i: nat, at: nat)
    requires i <= |es| && Boundary(Run(EMPTY_LOG, es[..i]).file, at)
    ensures var was, now := Run(EMPTY_LOG, es[..i]).file, Run(EMPTY_LOG, es).file;
            && Boundary(now, at)
            && Below(Scan(now, 0), at) == Below(Scan(was, 0), at)
            && Scan(now, 0) == Below(Scan(was, 0), at) + Scan(now, at)
  {
    RecordsOnlyGrow(es, i);
    BoundaryOfExtension(Run(EMPTY_LOG, es[..i]).file, Run(EMPTY_LOG, es).file, at);
  }

  lemma {:induction false} BoundaryOfExtension(was: seq<Byte>, now: seq<Byte>, at: nat)
    requires Scan(was, 0) <= Scan(now, 0) && Boundary(was, at)
    ensures Boundary(now, at) && Below(Scan(now, 0), at) == Below(Scan(was, 0), at)
    ensures Scan(now, 0) == Below(Scan(was, 0), at) + Scan(now, at)
  {
    hide Scan, Below;
    if at == 0 {
      BelowZero(was);
      BelowZero(now);
    } else {
      var k :| 0 <= k < |Scan(was, 0)| && Scan(was, 0)[k].offset == at;
      assert Scan(now, 0)[k] == Scan(was, 0)[k];
      BelowBoundary(was, now, k);
      BelowBoundary(was, was, k);
    }
    ScanFromBoundary(now, at);
  }

  /** The offsets handed out are the cursors of CursorSurvives: a successful append returns a
      boundary of the file it leaves ... */
  lemma {:induction false} AppendReturnsBoundary(s: LogState, f: Frame, disk: Disk)
    requires Sound(s) && s.phase == Healthy && AppendErrorSpec(s, f, disk) == NoError
    ensures Boundary(AppendSpec(s, f, disk).file, AppendSpec(s, f, disk).offset)
  {
    AppendIsSound(s, f, disk);
    hide AppendSpec, Scan, End;
    EndIsBoundary(AppendSpec(s, f, disk).file);
    assert AppendSpec(s, f, disk).phase == Healthy by { AppendStaysHealthy(s, f, disk); }
  }

  lemma {:induction false} AppendStaysHealthy(s: LogState, f: Frame, disk: Disk)
    requires s.phase == Healthy && AppendErrorSpec(s, f, disk) == NoError
    ensures AppendSpec(s, f, disk).phase == Healthy
  {
  }

  lemma {:induction false} EndIsBoundary(file: seq<Byte>)
    ensures Boundary(file, End(file, 0))
  {
    hide Scan, End;
    ScanOffsets(file, 0);
    var rs := Scan(file, 0);
    if rs != [] { assert rs[|rs| - 1].offset == End(file, 0); }
  }

  /** ... and a read from a boundary returns boundaries. */
  lemma {:induction false} ReadReturnsBoundaries(file: seq<Byte>, from: nat, i: nat)
    requires Boundary(file, from) && i < |Scan(file, from)|
    ensures Boundary(file, Scan(file, from)[i].offset)
  {
    hide Scan, Below;
    if from != 0 {
      var k :| 0 <= k < |Scan(file, 0)| && Scan(file, 0)[k].offset == from;
      ScanFromKth(file, 0, k + 1);
      assert Scan(file, from)[i] == Scan(file, 0)[k + 1 + i];
    }
  }

  /** Whether the stat behind every failed write of a history worked. */
  ghost predicate StatsWork(es: seq<LogEvent>) {
    forall i :: 0 <= i < |es| ==> es[i].Append? ==> es[i].disk.statOk
  }

  /** The size a writer reports is the size of its file, also after a write that failed. */
  lemma {:induction false} OffsetIsSize(es: seq<LogEvent>)
    requires StatsWork(es)
    ensures Run(EMPTY_LOG, es).phase != Closed ==> Run(EMPTY_LOG, es).offset == |Run(EMPTY_LOG, es).file|
    decreases |es|
  {
    if es != [] {
      var init, last := es[..|es| - 1], es[|es| - 1];
      OffsetIsSize(init);
      RunKeepsRecords(init);
      CutKeepsRecords(Run(EMPTY_LOG, init).file, 0);
      hide Run, Scan, Encode;
      assert Run(EMPTY_LOG, es) == Step(Run(EMPTY_LOG, init), last) by { LastStep(es); }
      assert last.Append? ==> last.disk.statOk;
    }
  }

  lemma {:induction false} LastStep(es: seq<LogEvent>)
    requires es != []
    ensures Run(EMPTY_LOG, es) == Step(Run(EMPTY_LOG, es[..|es| - 1]), es[|es| - 1])
  {
    hide Step;
  }

  /** A scan reads one header and one payload for each record, and a header more; and a payload more
      if that header announces one of legal size, which then is not there. */
  lemma {:induction false} ReadsCounted(file: seq<Byte>, from: nat)
    ensures var end := End(file, from);
            var announced := end + HEADER_SIZE <= |file| &&
                             Uint32(file[end + 1..end + HEADER_SIZE]) <= MAX_FRAME_PAYLOAD;
            Reads(file, from) == 2 * |Scan(file, from)| + 1 + if announced then 1 else 0
    decreases if from <= |file| then |file| - from else 0
  {
    hide Uint32;
    if FrameAt(file, from).Some? {
      ReadsCounted(file, from + HEADER_SIZE + |FrameAt(file, from).value.data|);
    }
  }

  /** When a reader fails: never for want of a file; with one, if it cannot be opened, the offset is
      negative, or a read it makes fails. It makes at least one read for each header and each payload of
      a record and one at the end, and at most one more. */
  lemma {:induction false} ReadingFails(file: seq<Byte>, from: int, fault: ReadFault)
    ensures ReadSpec(false, file, from, fault) == Some([])
    ensures fault.openFails || from < 0 ==> ReadSpec(true, file, from, fault) == None
    ensures !fault.openFails && from >= 0 ==>
              var n := |Scan(file, from)|;
              && ((exists k: nat :: k <= 2 * n && fault.fails(k)) ==> ReadSpec(true, file, from, fault) == None)
              && ((forall k: nat :: k <= 2 * n + 1 ==> !fault.fails(k)) ==>
                    ReadSpec(true, file, from, fault) == Some(Scan(file, from)))
  {
    if from >= 0 { ReadsCounted(file, from); }
    hide Scan, Reads, End, Uint32;
  }

  /** What an append that reports no error has done: written its frame, or dropped it for want of room
      and said so. One that fails for another reason than its size leaves a writer that fails for ever. */
  lemma {:induction false} NoErrorMeansWritten(s: LogState, f: Frame, disk: Disk, f': Frame, disk': Disk)
    requires Sound(s) && s.phase != Closed
    ensures var s' := AppendSpec(s, f, disk);
            match AppendErrorSpec(s, f, disk)
            case NoError =>
              Frames(Scan(s'.file, 0)) == Frames(Scan(s.file, 0)) + [f] || (s'.truncated && s'.file == s.file)
            case PayloadTooLarge => s' == s && |f.data| > MAX_FRAME_PAYLOAD
            case WriterFailed => s'.phase == Failed && AppendErrorSpec(s', f', disk') != NoError
  {
    StepKeepsRecords(s, LogEvent.Append(f, disk));
    hide Scan, Encode, End;
  }
}
