/** Two more commands built on the output stream: `exec`, which turns the exit event into its own
    status (cmd/orcal/exec_cmd.go streamAndExit), and `logs` without following, which stops at the
    size the log had when it asked (cmd/orcal/logs_cmd.go readAvailableLogs). */
module Commands {
  import opened Wrappers
  import opened ExecLog
  import opened Sse
  import opened Follow

  // ---------------------------------------------------------------- exec

  datatype Status = Ok | ExitWith(code: int) | StreamFailed

  /** streamAndExit. Success is reported only for a command that ended with code 0, and only when
      every record of its log from the start offset has been shown. */
  method StreamAndExit(attempt: Attempt, codec: Codec, from: nat, writes: nat)
    returns (shown: seq<Note>, status: Status)
    requires codec.Lossless() && attempt.Proper()
    ensures exists n :: 0 <= n <= |Scan(attempt.file, from)| && shown == Notes(Scan(attempt.file, from)[..n])
    ensures status == Ok ==>
              && shown == Notes(Scan(attempt.file, from))
              && attempt.exit.Some? && attempt.exit.value.exitCode == Some(0)
    ensures status.ExitWith? && status.code != EXIT_SELF ==>
              && shown == Notes(Scan(attempt.file, from))
              && attempt.exit.Some? && attempt.exit.value.exitCode == Some(status.code) && status.code != 0
    ensures var n := attempt.Records(from, codec, writes);
            n <= |Scan(attempt.file, from)| && shown == Notes(Scan(attempt.file, from)[..n])
    ensures status == StreamFailed <==> !attempt.Smooth(from, codec, writes)
    ensures attempt.Smooth(from, codec, writes) && !attempt.Exits(from, codec, writes) ==> status == ExitWith(EXIT_SELF)
    ensures attempt.Smooth(from, codec, writes) && attempt.Exits(from, codec, writes) ==>
              && attempt.exit.Some?
              && var code := attempt.exit.value.exitCode;
                 status ==
                 if code == None then ExitWith(EXIT_SELF) else if code == Some(0) then Ok else ExitWith(code.value)
  {
    hide *;
    var p, err := Stream(attempt, codec, from, -1, writes);
    ghost var rs, n := Scan(attempt.file, from), attempt.Records(from, codec, writes);
    Streamed(attempt, from, codec, writes, p, err);
    ExitIsThere(attempt, from, codec, writes);
    assert 0 <= n <= |rs| && p.shown == Notes(rs[..n]);
    assert rs[..|rs|] == rs;
    if attempt.exit.Some? { CodeFacts(attempt.exit.value); }
    shown := p.shown;
    if err {
      status := StreamFailed;
    } else if !p.out.sawExit {
      status := ExitWith(EXIT_SELF);
    } else {
      status := if p.out.code != 0 then ExitWith(p.out.code) else Ok;
    }
  }

  lemma {:induction false} CodeFacts(exit: Payload)
    ensures CodeOf(exit) == if exit.exitCode == None then EXIT_SELF else exit.exitCode.value
    ensures EXIT_SELF != 0
  {
  }

  // ---------------------------------------------------------------- logs

  /** How many records the handler takes before its bound stops it: all below the bound and the
      first that reaches it. */
  function UpTo(rs: seq<Record>, stopAt: nat): (n: nat)
    ensures n <= |rs|
    ensures forall i :: 0 <= i < n - 1 ==> rs[i].offset < stopAt
    ensures n < |rs| ==> n > 0 && rs[n - 1].offset >= stopAt
  {
    if rs == [] then 0
    else if rs[0].offset >= stopAt then 1
    else
      var n := UpTo(rs[1..], stopAt);
      1 + n
  }

  predicate Reached(rs: seq<Record>, stopAt: nat) {
    var n := UpTo(rs, stopAt); n > 0 && rs[n - 1].offset >= stopAt
  }

  /** The handler's state when it has shown some records more. */
  function Taken(p: Progress, rs: seq<Record>): (q: Progress)
    ensures q.stopped == p.stopped
  {
    p.(out := p.out.(offset := CursorAfter(p.out.offset, rs)), shown := p.shown + Notes(rs))
  }

  lemma {:induction false} TakenNext(p: Progress, r: Record, rs: seq<Record>)
    ensures Taken(Taken(p, [r]), rs) == Taken(p, [r] + rs)
    ensures Taken(p, []) == p
  {
    hide RecordNote;
    assert p.shown + Notes([]) == p.shown;
    assert p.shown + Notes([r] + rs) == (p.shown + Notes([r])) + Notes(rs);
    assert rs != [] ==> ([r] + rs)[|rs|] == rs[|rs| - 1];
  }

  lemma {:induction false} HandleUpTo(p: Progress, rs: seq<Record>, more: seq<Event<Payload>>, stopAt: nat)
    requires !p.stopped
    ensures var q := Taken(p, rs[..UpTo(rs, stopAt)]);
            HandleAll(p, RecordEvents(rs) + more, stopAt) ==
            if Reached(rs, stopAt) then q.(stopped := true) else HandleAll(q, more, stopAt)
    decreases |rs|
  {
    hide Handle, RecordEvent, RecordNote, Taken;
    var events := RecordEvents(rs) + more;
    if rs == [] {
      assert events == more;
      TakenNext(p, Record(0, [], 0), []);
    } else {
      var q := Handle(p, RecordEvent(rs[0]), stopAt);
      HandleOne(p, rs[0], stopAt);
      assert events[1..] == RecordEvents(rs[1..]) + more && events[0] == RecordEvent(rs[0]);
      assert HandleAll(p, events, stopAt) == HandleAll(q, events[1..], stopAt);
      if q.stopped {
        assert rs[..1] == [rs[0]];
      } else {
        HandleUpTo(q, rs[1..], more, stopAt);
        hide HandleAll, RecordEvents;
        var n := UpTo(rs[1..], stopAt);
        TakenNext(p, rs[0], rs[1..][..n]);
        assert rs[..1 + n] == [rs[0]] + rs[1..][..n];
      }
    }
  }

  lemma {:induction false} HandleOne(p: Progress, r: Record, stopAt: nat)
    requires !p.stopped
    ensures Handle(p, RecordEvent(r), stopAt) ==
            Taken(p, [r]).(stopped := r.offset >= stopAt)
  {
    assert Notes([r]) == [RecordNote(r)];
    assert |OUTPUT| != |EXIT| && |GAP| != |EXIT| && |GAP| != |OUTPUT|;
  }

  /** One bounded connection, cut at any byte: a run of records from the offset, which goes past
      the bound by at most the record that reaches it. */
  lemma {:induction false} BoundedStream(a: Attempt, offset: nat, codec: Codec, stopAt: nat, writes: nat)
    returns (n: nat)
    requires codec.Lossless() && a.Proper() && !a.refused
    ensures var events := GoScan([], a.Body(offset, codec), codec.dec).events;
            var p := HandleAll(Start(offset), Handled(events, writes), stopAt);
            var rs := Scan(a.file, offset);
            && n <= |rs| && p.shown == Notes(rs[..n]) && n <= a.Records(offset, codec, writes)
            && (forall i :: 0 <= i < n - 1 ==> rs[i].offset < stopAt)
            && (n < a.Records(offset, codec, writes) ==> n > 0 && rs[n - 1].offset >= stopAt)
            && (p.stopped <==> n > 0 && rs[n - 1].offset >= stopAt)
  {
    hide GoScan, Scan, Attempt.Body, Attempt.Items, Attempt.Events, HandleAll, Notes, UpTo, Start;
    var rs := a.Reached(offset);
    var m := a.Events(offset, codec, writes);
    HandledEvents(a, offset, codec, writes);
    var events := Handled(GoScan([], a.Body(offset, codec), codec.dec).events, writes);
    var k := if m <= |rs| then m else |rs|;
    RecordEventsTake(rs, k);
    var tail := if m <= |rs| then [] else ExitEvents(a);
    assert events == RecordEvents(rs[..k]) + tail;
    BoundedEvents(a, offset, rs[..k], tail, stopAt);
    n := UpTo(rs[..k], stopAt);
    assert rs[..k][..n] == Scan(a.file, offset)[..n];
  }

  lemma {:induction false} BoundedEvents(
      a: Attempt, offset: nat, rs: seq<Record>, tail: seq<Event<Payload>>, stopAt: nat)
    requires tail == [] || tail == ExitEvents(a)
    ensures var p := HandleAll(Start(offset), RecordEvents(rs) + tail, stopAt);
            var n := UpTo(rs, stopAt);
            && p.shown == Notes(rs[..n]) && (p.stopped <==> n > 0 && rs[n - 1].offset >= stopAt)
  {
    hide Taken, HandleAll, Notes, UpTo, RecordEvents;
    TakenFromStart(offset, rs[..UpTo(rs, stopAt)]);
    HandleUpTo(Start(offset), rs, tail, stopAt);
    ExitDoesNotStop(Taken(Start(offset), rs[..UpTo(rs, stopAt)]), a, tail, stopAt);
  }

  lemma {:induction false} TakenFromStart(offset: nat, rs: seq<Record>)
    ensures Taken(Start(offset), rs).shown == Notes(rs) && !Start(offset).stopped
  {
    hide RecordNote;
    assert [] + Notes(rs) == Notes(rs);
  }

  lemma {:induction false} ExitDoesNotStop(q: Progress, a: Attempt, tail: seq<Event<Payload>>, stopAt: nat)
    requires !q.stopped && (tail == [] || tail == ExitEvents(a))
    ensures var r := HandleAll(q, tail, stopAt); r.shown == q.shown && !r.stopped
  {
    if tail != [] {
      assert tail[1..] == [];
    }
  }

  /** readAvailableLogs, with the size of the log reported by the row. */
  method ReadAvailableLogs(size: nat, attempt: Attempt, codec: Codec, from: nat, writes: nat)
    returns (shown: seq<Note>, stopped: bool, err: bool, ghost n: nat)
    requires codec.Lossless() && attempt.Proper()
    ensures var rs := Scan(attempt.file, from);
            && n <= |rs| && shown == Notes(rs[..n])
            && (forall i :: 0 <= i < n - 1 ==> rs[i].offset < size)
            && (stopped <==> size > from && n > 0 && rs[n - 1].offset >= size)
            && (size > from ==> n <= attempt.Records(from, codec, writes))
            && (size > from && n < attempt.Records(from, codec, writes) ==> stopped)
    ensures err <==> size > from && !stopped && !attempt.Smooth(from, codec, writes)
    ensures size <= from ==> shown == []
  {
    hide *;
    if size <= from {
      ShownNothing(from, Scan(attempt.file, from));
      StartShowsNothing(from);
      return [], false, false, 0;
    }
    var p, failed := Stream(attempt, codec, from, size, writes);
    if attempt.refused {
      ShownNothing(from, Scan(attempt.file, from));
      StartShowsNothing(from);
      RefusedGivesNothing(attempt, from, codec, writes);
      n := 0;
    } else {
      n := BoundedStream(attempt, from, codec, size, writes);
      SmoothExactly(attempt, from, codec, writes);
    }
    shown, stopped, err := p.shown, p.stopped, failed;
  }

  lemma {:induction false} RefusedGivesNothing(a: Attempt, offset: nat, codec: Codec, writes: nat)
    requires a.refused
    ensures a.Records(offset, codec, writes) == 0 && !a.Smooth(offset, codec, writes)
  {
    hide Got, Torn, Attempt.Items;
  }

  lemma {:induction false} StartShowsNothing(from: nat)
    ensures Start(from).shown == [] && !Start(from).stopped
  {
  }

  /** What a read that stops at its bound has shown: exactly the records that were complete when
      the size was taken, and the one being written at that moment, if any. */
  lemma {:induction false} AvailableIsExactly(was: seq<Byte>, file: seq<Byte>, from: nat, n: nat)
    requires was <= file && Boundary(was, from) && n <= |Scan(file, from)|
    requires n > 0 && Scan(file, from)[n - 1].offset >= |was| > from
    requires forall i :: 0 <= i < n - 1 ==> Scan(file, from)[i].offset < |was|
    ensures n == |Scan(was, from)| + if Whole(was) then 0 else 1
    ensures Scan(file, from)[..|Scan(was, from)|] == Scan(was, from)
  {
    hide Scan, Boundary, FrameAt, End;
    EndFromBoundary(was, from);
    FirstBehind(was, file, from);
    ScanOffsets(file, from);
    EndsAtCount(Scan(file, from), |Scan(was, from)|, n, |was|, End(was, from));
  }

  lemma {:induction false} FirstBehind(was: seq<Byte>, file: seq<Byte>, from: nat)
    requires was <= file
    ensures var rs, k := Scan(file, from), |Scan(was, from)|;
            && k <= |rs| && rs[..k] == Scan(was, from)
            && (k < |rs| ==> rs[k].offset > |was|)
            && (forall i :: 0 <= i < k ==> rs[i].offset <= End(was, from))
            && (k > 0 ==> rs[k - 1].offset == End(was, from)) && (k == 0 ==> End(was, from) == from)
  {
    hide Scan, FrameAt, End;
    var k := |Scan(was, from)|;
    PrefixScan(was, file, from);
    CompleteEnds(was, from);
    NoFrameBehindEnd(was, from);
    if k < |Scan(file, from)| {
      NextCrosses(was, file, End(was, from));
    }
    forall i | 0 <= i < k ensures Scan(file, from)[i] == Scan(was, from)[i] {
      assert Scan(file, from)[..k][i] == Scan(file, from)[i];
    }
  }

  lemma {:induction false} PrefixScan(was: seq<Byte>, file: seq<Byte>, from: nat)
    requires was <= file
    ensures var rs, complete, rest := Scan(file, from), Scan(was, from), Scan(file, End(was, from));
            && |rs| == |complete| + |rest| && rs[..|complete|] == complete
            && (rest != [] ==> rs[|complete|] == rest[0])
  {
    hide Scan, End;
    ScanGrows(was, file, from);
  }

  lemma {:induction false} CompleteEnds(file: seq<Byte>, from: nat)
    ensures var rs := Scan(file, from);
            && (forall i :: 0 <= i < |rs| ==> rs[i].offset <= End(file, from))
            && (rs != [] ==> rs[|rs| - 1].offset == End(file, from)) && (rs == [] ==> End(file, from) == from)
  {
    hide Scan, End;
    ScanOffsets(file, from);
  }

  lemma {:induction false} EndsAtCount(rs: seq<Record>, k: nat, n: nat, bound: nat, end: nat)
    requires k <= |rs| && 0 < n <= |rs| && end <= bound
    requires rs[n - 1].offset >= bound && forall i :: 0 <= i < n - 1 ==> rs[i].offset < bound
    requires forall i, j :: 0 <= i < j < |rs| ==> rs[i].offset < rs[j].offset
    requires forall i :: 0 <= i < k ==> rs[i].offset <= end
    requires k > 0 ==> rs[k - 1].offset == end
    requires k == 0 ==> end < bound
    requires n > k ==> rs[k].offset > bound
    ensures n == k + if end == bound then 0 else 1
  {
    if end == bound && n != k {
      assert k - 1 >= n - 1;
    }
  }

  /** The first record behind the complete ones of a prefix ends beyond that prefix. */
  lemma {:induction false} NextCrosses(was: seq<Byte>, file: seq<Byte>, end: nat)
    requires was <= file && FrameAt(was, end) == None && Scan(file, end) != []
    ensures Scan(file, end)[0].offset > |was|
  {
    ScanStep(file, end);
    hide Scan;
    assert file[..|was|] == was;
    var f := FrameAt(file, end).value;
    if end + HEADER_SIZE + |f.data| <= |was| {
      FrameAtInPrefix(file, |was|, end);
    }
  }
}
