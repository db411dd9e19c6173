/** The output handler of the API (internal/api/execs.go handleExecOutput and drain) as one
    connection sees the world: the log and the row change between its reads. */
module ExecOutput {
  import opened Wrappers
  import opened ExecLog
  import opened Sse
  import opened Follow

  /** One turn of the loop: whether the log file exists yet, the log drain finds, what the row then
      says, the log the last drain of an ended exec finds, and how the wait ends. The log or the row
      may fail to be read. */
  datatype Turn = Turn(
    created: bool, file: seq<Byte>, fault: ReadFault, row: RowSeen, last: seq<Byte>, lastFault: ReadFault, next: Next)

  datatype RowSeen = RowFails | StillRunning | Ended(exit: Payload)

  datatype Next = Woken | Idle | Disconnected

  /** From read to read the log's records only gain a tail. */
  ghost predicate Grows(turns: seq<Turn>) {
    && (forall i :: 0 <= i < |turns| ==> Scan(turns[i].file, 0) <= Scan(turns[i].last, 0))
    && (forall i :: 0 < i < |turns| ==> Scan(turns[i - 1].last, 0) <= Scan(turns[i].file, 0))
  }

  /** drain: one event per record from the offset on, and the cursor behind the last of them. When
      the connection breaks it stops with the record it was sending: tried counts the records up to
      that one. */
  method Drain(f: LogFile, stream: SseWriter, codec: Codec, from: nat, fault: ReadFault)
    returns (offset: nat, ok: bool, ghost tried: nat)
    requires f.Valid() && stream.Valid()
    modifies stream
    ensures var read := ReadSpec(f.present, f.data, from, fault);
            var rs := if read.Some? then read.value else [];
            var sent := PrintAll(RecordItems(rs[..if tried <= |rs| then tried else |rs|], codec));
            && tried <= |rs| && stream.Valid() && stream.out == Cut(old(stream.out) + sent, stream.limit)
            && offset == CursorAfter(from, rs[..tried])
            && (ok ==> read.Some? && tried == |rs| && |old(stream.out) + sent| <= stream.limit)
            && (!ok && read.Some? ==> |old(stream.out) + sent| > stream.limit)
  {
    hide ReadSpec, Scan, Print, PrintAll, RecordItem, RecordItems, Cut, CursorAfter;
    PrintNothing(from, codec);
    tried := 0;
    var read := ReadRecords(f, from, fault);
    if read.None? {
      CutFits(stream.out, stream.limit);
      return from, false, 0;
    }
    var records := read.value;
    offset := from;
    for i := 0 to |records|
      invariant tried == i && stream.Valid() && offset == CursorAfter(from, records[..i])
      invariant stream.out == old(stream.out) + PrintAll(RecordItems(records[..i], codec))
    {
      PrintNext(from, records, i, codec);
      Reassociate(old(stream.out), PrintAll(RecordItems(records[..i], codec)), Print(RecordItem(records[i], codec)));
      ok := SendRecord(stream, records[i], codec);
      offset, tried := records[i].offset, i + 1;
      if !ok {
        return;
      }
      CutFits(old(stream.out) + PrintAll(RecordItems(records[..i + 1], codec)), stream.limit);
    }
    CutFits(stream.out, stream.limit);
    assert records[..|records|] == records;
    ok := true;
  }

  lemma {:induction false} Reassociate<T>(a: seq<T>, b: seq<T>, c: seq<T>)
    ensures a + (b + c) == (a + b) + c
  {
  }

  lemma {:induction false} CutFits(bytes: seq<Byte>, limit: nat)
    ensures |bytes| <= limit ==> Cut(bytes, limit) == bytes
    ensures bytes + [] == bytes
  {
  }

  /** The body of drain's loop. */
  method SendRecord(stream: SseWriter, r: Record, codec: Codec) returns (ok: bool)
    requires stream.Valid()
    modifies stream
    ensures stream.Valid() && stream.out == Cut(old(stream.out) + Print(RecordItem(r, codec)), stream.limit)
    ensures ok <==> |old(stream.out) + Print(RecordItem(r, codec))| <= stream.limit
  {
    hide Print, Cut;
    var event, payload := OUTPUT, Payload(NoStream, [], r.offset, None, false, NoState);
    if r.stream == LOG_GAP {
      event := GAP;
    } else if r.stream == LOG_STDERR {
      payload := payload.(stream := Stderr, data := r.data);
    } else {
      payload := payload.(stream := Stdout, data := r.data);
    }
    ok := stream.Send(event, codec.enc(payload));
  }

  lemma {:induction false} PrintNothing(from: nat, codec: Codec)
    ensures PrintAll(RecordItems([], codec)) == [] && CursorAfter(from, []) == from
  {
  }

  lemma {:induction false} PrintNext(from: nat, rs: seq<Record>, i: nat, codec: Codec)
    requires i < |rs|
    ensures PrintAll(RecordItems(rs[..i + 1], codec)) ==
            PrintAll(RecordItems(rs[..i], codec)) + Print(RecordItem(rs[i], codec))
    ensures rs[..0] == [] && CursorAfter(from, rs[..i + 1]) == rs[i].offset
  {
    hide Print, RecordItem;
    assert rs[..i + 1] == rs[..i] + [rs[i]];
    ItemsJoin(rs[..i], [rs[i]], codec);
    var one := [RecordItem(rs[i], codec)];
    assert RecordItems([rs[i]], codec) == one;
    PrintJoin(RecordItems(rs[..i], codec), one);
    assert one[1..] == [];
    assert PrintAll(one) == Print(one[0]) + PrintAll([]);
  }

  lemma {:induction false} ItemsJoin(a: seq<Record>, b: seq<Record>, codec: Codec)
    ensures RecordItems(a + b, codec) == RecordItems(a, codec) + RecordItems(b, codec)
    decreases |a|
  {
    hide RecordItem;
    if a == [] {
      assert a + b == b;
    } else {
      ItemsJoin(a[1..], b, codec);
      assert (a + b)[0] == a[0] && (a + b)[1..] == a[1..] + b;
    }
  }

  lemma {:induction false} PrintJoin(a: seq<Item>, b: seq<Item>)
    ensures PrintAll(a + b) == PrintAll(a) + PrintAll(b)
    decreases |a|
  {
    hide Print;
    if a == [] {
      assert a + b == b;
    } else {
      PrintJoin(a[1..], b);
      assert (a + b)[0] == a[0] && (a + b)[1..] == a[1..] + b;
    }
  }

  // ---------------------------------------------------------------- heartbeats apart

  function NoBeats(items: seq<Item>): seq<Item> {
    if items == [] then [] else (if items[0].Heartbeat? then [] else [items[0]]) + NoBeats(items[1..])
  }

  /** How many heartbeats come before each event, and behind the last. */
  function Lead(items: seq<Item>): (lead: seq<nat>)
    ensures lead != []
  {
    if items == [] then [0]
    else
      var lead := Lead(items[1..]);
      if items[0].Heartbeat? then [lead[0] + 1] + lead[1..] else [0] + lead
  }

  /** Any stream is its events with those heartbeats woven in. */
  lemma {:induction false} WovenFromParts(items: seq<Item>)
    ensures items == Weave(NoBeats(items), Lead(items))
    decreases |items|
  {
    if items != [] {
      var rest, lead := items[1..], Lead(items[1..]);
      WovenFromParts(rest);
      assert items == [items[0]] + rest;
      if items[0].Heartbeat? {
        WeaveOneMore(NoBeats(rest), lead);
        assert NoBeats(items) == NoBeats(rest);
      } else {
        assert Lead(items)[1..] == lead;
        assert NoBeats(items)[1..] == NoBeats(rest);
      }
    }
  }

  lemma {:induction false} WeaveOneMore(items: seq<Item>, lead: seq<nat>)
    requires lead != []
    ensures Weave(items, [lead[0] + 1] + lead[1..]) == [Heartbeat] + Weave(items, lead)
  {
    var beats, more := seq(lead[0], _ => Heartbeat), seq(lead[0] + 1, _ => Heartbeat);
    assert more == [Heartbeat] + beats;
    assert ([lead[0] + 1] + lead[1..])[1..] == lead[1..];
  }

  lemma {:induction false} NoBeatsJoin(a: seq<Item>, b: seq<Item>)
    ensures NoBeats(a + b) == NoBeats(a) + NoBeats(b)
    decreases |a|
  {
    if a == [] {
      assert a + b == b;
    } else {
      NoBeatsJoin(a[1..], b);
      assert (a + b)[0] == a[0] && (a + b)[1..] == a[1..] + b;
      var head := if a[0].Heartbeat? then [] else [a[0]];
      assert head + (NoBeats(a[1..]) + NoBeats(b)) == (head + NoBeats(a[1..])) + NoBeats(b);
    }
  }

  lemma {:induction false} RecordsHaveNoBeats(rs: seq<Record>, codec: Codec)
    ensures NoBeats(RecordItems(rs, codec)) == RecordItems(rs, codec)
    decreases |rs|
  {
    if rs != [] {
      RecordsHaveNoBeats(rs[1..], codec);
      assert RecordItems(rs, codec)[1..] == RecordItems(rs[1..], codec);
    }
  }

  // ---------------------------------------------------------------- the loop

  /** What a connection has been sent: the printed items are, heartbeats apart, the records of the
      run from its start to its cursor. */
  ghost predicate Served(out: seq<Byte>, before: seq<Byte>, items: seq<Item>, sent: seq<Record>, codec: Codec) {
    out == before + PrintAll(items) && NoBeats(items) == RecordItems(sent, codec)
  }

  /** A connection as its inputs tell it: whether the log file exists, what the body already holds and
      how much the connection takes, where it starts, and the turns. */
  datatype Conn = Conn(present: bool, before: seq<Byte>, limit: nat, codec: Codec, from: nat, turns: seq<Turn>) {
    /** The cursor before a turn, if the turns before it all pass. */
    ghost function OffsetBefore(i: nat): nat
      requires i <= |turns|
      decreases i, 0
    {
      if i == 0 then from else OffsetBehind(i - 1)
    }

    ghost function OffsetBehind(i: nat): nat
      requires i < |turns|
      decreases i, 1
    {
      CursorAfter(OffsetBefore(i), Scan(turns[i].file, OffsetBefore(i)))
    }

    ghost predicate PresentBefore(i: nat)
      requires i <= |turns|
    {
      present || exists j :: 0 <= j < i && (turns[j].created || turns[j].file != [])
    }

    /** The events of a turn: those of the records the log has gained since. */
    ghost function Drained(i: nat): seq<Item>
      requires i < |turns|
    {
      RecordItems(Scan(turns[i].file, OffsetBefore(i)), codec)
    }

    ghost function LastDrained(i: nat): seq<Item>
      requires i < |turns|
    {
      RecordItems(Scan(turns[i].last, OffsetBehind(i)), codec)
    }

    /** All that is sent before a turn: the events of each turn, and a heartbeat behind an idle one. */
    ghost function ItemsBefore(i: nat): seq<Item>
      requires i <= |turns|
    {
      if i == 0 then []
      else ItemsBefore(i - 1) + Drained(i - 1) + (if turns[i - 1].next == Idle then [Item.Heartbeat] else [])
    }

    ghost predicate Fits(items: seq<Item>) {
      |before + PrintAll(items)| <= limit
    }

    ghost predicate Drains(i: nat)
      requires i < |turns|
    {
      && ReadSpec(PresentBefore(i + 1), turns[i].file, OffsetBefore(i), turns[i].fault).Some?
      && Fits(ItemsBefore(i) + Drained(i))
    }

    /** A turn after which the loop goes on: the log could be read, the events got through, the row
        says running, and the wait did not end with the client gone or a heartbeat that failed. */
    ghost predicate Passes(i: nat)
      requires i < |turns|
    {
      && Drains(i) && turns[i].row == StillRunning && turns[i].next != Disconnected
      && (turns[i].next == Idle ==> Fits(ItemsBefore(i + 1)))
    }

    /** A turn that ends with the exit: the row has ended, and both drains could be read and got
        through. */
    ghost predicate SendsExit(i: nat)
      requires i < |turns|
    {
      && Drains(i) && turns[i].row.Ended?
      && ReadSpec(PresentBefore(i + 1) || turns[i].last != [], turns[i].last, OffsetBehind(i), turns[i].lastFault).Some?
      && Fits(ItemsBefore(i) + Drained(i) + LastDrained(i))
    }

    /** How far a connection gets and whether it ends with the exit: the turns before some number pass,
        that one does not, and the exit is sent exactly if that turn sends it. */
    ghost predicate Tells(items: seq<Item>, exit: Option<Payload>, passed: nat) {
      && passed <= |turns| && (forall j :: 0 <= j < passed ==> Passes(j)) && (passed < |turns| ==> !Passes(passed))
      && ItemsBefore(passed) <= items
      && (exit.Some? ==> passed < |turns| && items == ItemsBefore(passed) + Drained(passed) + LastDrained(passed) +
                                                      ExitItems(exit, codec))
      && (forall e :: exit == Some(e) <==> ExitsWith(e))
    }

    ghost predicate ExitsWith(e: Payload) {
      exists i: nat :: i < |turns| && SendsExit(i) && turns[i].row == Ended(e) && forall j :: 0 <= j < i ==> Passes(j)
    }
  }

  lemma {:induction false} ExitsWithExactly(c: Conn, passed: nat, exit: Option<Payload>)
    requires passed <= |c.turns| && forall j :: 0 <= j < passed ==> c.Passes(j)
    requires passed < |c.turns| ==> !c.Passes(passed)
    requires exit == if passed < |c.turns| && c.SendsExit(passed) then Some(c.turns[passed].row.exit) else None
    ensures forall e :: exit == Some(e) <==> c.ExitsWith(e)
  {
    hide Conn.Passes, Conn.SendsExit;
    forall e | exit == Some(e) ensures c.ExitsWith(e) {
      SendsOnlyAtTheEnd(c, passed);
      assert c.SendsExit(passed) && c.turns[passed].row == Ended(e);
    }
    forall e | c.ExitsWith(e) ensures exit == Some(e) {
      var i: nat :| i < |c.turns| && c.SendsExit(i) && c.turns[i].row == Ended(e) &&
                    forall j :: 0 <= j < i ==> c.Passes(j);
      SendsOnlyAtTheEnd(c, i);
      FirstStop(c, passed, i);
    }
  }

  lemma {:induction false} SendsOnlyAtTheEnd(c: Conn, i: nat)
    requires i < |c.turns| && c.SendsExit(i)
    ensures c.turns[i].row.Ended? && !c.Passes(i)
  {
    hide Conn.Drains, Conn.ItemsBefore, Conn.Drained, Conn.LastDrained, Conn.OffsetBehind, Conn.PresentBefore, ReadSpec;
  }

  lemma {:induction false} FirstStop(c: Conn, a: nat, b: nat)
    requires a <= |c.turns| && b <= |c.turns|
    requires (forall j :: 0 <= j < a ==> c.Passes(j)) && (a < |c.turns| ==> !c.Passes(a))
    requires (forall j :: 0 <= j < b ==> c.Passes(j)) && (b < |c.turns| ==> !c.Passes(b))
    ensures a == b
  {
    hide Conn.Passes;
  }

  /** handleExecOutput: what gets through is, up to where the connection breaks, the print of items
      that are, heartbeats apart, one event for each record of a contiguous run from the start of
      the final log read; with `exit` it is all of them. */
  method HandleExecOutput(f: LogFile, stream: SseWriter, codec: Codec, from: nat, turns: seq<Turn>)
    returns (
      ghost items: seq<Item>, ghost sent: seq<Record>, ghost final: seq<Byte>, exit: Option<Payload>, ghost passed: nat)
    requires stream.Valid() && turns != [] && Grows(turns) && Boundary(turns[0].file, from)
    modifies f, stream
    ensures stream.Valid() && stream.out == Cut(old(stream.out) + PrintAll(items), stream.limit)
    ensures NoBeats(items) == RecordItems(sent, codec) + ExitItems(exit, codec)
    ensures sent <= Scan(final, from)
    ensures exit.Some? ==> sent == Scan(final, from)
    ensures exists i :: 0 <= i < |turns| && final in {turns[i].file, turns[i].last} &&
                        (exit.Some? ==> turns[i].row == Ended(exit.value) && final == turns[i].last)
    ensures Conn(old(f.present), old(stream.out), stream.limit, codec, from, turns).Tells(items, exit, passed)
  {
    hide Scan, Print, PrintAll, RecordItem, RecordItems, NoBeats, Cut, CursorAfter, Served, Stitched, Boundary, Grows,
         ExitItems, ReadSpec, Conn.Passes, Conn.SendsExit, Conn.ItemsBefore, Conn.Drained, Conn.LastDrained,
         Conn.OffsetBefore, Conn.OffsetBehind, Conn.PresentBefore, Conn.Fits, Conn.Drains, Conn.ExitsWith, Conn.Tells;
    items, sent, exit, final, passed := [], [], None, turns[0].file, 0;
    var offset := from;
    ghost var before := stream.out;
    ghost var c := Conn(f.present, stream.out, stream.limit, codec, from, turns);
    ConnStart(c);
    ServedNothing(stream.out, codec);
    StitchStart(turns[0].file, from);
    for i := 0 to |turns|
      invariant stream.Valid() && exit == None
      invariant Served(stream.out, before, items, sent, codec)
      invariant i < |turns| ==> Stitched(turns[i].file, from, sent, offset)
      invariant final in {turns[0].file, turns[if i == 0 then 0 else i - 1].file}
      invariant i > 0 ==> sent <= Scan(final, from)
      invariant passed == i && forall j :: 0 <= j < i ==> c.Passes(j)
      invariant items == c.ItemsBefore(i) && offset == c.OffsetBefore(i) && f.present == c.PresentBefore(i)
    {
      var turn := turns[i];
      ghost var at := offset;
      ConnTurn(c, i);
      WriterMoves(f, turn.file, turn.created);
      final := turn.file;
      var ok;
      offset, ok, items, sent := DrainMore(f, stream, codec, from, offset, turn.fault, before, items, sent);
      StitchedBoundary(final, from, sent, offset);
      ServedEnd(items, sent, codec);
      if !ok || turn.row == RowFails {
        ConnStops(c, i, items);
        return;
      }
      GrowsAt(turns, i);
      StitchedInExtension(turn.file, turn.last, from, sent, offset);
      if turn.row.Ended? {
        WriterMoves(f, turn.last, turn.created);
        final := turn.last;
        exit, items, sent :=
          LastDrain(f, stream, codec, from, offset, turn.lastFault, turn.row.exit, before, items, sent);
        if exit.Some? {
          ConnExits(c, i, items);
        } else {
          ConnStops(c, i, items);
        }
        return;
      }
      if turn.next == Disconnected {
        ConnStops(c, i, items);
        return;
      }
      if turn.next == Idle {
        ServedBeat(stream.out, before, items, sent, codec, stream.limit);
        ok := stream.Heartbeat();
        items := items + [Item.Heartbeat];
        ServedEnd(items, sent, codec);
        if !ok {
          ConnStops(c, i, items);
          return;
        }
      }
      passed := i + 1;
      if i + 1 < |turns| {
        GrowsAt(turns, i + 1);
        StitchedInExtension(turn.last, turns[i + 1].file, from, sent, offset);
      }
    }
    ServedIs(stream.out, before, items, sent, codec);
    ServedEnd(items, sent, codec);
    CutFits(stream.out, stream.limit);
    ConnOver(c, items);
  }

  lemma {:induction false} ConnStart(c: Conn)
    ensures c.ItemsBefore(0) == [] && c.OffsetBefore(0) == c.from && c.PresentBefore(0) == c.present
  {
  }

  /** What a turn comes to, in terms of what is known before it. */
  lemma {:induction false} ConnTurn(c: Conn, i: nat)
    requires i < |c.turns|
    ensures var turn := c.turns[i]; var at, items := c.OffsetBefore(i), c.ItemsBefore(i);
            && c.PresentBefore(i + 1) == (c.PresentBefore(i) || turn.created || turn.file != [])
            && c.Drained(i) == RecordItems(Scan(turn.file, at), c.codec)
            && c.OffsetBehind(i) == CursorAfter(at, Scan(turn.file, at)) == c.OffsetBefore(i + 1)
            && c.LastDrained(i) == RecordItems(Scan(turn.last, c.OffsetBehind(i)), c.codec)
            && c.ItemsBefore(i + 1) == items + c.Drained(i) + (if turn.next == Idle then [Item.Heartbeat] else [])
            && (c.Drains(i) <==> ReadSpec(c.PresentBefore(i + 1), turn.file, at, turn.fault).Some? &&
                                 |c.before + PrintAll(items + c.Drained(i))| <= c.limit)
            && (c.Passes(i) <==> c.Drains(i) && turn.row == StillRunning && turn.next != Disconnected &&
                                 (turn.next == Idle ==> |c.before + PrintAll(c.ItemsBefore(i + 1))| <= c.limit))
            && (c.SendsExit(i) <==>
                && c.Drains(i) && turn.row.Ended?
                && (var present := c.PresentBefore(i + 1) || turn.last != [];
                    ReadSpec(present, turn.last, c.OffsetBehind(i), turn.lastFault).Some?)
                && |c.before + PrintAll(items + c.Drained(i) + c.LastDrained(i))| <= c.limit)
  {
    hide Scan, CursorAfter, RecordItems, ReadSpec, PrintAll;
  }

  lemma {:induction false} ConnStops(c: Conn, i: nat, items: seq<Item>)
    requires i < |c.turns| && (forall j :: 0 <= j < i ==> c.Passes(j)) && !c.Passes(i) && !c.SendsExit(i)
    requires c.ItemsBefore(i) <= items
    ensures c.Tells(items, None, i)
  {
    hide Conn.Passes, Conn.SendsExit, Conn.ExitsWith, Conn.ItemsBefore;
    ExitsWithExactly(c, i, None);
  }

  lemma {:induction false} ConnExits(c: Conn, i: nat, items: seq<Item>)
    requires i < |c.turns| && (forall j :: 0 <= j < i ==> c.Passes(j)) && c.SendsExit(i) && c.turns[i].row.Ended?
    requires items == c.ItemsBefore(i) + c.Drained(i) + c.LastDrained(i) +
                      [Item.Send(EXIT, c.codec.enc(c.turns[i].row.exit))]
    ensures c.Tells(items, Some(c.turns[i].row.exit), i)
  {
    hide Conn.Drains, Conn.ItemsBefore, Conn.Drained, Conn.LastDrained, Conn.OffsetBehind, Conn.PresentBefore, ReadSpec,
         Conn.ExitsWith;
    ExitsWithExactly(c, i, Some(c.turns[i].row.exit));
  }

  lemma {:induction false} ConnOver(c: Conn, items: seq<Item>)
    requires (forall j :: 0 <= j < |c.turns| ==> c.Passes(j)) && items == c.ItemsBefore(|c.turns|)
    ensures c.Tells(items, None, |c.turns|)
  {
    hide Conn.Passes, Conn.SendsExit, Conn.ExitsWith, Conn.ItemsBefore;
    ExitsWithExactly(c, |c.turns|, None);
  }

  /** The end of an ended exec's stream: what is left of the log, then the exit. */
  method LastDrain(
      f: LogFile, stream: SseWriter, codec: Codec, ghost from: nat, offset: nat, fault: ReadFault, ended: Payload,
      ghost before: seq<Byte>, ghost items: seq<Item>, ghost sent: seq<Record>)
    returns (exit: Option<Payload>, ghost items': seq<Item>, ghost sent': seq<Record>)
    requires f.Valid() && stream.Valid()
    requires Served(stream.out, before, items, sent, codec) && Stitched(f.data, from, sent, offset)
    modifies stream
    ensures stream.Valid() && stream.out == Cut(before + PrintAll(items'), stream.limit)
    ensures NoBeats(items') == RecordItems(sent', codec) + ExitItems(exit, codec) && items <= items'
    ensures sent' <= Scan(f.data, from) && (exit.Some? ==> sent' == Scan(f.data, from))
    ensures var all := items + RecordItems(Scan(f.data, offset), codec);
            var through := ReadSpec(f.present, f.data, offset, fault).Some? && |before + PrintAll(all)| <= stream.limit;
            && exit == (if through then Some(ended) else None)
            && (through ==> items' == all + [Item.Send(EXIT, codec.enc(ended))])
  {
    hide ReadSpec, Scan, Print, PrintAll, RecordItem, RecordItems, NoBeats, Cut, CursorAfter, Served, Stitched,
         Boundary, ExitItems;
    var next, ok;
    next, ok, items', sent' := DrainMore(f, stream, codec, from, offset, fault, before, items, sent);
    StitchedBoundary(f.data, from, sent', next);
    ServedEnd(items', sent', codec);
    exit := None;
    if ok {
      ServedExit(stream.out, before, items', sent', ended, codec);
      var _ := stream.Send(EXIT, codec.enc(ended));
      items', exit := items' + [Item.Send(EXIT, codec.enc(ended))], Some(ended);
    }
  }

  /** drain within a connection that has been served so far. */
  method DrainMore(
      f: LogFile, stream: SseWriter, codec: Codec, ghost from: nat, offset: nat, fault: ReadFault,
      ghost before: seq<Byte>, ghost items: seq<Item>, ghost sent: seq<Record>)
    returns (next: nat, ok: bool, ghost items': seq<Item>, ghost sent': seq<Record>)
    requires f.Valid() && stream.Valid()
    requires Served(stream.out, before, items, sent, codec) && Stitched(f.data, from, sent, offset)
    modifies stream
    ensures stream.Valid() && stream.out == Cut(before + PrintAll(items'), stream.limit)
    ensures NoBeats(items') == RecordItems(sent', codec) && Stitched(f.data, from, sent', next)
    ensures ok ==> Served(stream.out, before, items', sent', codec) && sent' == Scan(f.data, from)
    ensures var all := items + RecordItems(Scan(f.data, offset), codec);
            && (ok <==> ReadSpec(f.present, f.data, offset, fault).Some? && |before + PrintAll(all)| <= stream.limit)
            && (ok ==> items' == all && next == CursorAfter(offset, Scan(f.data, offset)))
    ensures items <= items'
  {
    hide ReadSpec, Scan, Print, PrintAll, RecordItem, RecordItems, NoBeats, Cut, CursorAfter, Served, Stitched,
         Boundary;
    ghost var was := stream.out;
    ghost var tried;
    next, ok, tried := Drain(f, stream, codec, offset, fault);
    ReadIsScan(f.present, f.data, offset, fault);
    ghost var read, rs := ReadSpec(f.present, f.data, offset, fault), Scan(f.data, offset);
    ghost var part := rs[..tried];
    StitchRun(f.data, from, sent, offset, tried);
    ServedMore(was, before, items, sent, part, codec);
    items', sent' := items + RecordItems(part, codec), sent + part;
    ServedIs(was + PrintAll(RecordItems(part, codec)), before, items', sent', codec);
    assert read.Some? ==> part == rs[..tried];
    MorePrints(before, items, rs, tried, codec);
    assert read.Some? && tried == |rs| ==> part == rs;
    if ok {
      CutFits(before + PrintAll(items'), stream.limit);
      assert part == rs;
      StitchWhole(f.data, from, sent, offset);
    } else if read.None? {
      assert part == [];
      PrintNothing(offset, codec);
    }
  }

  /** Printing more takes more room. */
  lemma {:induction false} MorePrints(before: seq<Byte>, items: seq<Item>, rs: seq<Record>, k: nat, codec: Codec)
    requires k <= |rs|
    ensures |before + PrintAll(items + RecordItems(rs[..k], codec))| <=
            |before + PrintAll(items + RecordItems(rs, codec))|
  {
    hide PrintAll, RecordItems;
    assert rs == rs[..k] + rs[k..];
    ItemsJoin(rs[..k], rs[k..], codec);
    PrintJoin(items, RecordItems(rs[..k], codec));
    PrintJoin(items, RecordItems(rs, codec));
    PrintJoin(RecordItems(rs[..k], codec), RecordItems(rs[k..], codec));
  }

  lemma {:induction false} ServedIs(
      out: seq<Byte>, before: seq<Byte>, items: seq<Item>, sent: seq<Record>, codec: Codec)
    requires Served(out, before, items, sent, codec)
    ensures out == before + PrintAll(items) && NoBeats(items) == RecordItems(sent, codec)
  {
  }

  /** What the writer has done to the log by the next read. */
  method WriterMoves(f: LogFile, file: seq<Byte>, created: bool)
    modifies f
    ensures f.data == file && f.Valid() && f.present == (old(f.present) || created || file != [])
  {
    f.data := file;
    f.present := f.present || created || file != [];
  }

  function ExitItems(exit: Option<Payload>, codec: Codec): seq<Item> {
    if exit.Some? then [Send(EXIT, codec.enc(exit.value))] else []
  }

  lemma {:induction false} GrowsAt(turns: seq<Turn>, i: nat)
    requires Grows(turns) && i < |turns|
    ensures Scan(turns[i].file, 0) <= Scan(turns[i].last, 0)
    ensures i > 0 ==> Scan(turns[i - 1].last, 0) <= Scan(turns[i].file, 0)
  {
    hide Scan;
  }

  lemma {:induction false} StitchedBoundary(file: seq<Byte>, from: nat, sent: seq<Record>, offset: nat)
    requires Stitched(file, from, sent, offset)
    ensures sent <= Scan(file, from) && Boundary(file, offset) && offset == CursorAfter(from, sent)
    ensures Scan(file, offset) == [] ==> sent == Scan(file, from)
  {
    hide Scan, Boundary;
  }

  /** Draining brings the cursor to the end of the log. */
  lemma {:induction false} StitchWhole(file: seq<Byte>, from: nat, sent: seq<Record>, offset: nat)
    requires Stitched(file, from, sent, offset)
    ensures var rs := Scan(file, offset);
            Stitched(file, from, sent + rs, CursorAfter(offset, rs)) && sent + rs == Scan(file, from)
  {
    hide Scan, Boundary;
    var rs := Scan(file, offset);
    StitchRun(file, from, sent, offset, |rs|);
    assert rs[..|rs|] == rs;
  }

  lemma {:induction false} ServedNothing(out: seq<Byte>, codec: Codec)
    ensures Served(out, out, [], [], codec)
  {
  }

  lemma {:induction false} ServedMore(
      out: seq<Byte>, before: seq<Byte>, items: seq<Item>, sent: seq<Record>, rs: seq<Record>, codec: Codec)
    requires Served(out, before, items, sent, codec)
    ensures Served(out + PrintAll(RecordItems(rs, codec)), before, items + RecordItems(rs, codec), sent + rs, codec)
  {
    hide PrintAll, NoBeats, RecordItems;
    PrintJoin(items, RecordItems(rs, codec));
    NoBeatsJoin(items, RecordItems(rs, codec));
    RecordsHaveNoBeats(rs, codec);
    ItemsJoin(sent, rs, codec);
  }

  lemma {:induction false} ServedOne(
      out: seq<Byte>, before: seq<Byte>, items: seq<Item>, sent: seq<Record>, item: Item, codec: Codec)
    requires Served(out, before, items, sent, codec)
    ensures out + Print(item) == before + PrintAll(items + [item])
    ensures NoBeats(items + [item]) == RecordItems(sent, codec) + if item.Heartbeat? then [] else [item]
  {
    hide Print;
    PrintJoin(items, [item]);
    NoBeatsJoin(items, [item]);
    assert [item][1..] == [];
    assert PrintAll([item]) == Print(item) + PrintAll([]);
    hide PrintAll;
  }

  lemma {:induction false} ServedBeat(
      out: seq<Byte>, before: seq<Byte>, items: seq<Item>, sent: seq<Record>, codec: Codec, limit: nat)
    requires Served(out, before, items, sent, codec)
    ensures Served(out + Print(Item.Heartbeat), before, items + [Item.Heartbeat], sent, codec)
    ensures out + Print(Item.Heartbeat) == before + PrintAll(items + [Item.Heartbeat])
    ensures Cut(out + Print(Item.Heartbeat), limit) == Cut(before + PrintAll(items + [Item.Heartbeat]), limit)
    ensures var beat := out + Print(Item.Heartbeat); |beat| <= limit ==> Cut(beat, limit) == beat
    ensures NoBeats(items + [Item.Heartbeat]) == RecordItems(sent, codec)
  {
    hide Print, PrintAll, NoBeats;
    ServedOne(out, before, items, sent, Item.Heartbeat, codec);
  }

  lemma {:induction false} ServedExit(
      out: seq<Byte>, before: seq<Byte>, items: seq<Item>, sent: seq<Record>, exit: Payload, codec: Codec)
    requires Served(out, before, items, sent, codec)
    ensures var item := Item.Send(EXIT, codec.enc(exit));
            && out + Print(item) == before + PrintAll(items + [item])
            && NoBeats(items + [item]) == RecordItems(sent, codec) + ExitItems(Some(exit), codec)
  {
    hide Print, PrintAll, NoBeats;
    ServedOne(out, before, items, sent, Item.Send(EXIT, codec.enc(exit)), codec);
  }

  lemma {:induction false} ServedEnd(items: seq<Item>, sent: seq<Record>, codec: Codec)
    requires NoBeats(items) == RecordItems(sent, codec)
    ensures NoBeats(items) == RecordItems(sent, codec) + ExitItems(None, codec)
  {
  }

  /** Such a connection is one the reconnecting client reckons with: its body is that of an
      attempt over the final log, with as many records reached as were sent, cut where the
      connection broke. */
  lemma {:induction false} ServedIsAnAttempt(
      items: seq<Item>, sent: seq<Record>, final: seq<Byte>, from: nat, exit: Option<Payload>, codec: Codec,
      limit: nat, clean: bool)
    requires NoBeats(items) == RecordItems(sent, codec) + ExitItems(exit, codec)
    requires sent <= Scan(final, from) && (exit.Some? ==> sent == Scan(final, from))
    ensures var a := Attempt(final, false, Lead(items), |sent|, exit, limit, clean);
            && a.Reached(from) == sent && a.Items(from, codec) == items
            && a.Body(from, codec) == Cut(PrintAll(items), limit)
  {
    hide Scan, Weave, PrintAll, NoBeats, Lead, RecordItems;
    WovenFromParts(items);
  }
}
