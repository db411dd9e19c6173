/** Following an exec's output across reconnects: the stream a server sends for a log
    (internal/api/execs.go drain and the exit event), the event handler and the reconnect loop of
    the command line (cmd/orcal/exec_cmd.go stream, cmd/orcal/logs_cmd.go followLogs). */
module Follow {
  import opened Wrappers
  import opened ExecLog
  import opened Sse

  // ---------------------------------------------------------------- payloads as JSON text

  datatype Channel = NoStream | Stdout | Stderr
  datatype ExecState = NoState | Running | Exited | Failed

  datatype Payload = Payload(
    stream: Channel, data: seq<Byte>, offset: nat, exitCode: Option<int>, truncated: bool, state: ExecState)

  const INT64_LIMIT := 0x8000_0000_0000_0000

  /** Payloads whose numbers are the source's 64-bit integers. */
  predicate Wire(p: Payload) {
    p.offset < INT64_LIMIT && (p.exitCode.Some? ==> -INT64_LIMIT <= p.exitCode.value < INT64_LIMIT)
  }

  /** The JSON and base64 libraries: a payload's text, and reading it back. */
  datatype Codec = Codec(enc: Payload -> seq<Byte>, dec: Text -> Option<Payload>) {
    /** An encoded object is one line of at most base64 size plus its other fields, reads back to
        itself, and no strict prefix of it is a JSON value. */
    ghost predicate Lossless() {
      forall p :: Wire(p) ==>
        && OneLine(enc(p)) && |enc(p)| <= (|p.data| + 2) / 3 * 4 + 256
        && dec(enc(p)) == Some(p)
        && WholeOnly(enc(p), dec)
    }
  }

  ghost predicate WholeOnly<P>(body: Text, loads: Text -> Option<P>) {
    forall j :: 0 <= j < |body| ==> loads(body[..j]) == None
  }

  const OUTPUT: seq<Byte> := [111, 117, 116, 112, 117, 116]
  const GAP: seq<Byte> := [103, 97, 112]
  const EXIT: seq<Byte> := [101, 120, 105, 116]

  // ---------------------------------------------------------------- the server's side

  function RecordEvent(r: Record): Event<Payload> {
    if r.stream == LOG_GAP then Event(GAP, Payload(NoStream, [], r.offset, None, false, NoState))
    else if r.stream == LOG_STDERR then Event(OUTPUT, Payload(Stderr, r.data, r.offset, None, false, NoState))
    else Event(OUTPUT, Payload(Stdout, r.data, r.offset, None, false, NoState))
  }

  function RecordItem(r: Record, codec: Codec): Item {
    Send(if r.stream == LOG_GAP then GAP else OUTPUT, codec.enc(RecordEvent(r).payload))
  }

  function RecordItems(rs: seq<Record>, codec: Codec): seq<Item> {
    if rs == [] then [] else [RecordItem(rs[0], codec)] + RecordItems(rs[1..], codec)
  }

  function RecordEvents(rs: seq<Record>): (es: seq<Event<Payload>>)
    ensures |es| == |rs|
  {
    if rs == [] then [] else [RecordEvent(rs[0])] + RecordEvents(rs[1..])
  }

  /** Heartbeats fall anywhere: lead[j] of them before the j-th item. */
  function Weave(items: seq<Item>, lead: seq<nat>): seq<Item>
    decreases |items|
  {
    var beats := seq(if lead == [] then 0 else lead[0], _ => Heartbeat);
    if items == [] then beats
    else beats + [items[0]] + Weave(items[1..], if lead == [] then [] else lead[1..])
  }

  /** One connection: the log it reads, whether it is answered at all, how many records the
      server gets to before the handler or the daemon ends (all of them if it sends exit),
      where the body is cut and whether the cut looks like a clean end. */
  datatype Attempt = Attempt(
    file: seq<Byte>, refused: bool, lead: seq<nat>, reach: nat, exit: Option<Payload>, cut: nat, clean: bool)
  {
    function Reached(offset: nat): (rs: seq<Record>)
      ensures rs <= Scan(file, offset)
      ensures exit.Some? ==> rs == Scan(file, offset)
    {
      var all := Scan(file, offset);
      if exit.Some? || reach >= |all| then all else all[..reach]
    }

    function Items(offset: nat, codec: Codec): seq<Item> {
      Weave(RecordItems(Reached(offset), codec) +
            (if exit.Some? then [Send(EXIT, codec.enc(exit.value))] else []), lead)
    }

    function Body(offset: nat, codec: Codec): seq<Byte> {
      var whole := PrintAll(Items(offset, codec));
      if cut < |whole| then whole[..cut] else whole
    }

    /** The events the client handles: those complete before the cut that the terminal takes. */
    function Events(offset: nat, codec: Codec, writes: nat): nat {
      if refused then 0 else if writes < Got(Items(offset, codec), cut) then writes else Got(Items(offset, codec), cut)
    }

    /** The records among them, which come first. */
    function Records(offset: nat, codec: Codec, writes: nat): nat {
      var n := Events(offset, codec, writes);
      if n <= |Reached(offset)| then n else |Reached(offset)|
    }

    /** Whether the exit is among them. */
    predicate Exits(offset: nat, codec: Codec, writes: nat) {
      exit.Some? && Events(offset, codec, writes) > |Reached(offset)|
    }

    /** A connection that ends like a stream that is over: answered, closed cleanly, not inside an
        event's data, and with every write to the terminal taken. */
    predicate Smooth(offset: nat, codec: Codec, writes: nat) {
      !refused && clean && !Torn(Items(offset, codec), cut) && Got(Items(offset, codec), cut) <= writes
    }

    predicate Proper() {
      |file| < INT64_LIMIT && (exit.Some? ==> Wire(exit.value) && exit.value.data == [])
    }
  }

  // ---------------------------------------------------------------- the client's side

  /** What a record puts on the terminal. */
  datatype Note = Chunk(stderr: bool, data: seq<Byte>) | GapNote

  datatype Diagnostic = TruncatedNote | ExecFailedNote | Reconnecting(offset: nat) | StreamEnded

  datatype Outcome = Outcome(sawExit: bool, code: int, offset: nat)

  const EXIT_SELF := 125
  const RECONNECT_ATTEMPTS: nat := 3

  function RecordNote(r: Record): Note {
    if r.stream == LOG_GAP then GapNote else Chunk(r.stream == LOG_STDERR, r.data)
  }

  function Notes(rs: seq<Record>): (ns: seq<Note>)
    ensures |ns| == |rs|
  {
    seq(|rs|, i requires 0 <= i < |rs| => RecordNote(rs[i]))
  }

  /** execOutputExitCode: no code means a failure of the tool itself. */
  function CodeOf(exit: Payload): int {
    if exit.exitCode.Some? then exit.exitCode.value else EXIT_SELF
  }

  /** The state of the event handler after some events, and whether it told the scanner to stop. */
  datatype Progress = Progress(out: Outcome, shown: seq<Note>, diags: seq<Diagnostic>, stopped: bool)

  function Handle(p: Progress, e: Event<Payload>, stopAt: int): Progress {
    if e.name == EXIT then
      var diags := p.diags + (if e.payload.truncated then [TruncatedNote] else []);
      p.(out := p.out.(sawExit := true, code := CodeOf(e.payload)),
         diags := diags + (if e.payload.exitCode.None? then [ExecFailedNote] else []))
    else
      var moved :=
        if e.name == OUTPUT then
          p.(out := p.out.(offset := e.payload.offset),
             shown := p.shown + [Chunk(e.payload.stream == Stderr, e.payload.data)])
        else if e.name == GAP then
          p.(out := p.out.(offset := e.payload.offset), shown := p.shown + [GapNote])
        else p;
      moved.(stopped := stopAt >= 0 && moved.out.offset >= stopAt)
  }

  function HandleAll(p: Progress, es: seq<Event<Payload>>, stopAt: int): Progress
    decreases |es|
  {
    if es == [] || p.stopped then p else HandleAll(Handle(p, es[0], stopAt), es[1..], stopAt)
  }

  function Start(offset: nat): Progress {
    Progress(Outcome(false, 0, offset), [], [], false)
  }

  /** The events handled before a write to the terminal fails. */
  function Handled(events: seq<Event<Payload>>, writes: nat): seq<Event<Payload>> {
    if writes < |events| then events[..writes] else events
  }

  /** app.stream: one connection, event by event, of which the terminal takes so many. After an
      error the caller uses nothing else of the outcome. */
  method Stream(attempt: Attempt, codec: Codec, from: nat, stopAt: int, writes: nat) returns (p: Progress, err: bool)
    ensures attempt.refused ==> p == Start(from) && err
    ensures !attempt.refused ==>
              var scanned := GoScan([], attempt.Body(from, codec), codec.dec);
              && p == HandleAll(Start(from), Handled(scanned.events, writes), stopAt)
              && err == (!p.stopped && !(scanned.ok && attempt.clean && |scanned.events| <= writes))
  {
    hide HandleAll, GoScan, Attempt.Body;
    p := Start(from);
    if attempt.refused {
      return p, true;
    }
    var events, ok := StreamOutput(attempt.Body(from, codec), codec.dec);
    p := HandleEvents(Handled(events, writes), from, stopAt);
    err := !p.stopped && !(ok && attempt.clean && |events| <= writes);
  }

  /** The handler over one event after the other, until it stops. */
  method HandleEvents(events: seq<Event<Payload>>, from: nat, stopAt: int) returns (p: Progress)
    ensures p == HandleAll(Start(from), events, stopAt)
  {
    hide Handle;
    p := Start(from);
    var i := 0;
    while i < |events| && !p.stopped
      invariant 0 <= i <= |events|
      invariant HandleAll(p, events[i..], stopAt) == HandleAll(Start(from), events, stopAt)
    {
      assert events[i..][1..] == events[i + 1..];
      p := Handle(p, events[i], stopAt);
      i := i + 1;
    }
  }

  // ---------------------------------------------------------------- a stream cut anywhere

  /** How many events are complete in the first k bytes of a stream: an event is once the last byte of
      its data is there. */
  function Got(items: seq<Item>, k: nat): (n: nat)
    decreases |items|
  {
    if items == [] then 0
    else
      var size := |Print(items[0])|;
      if k >= size then (if items[0].Send? then 1 else 0) + Got(items[1..], k - size)
      else if items[0].Send? && k + 2 >= size then 1
      else 0
  }

  /** Whether the first k bytes end inside an event's data. */
  predicate Torn(items: seq<Item>, k: nat)
    decreases |items|
  {
    items != [] &&
    var size := |Print(items[0])|;
    if k >= size then Torn(items[1..], k - size) else TornIn(items[0], k)
  }

  predicate TornIn(item: Item, k: nat) {
    item.Send? && |EVENT_PREFIX + item.name| + 1 + 6 <= k < |EVENT_PREFIX + item.name| + 1 + 6 + |item.body|
  }

  /** A stream cut inside one item yields its event if all its data is there, and fails if only some
      of it is. */
  lemma {:induction false} GoScanCutItem<P>(event: Text, item: Item, k: nat, loads: Text -> Option<P>)
    requires WellSent(item, loads) && (item.Send? ==> WholeOnly(item.body, loads))
    requires k < |Print(item)|
    ensures GoScan(event, Print(item)[..k], loads) ==
            Scanned(if item.Send? && k + 2 >= |Print(item)| then SentOne(item, loads) else [], !TornIn(item, k))
  {
    hide GoScan, Classify, DropCR, WholeOnly;
    match item
    case Heartbeat =>
      CutHeartbeat(event, k, loads);
    case Send(name, body) =>
      var first, second: Text := EVENT_PREFIX + name, DATA_PREFIX + body;
      var cut: Text := Print(item)[..k];
      if k <= |first| {
        assert cut == first[..k];
        CutFirstLine(event, name, k, loads);
      } else {
        var j := k - |first| - 1;
        assert cut == first + [NL] + (second + [NL, NL])[..j];
        ClassifySent(name, body);
        GoLine(event, first, (second + [NL, NL])[..j], loads);
        CutSecondLine(name, body, j, loads);
      }
  }

  lemma {:induction false} CutFirstLine<P>(event: Text, name: Text, k: nat, loads: Text -> Option<P>)
    requires OneLine(name) && |name| < MAX_LINE - 7 && k <= 7 + |name|
    ensures GoScan(event, (EVENT_PREFIX + name)[..k], loads) == Scanned([], true)
  {
    var line := (EVENT_PREFIX + name)[..k];
    if k > 0 {
      GoLastLine(event, line, loads);
      assert line[k - 1] != CR;
      assert line[0] != DATA_PREFIX[0];
      assert k >= 6 ==> line[..6][0] == line[0];
    }
  }

  lemma {:induction false} CutSecondLine<P>(name: Text, body: Text, j: nat, loads: Text -> Option<P>)
    requires OneLine(body) && |body| < MAX_LINE - 6 && j < |body| + 8
    requires WholeOnly(body, loads) && loads(body).Some?
    ensures GoScan(name, (DATA_PREFIX + body + [NL, NL])[..j], loads) ==
            Scanned(if j >= |body| + 6 then [Event(name, loads(body).value)] else [], !(6 <= j < |body| + 6))
  {
    var second := DATA_PREFIX + body;
    var cut := (second + [NL, NL])[..j];
    if j <= |second| {
      assert cut == second[..j];
      if j > 0 {
        GoLastLine(name, cut, loads);
        ClassifyCutData(body, j);
        if j >= 6 {
          assert j == |second| ==> body[..j - 6] == body;
        }
      }
    } else {
      assert cut == second + [NL] + [];
      ClassifySent([], body);
      GoLine(name, second, [], loads);
    }
  }

  lemma {:induction false} ClassifyCutData(body: Text, j: nat)
    requires OneLine(body) && 0 < j <= |body| + 6
    ensures Classify(DropCR((DATA_PREFIX + body)[..j])) == if j >= 6 then DataLine(body[..j - 6]) else Other
  {
    var line := (DATA_PREFIX + body)[..j];
    assert line[j - 1] != CR by {
      if j > 6 { assert line[j - 1] == body[j - 7]; }
    }
    assert line[0] == DATA_PREFIX[0] && DATA_PREFIX[0] != EVENT_PREFIX[0];
    assert j >= 7 ==> line[..7][0] == line[0];
    if j >= 6 {
      assert line[..6] == DATA_PREFIX && line[6..] == body[..j - 6];
    }
  }

  lemma {:induction false} CutHeartbeat<P>(event: Text, k: nat, loads: Text -> Option<P>)
    requires k < |KEEPALIVE| + 2
    ensures GoScan(event, (KEEPALIVE + [NL, NL])[..k], loads) == Scanned([], true)
  {
    var cut := (KEEPALIVE + [NL, NL])[..k];
    if 0 < k <= |KEEPALIVE| {
      assert cut == KEEPALIVE[..k];
      GoLastLine(event, cut, loads);
      assert cut[0] != EVENT_PREFIX[0] && cut[0] != DATA_PREFIX[0] && cut[k - 1] != CR;
      assert k >= 7 ==> cut[..7][0] == cut[0];
      assert k >= 6 ==> cut[..6][0] == cut[0];
    } else if k > 0 {
      assert cut == KEEPALIVE + [NL] + [];
      ClassifySent([], []);
      GoLine(event, KEEPALIVE, [], loads);
    }
  }

  ghost predicate Truthful<P(!new)>(items: seq<Item>, loads: Text -> Option<P>) {
    forall i :: 0 <= i < |items| ==>
      WellSent(items[i], loads) && (items[i].Send? ==> WholeOnly(items[i].body, loads))
  }

  /** A stream cut at any byte yields exactly the events that are complete by then, and fails exactly
      if it ends inside the data of one. */
  lemma {:induction false} GoScanCut<P(!new)>(event: Text, items: seq<Item>, k: nat, loads: Text -> Option<P>)
    requires Truthful(items, loads) && k <= |PrintAll(items)|
    ensures Got(items, k) <= |Sent(items, loads)|
    ensures GoScan(event, PrintAll(items)[..k], loads) == Scanned(Sent(items, loads)[..Got(items, k)], !Torn(items, k))
    decreases |items|
  {
    hide GoScan, Print, WellSent, WholeOnly, SentOne, TornIn;
    if items == [] {
      GoScanNothing(event, loads);
    } else {
      var head, tail := Print(items[0]), PrintAll(items[1..]);
      OneEvent(items[0], loads);
      if k < |head| {
        assert PrintAll(items)[..k] == head[..k];
        GoScanCutItem(event, items[0], k, loads);
        assert Sent(items, loads)[..0] == [];
        assert items[0].Send? ==> Sent(items, loads)[..1] == SentOne(items[0], loads);
      } else {
        var event' := if items[0].Send? then [] else event;
        assert PrintAll(items)[..k] == head + tail[..k - |head|];
        GoScanCut(event', items[1..], k - |head|, loads);
        GoScansOne(event, items[0], tail[..k - |head|], loads);
        var one, rest := SentOne(items[0], loads), Sent(items[1..], loads);
        assert (one + rest)[..|one| + Got(items[1..], k - |head|)] == one + rest[..Got(items[1..], k - |head|)];
      }
    }
  }

  lemma {:induction false} OneEvent<P(!new)>(item: Item, loads: Text -> Option<P>)
    requires WellSent(item, loads)
    ensures |SentOne(item, loads)| == if item.Send? then 1 else 0
  {
  }

  /** The whole of a stream, and anything behind it, has all the events and is not torn. */
  lemma {:induction false} UncutHasAll<P(!new)>(items: seq<Item>, k: nat, loads: Text -> Option<P>)
    requires Truthful(items, loads) && k >= |PrintAll(items)|
    ensures Got(items, k) == |Sent(items, loads)| && !Torn(items, k)
    decreases |items|
  {
    hide Print, WellSent, WholeOnly, SentOne, TornIn;
    if items != [] {
      OneEvent(items[0], loads);
      UncutHasAll(items[1..], k - |Print(items[0])|, loads);
    }
  }

  // ---------------------------------------------------------------- what the server sends

  lemma {:induction false} WeaveIsTruthful<P(!new)>(items: seq<Item>, lead: seq<nat>, loads: Text -> Option<P>)
    requires Truthful(items, loads)
    ensures Truthful(Weave(items, lead), loads) && Sent(Weave(items, lead), loads) == Sent(items, loads)
    decreases |items|
  {
    hide Sent, Truthful;
    var beats := seq(if lead == [] then 0 else lead[0], _ => Heartbeat);
    BeatsAreSilent(beats, loads);
    if items == [] {
      BeatsAreSilent([], loads);
    } else {
      TruthfulSplit(items, loads);
      var rest := Weave(items[1..], if lead == [] then [] else lead[1..]);
      WeaveIsTruthful(items[1..], if lead == [] then [] else lead[1..], loads);
      SentOfJoin(beats + [items[0]], rest, loads);
      SentOfJoin(beats, [items[0]], loads);
      SentOfJoin([items[0]], items[1..], loads);
      assert items == [items[0]] + items[1..];
      TruthfulJoin(beats, [items[0]], loads);
      TruthfulJoin(beats + [items[0]], rest, loads);
    }
  }

  lemma {:induction false} TruthfulJoin<P(!new)>(a: seq<Item>, b: seq<Item>, loads: Text -> Option<P>)
    requires Truthful(a, loads) && Truthful(b, loads)
    ensures Truthful(a + b, loads)
  {
    hide WellSent, WholeOnly;
  }

  lemma {:induction false} TruthfulSplit<P(!new)>(items: seq<Item>, loads: Text -> Option<P>)
    requires Truthful(items, loads) && items != []
    ensures Truthful([items[0]], loads) && Truthful(items[1..], loads)
  {
    hide WellSent, WholeOnly;
  }

  lemma {:induction false} SentOfJoin<P>(a: seq<Item>, b: seq<Item>, loads: Text -> Option<P>)
    ensures Sent(a + b, loads) == Sent(a, loads) + Sent(b, loads)
    decreases |a|
  {
    hide SentOne;
    if a == [] {
      assert a + b == b;
    } else {
      SentOfJoin(a[1..], b, loads);
      assert (a + b)[0] == a[0] && (a + b)[1..] == a[1..] + b;
    }
  }

  lemma {:induction false} BeatsAreSilent<P(!new)>(beats: seq<Item>, loads: Text -> Option<P>)
    requires forall i :: 0 <= i < |beats| ==> beats[i] == Heartbeat
    ensures Truthful(beats, loads) && Sent(beats, loads) == []
    decreases |beats|
  {
    if beats != [] {
      BeatsAreSilent(beats[1..], loads);
    }
  }

  /** A record of a 64-bit file, with the largest payload a frame can have, is one line within the
      client's buffer and decodes to itself. */
  lemma {:induction false} RecordFitsTheLine(r: Record, codec: Codec)
    requires codec.Lossless() && r.offset < INT64_LIMIT && |r.data| <= MAX_FRAME_PAYLOAD
    ensures WellSent(RecordItem(r, codec), codec.dec) && WholeOnly(RecordItem(r, codec).body, codec.dec)
    ensures SentOne(RecordItem(r, codec), codec.dec) == [RecordEvent(r)]
  {
    var p := RecordEvent(r).payload;
    assert Wire(p) && |p.data| <= MAX_FRAME_PAYLOAD;
    hide WholeOnly;
    assert OneLine(GAP) && OneLine(OUTPUT);
  }

  lemma {:induction false} RecordsAreSent(rs: seq<Record>, codec: Codec)
    requires codec.Lossless()
    requires forall i :: 0 <= i < |rs| ==> rs[i].offset < INT64_LIMIT && |rs[i].data| <= MAX_FRAME_PAYLOAD
    ensures Truthful(RecordItems(rs, codec), codec.dec) && Sent(RecordItems(rs, codec), codec.dec) == RecordEvents(rs)
    decreases |rs|
  {
    if rs != [] {
      RecordsAreSent(rs[1..], codec);
      RecordFitsTheLine(rs[0], codec);
      hide WellSent, WholeOnly, Codec.Lossless;
      assert RecordItems(rs, codec)[1..] == RecordItems(rs[1..], codec);
      TruthfulJoin([RecordItem(rs[0], codec)], RecordItems(rs[1..], codec), codec.dec);
    }
  }

  lemma {:induction false} ScannedRecordsFit(file: seq<Byte>, from: nat)
    requires |file| < INT64_LIMIT
    ensures forall i :: 0 <= i < |Scan(file, from)| ==>
              Scan(file, from)[i].offset < INT64_LIMIT && |Scan(file, from)[i].data| <= MAX_FRAME_PAYLOAD
    decreases if from <= |file| then |file| - from else 0
  {
    hide FrameAt;
    match FrameAt(file, from)
    case None =>
    case Some(f) => ScannedRecordsFit(file, from + HEADER_SIZE + |f.data|);
  }

  function ExitEvents(a: Attempt): seq<Event<Payload>> {
    if a.exit.Some? then [Event(EXIT, a.exit.value)] else []
  }

  /** The body of any connection, cut anywhere, gives the client the first so many of: the
      records the server reached, then the exit. */
  lemma {:induction false} BodyEvents(a: Attempt, offset: nat, codec: Codec)
    requires codec.Lossless() && a.Proper()
    ensures var all := RecordEvents(a.Reached(offset)) + ExitEvents(a); var items := a.Items(offset, codec);
            && Got(items, a.cut) <= |all|
            && GoScan([], a.Body(offset, codec), codec.dec) == Scanned(all[..Got(items, a.cut)], !Torn(items, a.cut))
            && (a.cut >= |PrintAll(items)| ==> Got(items, a.cut) == |all| && !Torn(items, a.cut))
  {
    hide Scan, GoScan, Weave, Print, PrintAll, WholeOnly, Got, Torn;
    var rs := a.Reached(offset);
    ScannedRecordsFit(a.file, offset);
    RecordsAreSent(rs, codec);
    var exits := if a.exit.Some? then [Send(EXIT, codec.enc(a.exit.value))] else [];
    ExitIsSent(a, codec);
    SentOfJoin(RecordItems(rs, codec), exits, codec.dec);
    TruthfulJoin(RecordItems(rs, codec), exits, codec.dec);
    WeaveIsTruthful(RecordItems(rs, codec) + exits, a.lead, codec.dec);
    CutAtMost(a.Items(offset, codec), a.cut, codec.dec);
  }

  lemma {:induction false} CutAtMost<P(!new)>(items: seq<Item>, cut: nat, loads: Text -> Option<P>)
    requires Truthful(items, loads)
    ensures var whole := PrintAll(items); var body := if cut < |whole| then whole[..cut] else whole;
            && Got(items, cut) <= |Sent(items, loads)|
            && GoScan([], body, loads) == Scanned(Sent(items, loads)[..Got(items, cut)], !Torn(items, cut))
            && (cut >= |whole| ==> Got(items, cut) == |Sent(items, loads)| && !Torn(items, cut))
  {
    hide GoScan, Truthful, Sent, PrintAll, Got, Torn;
    var whole := PrintAll(items);
    if cut < |whole| {
      GoScanCut([], items, cut, loads);
    } else {
      GoScanCut([], items, |whole|, loads);
      UncutHasAll(items, |whole|, loads);
      UncutHasAll(items, cut, loads);
      assert whole[..|whole|] == whole;
    }
  }

  lemma {:induction false} HandledEvents(a: Attempt, offset: nat, codec: Codec, writes: nat)
    requires codec.Lossless() && a.Proper() && !a.refused
    ensures var all := RecordEvents(a.Reached(offset)) + ExitEvents(a); var m := a.Events(offset, codec, writes);
            && m <= |all| && Handled(GoScan([], a.Body(offset, codec), codec.dec).events, writes) == all[..m]
  {
    hide Attempt.Body, Attempt.Items, Attempt.Reached, Codec.Lossless, RecordEvents, ExitEvents, GoScan, Got, Torn;
    BodyEvents(a, offset, codec);
    var all := RecordEvents(a.Reached(offset)) + ExitEvents(a);
    var got := Got(a.Items(offset, codec), a.cut);
    if writes < got {
      assert all[..got][..writes] == all[..writes];
    }
  }

  /** An answered connection fails exactly if it is not smooth. */
  lemma {:induction false} SmoothExactly(a: Attempt, offset: nat, codec: Codec, writes: nat)
    requires codec.Lossless() && a.Proper() && !a.refused
    ensures var scanned := GoScan([], a.Body(offset, codec), codec.dec);
            scanned.ok && a.clean && |scanned.events| <= writes <==> a.Smooth(offset, codec, writes)
  {
    hide Attempt.Body, Attempt.Items, Attempt.Reached, Codec.Lossless, RecordEvents, ExitEvents, GoScan, Got, Torn;
    BodyEvents(a, offset, codec);
  }

  /** An answered connection that is clean and not cut, whose writes are taken, is smooth and shows all
      the server reached, and the exit if there is one. */
  lemma {:induction false} UncutIsComplete(a: Attempt, offset: nat, codec: Codec, writes: nat)
    requires codec.Lossless() && a.Proper() && !a.refused && a.clean
    requires a.cut >= |PrintAll(a.Items(offset, codec))| && writes >= |a.Reached(offset)| + 1
    ensures a.Smooth(offset, codec, writes) && a.Records(offset, codec, writes) == |a.Reached(offset)|
    ensures a.Exits(offset, codec, writes) <==> a.exit.Some?
  {
    hide Attempt.Body, Attempt.Items, Attempt.Reached, Codec.Lossless, RecordEvents, GoScan, Got, Torn;
    BodyEvents(a, offset, codec);
    assert |RecordEvents(a.Reached(offset)) + ExitEvents(a)| == |a.Reached(offset)| + |ExitEvents(a)|;
  }

  lemma {:induction false} ExitIsSent(a: Attempt, codec: Codec)
    requires codec.Lossless() && a.Proper()
    ensures var exits := if a.exit.Some? then [Send(EXIT, codec.enc(a.exit.value))] else [];
            Truthful(exits, codec.dec) && Sent(exits, codec.dec) == ExitEvents(a)
  {
    hide WholeOnly;
    if a.exit.Some? {
      assert Wire(a.exit.value) && OneLine(EXIT);
      var item := Send(EXIT, codec.enc(a.exit.value));
      assert [item][1..] == [];
      assert Sent([item], codec.dec) == SentOne(item, codec.dec) + Sent([], codec.dec);
    }
  }

  // ---------------------------------------------------------------- what the handler makes of it

  function CursorAfter(from: nat, rs: seq<Record>): nat {
    if rs == [] then from else rs[|rs| - 1].offset
  }

  lemma {:induction false} HandleRecords(p: Progress, rs: seq<Record>, more: seq<Event<Payload>>)
    requires !p.stopped
    ensures HandleAll(p, RecordEvents(rs) + more, -1) ==
            HandleAll(
              p.(out := p.out.(offset := CursorAfter(p.out.offset, rs)), shown := p.shown + Notes(rs)), more, -1)
    decreases |rs|
  {
    hide Handle, RecordEvent, RecordNote;
    if rs == [] {
      assert RecordEvents(rs) + more == more && p.shown + Notes(rs) == p.shown;
    } else {
      var q := Handle(p, RecordEvent(rs[0]), -1);
      assert (RecordEvents(rs) + more)[1..] == RecordEvents(rs[1..]) + more;
      HandleOneRecord(p, rs[0]);
      HandleRecords(q, rs[1..], more);
      assert p.shown + Notes(rs) == (p.shown + [RecordNote(rs[0])]) + Notes(rs[1..]);
    }
  }

  lemma {:induction false} HandleOneRecord(p: Progress, r: Record)
    requires !p.stopped
    ensures Handle(p, RecordEvent(r), -1) ==
            p.(out := p.out.(offset := r.offset), shown := p.shown + [RecordNote(r)])
  {
    assert |OUTPUT| != |EXIT| && |GAP| != |EXIT| && |GAP| != |OUTPUT|;
  }

  lemma {:induction false} RecordEventsTake(rs: seq<Record>, m: nat)
    requires m <= |rs|
    ensures RecordEvents(rs)[..m] == RecordEvents(rs[..m])
    decreases m
  {
    if m > 0 {
      RecordEventsTake(rs[1..], m - 1);
      assert rs[..m][1..] == rs[1..][..m - 1];
      assert RecordEvents(rs)[..m] == [RecordEvent(rs[0])] + RecordEvents(rs[1..])[..m - 1];
    }
  }

  /** What an exit leaves on the terminal besides the status. */
  function ExitNotes(exit: Payload): (notes: seq<Diagnostic>)
    ensures forall d ::
              d in notes <==> (d == TruncatedNote && exit.truncated) || (d == ExecFailedNote && exit.exitCode.None?)
    ensures |notes| <= 2 && (|notes| == 2 ==> notes == [TruncatedNote, ExecFailedNote])
  {
    (if exit.truncated then [TruncatedNote] else []) + (if exit.exitCode.None? then [ExecFailedNote] else [])
  }

  /** One connection, cut at any byte: what is shown is exactly the run of records from its offset that
      came through, the cursor stands at its end, and an exit comes only after all of them. */
  lemma {:induction false} StreamShowsRun(a: Attempt, offset: nat, codec: Codec, writes: nat)
    requires codec.Lossless() && a.Proper() && !a.refused
    ensures var p := HandleAll(Start(offset), Handled(GoScan([], a.Body(offset, codec), codec.dec).events, writes), -1);
            var n := a.Records(offset, codec, writes);
            && n <= |Scan(a.file, offset)| && !p.stopped
            && p.shown == Notes(Scan(a.file, offset)[..n])
            && p.out.offset == CursorAfter(offset, Scan(a.file, offset)[..n])
            && (p.out.sawExit <==> a.Exits(offset, codec, writes))
            && (p.out.sawExit ==> a.exit.Some? && n == |Scan(a.file, offset)| && p.out.code == CodeOf(a.exit.value))
            && p.diags == if p.out.sawExit then ExitNotes(a.exit.value) else []
  {
    hide GoScan, Scan, Attempt.Body, Attempt.Items, Attempt.Events, Got, Torn;
    var rs := a.Reached(offset);
    var m, n := a.Events(offset, codec, writes), a.Records(offset, codec, writes);
    HandledEvents(a, offset, codec, writes);
    var events := Handled(GoScan([], a.Body(offset, codec), codec.dec).events, writes);
    assert rs[..n] == Scan(a.file, offset)[..n];
    RecordEventsTake(rs, n);
    var tail := if m <= |rs| then [] else ExitEvents(a);
    assert events == RecordEvents(rs[..n]) + tail;
    HandleRecords(Start(offset), rs[..n], tail);
    assert [] + Notes(rs[..n]) == Notes(rs[..n]);
    HandleTail(a, tail, offset, rs[..n]);
  }

  lemma {:induction false} HandleTail(a: Attempt, tail: seq<Event<Payload>>, offset: nat, rs: seq<Record>)
    requires tail == [] || tail == ExitEvents(a)
    ensures var p := Progress(Outcome(false, 0, CursorAfter(offset, rs)), Notes(rs), [], false);
            var q := HandleAll(p, tail, -1);
            && q.shown == Notes(rs) && q.out.offset == p.out.offset && !q.stopped
            && (q.out.sawExit <==> tail != [])
            && (q.out.sawExit ==> a.exit.Some? && q.out.code == CodeOf(a.exit.value))
            && q.diags == if q.out.sawExit then ExitNotes(a.exit.value) else []
  {
    if tail != [] {
      assert tail[1..] == [];
    }
  }

  // ---------------------------------------------------------------- reconnecting

  /** Events of names the command does not know. */
  predicate Known(e: Event<Payload>) {
    e.name == OUTPUT || e.name == GAP || e.name == EXIT
  }

  function KnownOf(es: seq<Event<Payload>>): seq<Event<Payload>> {
    if es == [] then [] else (if Known(es[0]) then [es[0]] else []) + KnownOf(es[1..])
  }

  /** They make no difference, wherever they come among the others. */
  lemma {:induction false} UnknownEventsAreIgnored(p: Progress, es: seq<Event<Payload>>, stopAt: int)
    requires p.stopped || stopAt < 0 || p.out.offset < stopAt
    ensures HandleAll(p, es, stopAt) == HandleAll(p, KnownOf(es), stopAt)
    decreases |es|
  {
    if es != [] && !p.stopped {
      var p' := Handle(p, es[0], stopAt);
      UnknownEventsAreIgnored(p', es[1..], stopAt);
      var rest := KnownOf(es[1..]);
      if Known(es[0]) {
        assert ([es[0]] + rest)[0] == es[0] && ([es[0]] + rest)[1..] == rest;
      } else {
        assert p' == p && [] + rest == rest;
      }
    }
  }

  datatype FollowEnd = SawExit | GaveUp | StreamError

  /** The log may grow between connections, or be torn and repaired by a restarted daemon: what
      holds, by the writer's side, is that its records only gain a tail. */
  ghost predicate Growing(world: seq<Attempt>) {
    forall i, j :: 0 <= i <= j < |world| ==> Scan(world[i].file, 0) <= Scan(world[j].file, 0)
  }

  /** Where the k-th connection starts: behind what the ones before it have shown. */
  function OffsetAt(world: seq<Attempt>, codec: Codec, from: nat, writes: nat -> nat, k: nat): nat
    requires k <= |world|
  {
    if k == 0 then from
    else
      var a, offset := world[k - 1], OffsetAt(world, codec, from, writes, k - 1);
      var rs := Scan(a.file, offset);
      CursorAfter(offset, rs[..Least(a.Records(offset, codec, writes(k - 1)), |rs|)])
  }

  function Least(a: nat, b: nat): nat { if a < b then a else b }

  /** What the first k connections show. */
  function ShownBy(world: seq<Attempt>, codec: Codec, from: nat, writes: nat -> nat, k: nat): seq<Note>
    requires k <= |world|
  {
    if k == 0 then []
    else
      var a, offset := world[k - 1], OffsetAt(world, codec, from, writes, k - 1);
      var rs := Scan(a.file, offset);
      ShownBy(world, codec, from, writes, k - 1) + Notes(rs[..Least(a.Records(offset, codec, writes(k - 1)), |rs|)])
  }

  /** What is noted before the k-th connection. */
  function NotedBefore(world: seq<Attempt>, codec: Codec, from: nat, writes: nat -> nat, k: nat): seq<Diagnostic>
    requires k <= |world|
  {
    if k == 0 then []
    else NotedBefore(world, codec, from, writes, k - 1) + [Reconnecting(OffsetAt(world, codec, from, writes, k))]
  }

  ghost predicate SmoothAt(world: seq<Attempt>, codec: Codec, from: nat, writes: nat -> nat, k: nat)
    requires k < |world|
  {
    world[k].Smooth(OffsetAt(world, codec, from, writes, k), codec, writes(k))
  }

  ghost predicate ExitsAt(world: seq<Attempt>, codec: Codec, from: nat, writes: nat -> nat, k: nat)
    requires k < |world|
  {
    world[k].Exits(OffsetAt(world, codec, from, writes, k), codec, writes(k))
  }

  /** How following ends, by the connections alone: those before the last used one ended smoothly
      without an exit; the last one was not smooth, or had the exit, or was the last allowed. */
  ghost predicate EndsSo(
      world: seq<Attempt>, codec: Codec, from: nat, writes: nat -> nat, used: nat, end: FollowEnd)
  {
    && 1 <= used <= |world|
    && (forall k :: 0 <= k < used - 1 ==>
          SmoothAt(world, codec, from, writes, k) && !ExitsAt(world, codec, from, writes, k))
    && var smooth := SmoothAt(world, codec, from, writes, used - 1);
       var exits := ExitsAt(world, codec, from, writes, used - 1);
       && (end == StreamError <==> !smooth)
       && (end == SawExit <==> smooth && exits)
       && (end == GaveUp <==> smooth && !exits)
       && (end == GaveUp ==> used == |world|)
  }

  /** One connection as the loop sees it. */
  lemma {:induction false} Streamed(a: Attempt, offset: nat, codec: Codec, writes: nat, p: Progress, err: bool)
    requires codec.Lossless() && a.Proper()
    requires a.refused ==> p == Start(offset) && err
    requires !a.refused ==>
               var scanned := GoScan([], a.Body(offset, codec), codec.dec);
               && p == HandleAll(Start(offset), Handled(scanned.events, writes), -1)
               && err == (!p.stopped && !(scanned.ok && a.clean && |scanned.events| <= writes))
    ensures var rs, n := Scan(a.file, offset), a.Records(offset, codec, writes);
            && n <= |rs| && Least(n, |rs|) == n && p.shown == Notes(rs[..n])
            && p.out.offset == CursorAfter(offset, rs[..n])
            && (p.out.sawExit <==> a.Exits(offset, codec, writes))
            && (p.out.sawExit ==> a.exit.Some? && n == |rs| && p.out.code == CodeOf(a.exit.value))
            && p.diags == (if p.out.sawExit then ExitNotes(a.exit.value) else [])
            && (err <==> !a.Smooth(offset, codec, writes))
  {
    if a.refused {
      hide Scan, Attempt.Items, Got, Torn;
      ShownNothing(offset, Scan(a.file, offset));
    } else {
      hide GoScan, Scan, HandleAll, Handled, Attempt.Body, Attempt.Items, Attempt.Exits, Attempt.Records,
           Attempt.Smooth;
      StreamShowsRun(a, offset, codec, writes);
      SmoothExactly(a, offset, codec, writes);
    }
  }

  /** followLogs: what it has shown is the contiguous run of records from its start, none twice
      and none skipped; the cursor is the end of that run; with an exit it is all of them. How far it
      gets, and how it ends, is what the connections say. */
  method FollowLogs(world: seq<Attempt>, codec: Codec, from: nat, writes: nat -> nat)
    returns (shown: seq<Note>, diags: seq<Diagnostic>, offset: nat, end: FollowEnd, used: nat)
    requires |world| == RECONNECT_ATTEMPTS + 1 && Growing(world) && Boundary(world[0].file, from)
    requires codec.Lossless() && forall i :: 0 <= i < |world| ==> world[i].Proper()
    ensures 1 <= used <= |world| && EndsSo(world, codec, from, writes, used, end)
    ensures var rs := Scan(world[used - 1].file, from);
            exists n :: 0 <= n <= |rs| && shown == Notes(rs[..n]) && offset == CursorAfter(from, rs[..n]) &&
                        (end == SawExit ==> n == |rs| && world[used - 1].exit.Some?)
    ensures shown == ShownBy(world, codec, from, writes, used)
    ensures var exits := ExitsAt(world, codec, from, writes, used - 1);
            diags == NotedBefore(world, codec, from, writes, used - 1) +
                     (if exits then ExitNotes(world[used - 1].exit.value) else []) +
                     (if end == GaveUp then [StreamEnded] else [])
  {
    hide *;
    shown, diags, offset := [], [], from;
    var attempt: nat := 0;
    ghost var seen: seq<Record> := [];
    StitchStart(world[0].file, from);
    FollowStart(world, codec, from, writes);
    while true
      invariant attempt < |world|
      invariant Stitched(world[attempt].file, from, seen, offset) && shown == Notes(seen)
      invariant offset == OffsetAt(world, codec, from, writes, attempt)
      invariant shown == ShownBy(world, codec, from, writes, attempt)
      invariant diags == NotedBefore(world, codec, from, writes, attempt)
      invariant forall k :: 0 <= k < attempt ==>
                  SmoothAt(world, codec, from, writes, k) && !ExitsAt(world, codec, from, writes, k)
      decreases |world| - attempt
    {
      used := attempt + 1;
      var p, err := Stream(world[attempt], codec, offset, -1, writes(attempt));
      ghost var rs, n := Scan(world[attempt].file, offset), world[attempt].Records(offset, codec, writes(attempt));
      Streamed(world[attempt], offset, codec, writes(attempt), p, err);
      FollowNext(world, codec, from, writes, attempt);
      StitchRun(world[attempt].file, from, seen, offset, n);
      NotesJoin(seen, rs[..n]);
      if n == |rs| {
        StitchedAll(world[attempt].file, from, seen, offset, n);
      }
      ExitIsThere(world[attempt], offset, codec, writes(attempt));
      seen := seen + rs[..n];
      shown, diags := shown + p.shown, diags + p.diags;
      offset := p.out.offset;
      StitchedIsRun(world[attempt].file, from, seen, offset);
      if err {
        end := StreamError;
        EndsAs(world, codec, from, writes, used, end);
        return;
      }
      if p.out.sawExit {
        end := SawExit;
        assert |seen| == |Scan(world[attempt].file, from)|;
        EndsAs(world, codec, from, writes, used, end);
        return;
      }
      if attempt >= RECONNECT_ATTEMPTS {
        diags := diags + [StreamEnded];
        end := GaveUp;
        EndsAs(world, codec, from, writes, used, end);
        return;
      }
      diags := diags + [Reconnecting(offset)];
      StitchedLater(world, attempt, from, seen, offset);
      attempt := attempt + 1;
    }
  }

  lemma {:induction false} FollowStart(world: seq<Attempt>, codec: Codec, from: nat, writes: nat -> nat)
    ensures OffsetAt(world, codec, from, writes, 0) == from && ShownBy(world, codec, from, writes, 0) == []
    ensures NotedBefore(world, codec, from, writes, 0) == [] && Notes([]) == []
  {
  }

  lemma {:induction false} FollowNext(world: seq<Attempt>, codec: Codec, from: nat, writes: nat -> nat, k: nat)
    requires k < |world|
    ensures var offset := OffsetAt(world, codec, from, writes, k); var a := world[k];
            var rs := Scan(a.file, offset); var n := Least(a.Records(offset, codec, writes(k)), |rs|);
            && n <= |rs| && OffsetAt(world, codec, from, writes, k + 1) == CursorAfter(offset, rs[..n])
            && ShownBy(world, codec, from, writes, k + 1) == ShownBy(world, codec, from, writes, k) + Notes(rs[..n])
            && NotedBefore(world, codec, from, writes, k + 1) ==
               NotedBefore(world, codec, from, writes, k) + [Reconnecting(OffsetAt(world, codec, from, writes, k + 1))]
            && (SmoothAt(world, codec, from, writes, k) <==> a.Smooth(offset, codec, writes(k)))
            && (ExitsAt(world, codec, from, writes, k) <==> a.Exits(offset, codec, writes(k)))
  {
    hide Scan, CursorAfter, Attempt.Records, Attempt.Smooth, Attempt.Exits, Notes;
  }

  lemma {:induction false} ExitIsThere(a: Attempt, offset: nat, codec: Codec, writes: nat)
    ensures a.Exits(offset, codec, writes) ==> a.exit.Some?
  {
  }

  lemma {:induction false} EndsAs(
      world: seq<Attempt>, codec: Codec, from: nat, writes: nat -> nat, used: nat, end: FollowEnd)
    requires 1 <= used <= |world|
    requires forall k :: 0 <= k < used - 1 ==>
               SmoothAt(world, codec, from, writes, k) && !ExitsAt(world, codec, from, writes, k)
    requires var smooth := SmoothAt(world, codec, from, writes, used - 1);
             var exits := ExitsAt(world, codec, from, writes, used - 1);
             end == if !smooth then StreamError else if exits then SawExit else GaveUp
    requires end == GaveUp ==> used == |world|
    ensures EndsSo(world, codec, from, writes, used, end)
  {
    hide SmoothAt, ExitsAt;
  }

  ghost predicate Stitched(file: seq<Byte>, from: nat, seen: seq<Record>, offset: nat) {
    && Boundary(file, from) && Boundary(file, offset)
    && Scan(file, from) == seen + Scan(file, offset)
    && offset == CursorAfter(from, seen)
  }

  lemma {:induction false} StitchStart(file: seq<Byte>, from: nat)
    requires Boundary(file, from)
    ensures Stitched(file, from, [], from) && Notes([]) == []
  {
    hide Scan;
  }

  lemma {:induction false} ShownNothing(offset: nat, rs: seq<Record>)
    ensures var p := Start(offset);
            p.shown == Notes(rs[..0]) && p.out.offset == CursorAfter(offset, rs[..0]) && !p.out.sawExit
  {
  }

  lemma {:induction false} NotesJoin(a: seq<Record>, b: seq<Record>)
    ensures Notes(a + b) == Notes(a) + Notes(b)
  {
  }

  lemma {:induction false} StitchRun(file: seq<Byte>, from: nat, seen: seq<Record>, offset: nat, n: nat)
    requires Stitched(file, from, seen, offset) && n <= |Scan(file, offset)|
    ensures Stitched(file, from, seen + Scan(file, offset)[..n], CursorAfter(offset, Scan(file, offset)[..n]))
  {
    hide Scan, Boundary;
    var rs := Scan(file, offset);
    if n > 0 {
      ScanFromKth(file, offset, n);
      ReadReturnsBoundaries(file, offset, n - 1);
      assert seen + rs == (seen + rs[..n]) + rs[n..];
    } else {
      assert seen + rs[..0] == seen;
    }
  }

  lemma {:induction false} StitchedIsRun(file: seq<Byte>, from: nat, seen: seq<Record>, offset: nat)
    requires Stitched(file, from, seen, offset)
    ensures |seen| <= |Scan(file, from)| && Scan(file, from)[..|seen|] == seen
    ensures offset == CursorAfter(from, Scan(file, from)[..|seen|])
  {
    hide Scan;
  }

  lemma {:induction false} StitchedAll(file: seq<Byte>, from: nat, seen: seq<Record>, offset: nat, n: nat)
    requires Stitched(file, from, seen, offset) && n == |Scan(file, offset)|
    ensures |seen + Scan(file, offset)[..n]| == |Scan(file, from)|
  {
    hide Scan;
  }

  lemma {:induction false} StitchedLater(
      world: seq<Attempt>, attempt: nat, from: nat, seen: seq<Record>, offset: nat)
    requires attempt + 1 < |world| && Growing(world)
    requires Stitched(world[attempt].file, from, seen, offset)
    ensures Stitched(world[attempt + 1].file, from, seen, offset)
  {
    hide Scan, Boundary;
    StitchedInExtension(world[attempt].file, world[attempt + 1].file, from, seen, offset);
  }

  lemma {:induction false} StitchedInExtension(
      was: seq<Byte>, now: seq<Byte>, from: nat, seen: seq<Record>, offset: nat)
    requires Stitched(was, from, seen, offset) && Scan(was, 0) <= Scan(now, 0)
    ensures Stitched(now, from, seen, offset)
  {
    hide Scan, Below, Boundary;
    BoundaryOfExtension(was, now, from);
    BoundaryOfExtension(was, now, offset);
    ScanFromBoundary(was, from);
    ScanFromBoundary(was, offset);
    var before := Below(Scan(was, 0), from);
    SplitTwice(before, seen, Scan(was, offset), Below(Scan(was, 0), offset));
    assert Scan(now, 0) == (before + seen) + Scan(now, offset) == before + (seen + Scan(now, offset));
    CancelPrefix(before, Scan(now, from), seen + Scan(now, offset));
  }

  lemma {:induction false} SplitTwice<T>(a: seq<T>, b: seq<T>, c: seq<T>, d: seq<T>)
    requires a + (b + c) == d + c
    ensures d == a + b
  {
    assert d == (d + c)[..|d|];
    assert a + (b + c) == (a + b) + c;
  }
}
