/** The event stream: the printer (internal/api/sse.go), the two incremental parsers of the SDKs
    (sdk/python/src/orcal/_sse.py, sdk/typescript/src/sse.ts) and the line scanner of the Go
    client (pkg/orcalclient/execs.go). Text is a sequence of code units: bytes for Go and Python,
    UTF-16 units for TypeScript. All the characters the grammar looks at are ASCII. */
module Sse {
  import opened Wrappers
  import opened ExecLog

  type Text = seq<int>

  const NL := 10
  const CR := 13
  const SP := 32
  const COLON := 58

  const EVENT: seq<Byte> := [101, 118, 101, 110, 116]
  const DATA: seq<Byte> := [100, 97, 116, 97]
  const EVENT_PREFIX: seq<Byte> := EVENT + [COLON, SP]
  const DATA_PREFIX: seq<Byte> := DATA + [COLON, SP]
  const KEEPALIVE: seq<Byte> := [58, 32, 107, 101, 101, 112, 97, 108, 105, 118, 101]

  /** bufio.Scanner's limit: a line and its newline must fit the 1 MiB buffer. */
  const MAX_LINE := 1024 * 1024

  datatype Event<+P> = Event(name: Text, payload: P)

  // ---------------------------------------------------------------- searching

  /** Where the first c is at or after k; the length of the text if there is none. */
  function IndexOf(s: Text, c: int, k: nat): (r: nat)
    requires k <= |s|
    ensures k <= r <= |s| && (r < |s| ==> s[r] == c)
    ensures forall i :: k <= i < r ==> s[i] != c
    decreases |s| - k
  {
    if k == |s| || s[k] == c then k else IndexOf(s, c, k + 1)
  }

  predicate BlankAt(s: Text, i: nat) {
    i + 1 < |s| && s[i] == NL && s[i + 1] == NL
  }

  /** Where the first blank line starts at or after k; the length of the text if there is none. */
  function FindBlank(s: Text, k: nat): (r: nat)
    requires k <= |s|
    ensures k <= r <= |s| && (r < |s| ==> BlankAt(s, r))
    ensures forall i :: k <= i < r ==> !BlankAt(s, i)
    decreases |s| - k
  {
    if k == |s| || BlankAt(s, k) then k else FindBlank(s, k + 1)
  }

  function Split(s: Text): (lines: seq<Text>)
    ensures |lines| > 0
    decreases |s|
  {
    var i := IndexOf(s, NL, 0);
    if i == |s| then [s] else [s[..i]] + Split(s[i + 1..])
  }

  function Join(lines: seq<Text>): Text {
    if lines == [] then [] else if |lines| == 1 then lines[0] else lines[0] + [NL] + Join(lines[1..])
  }

  // ---------------------------------------------------------------- one block

  /** A line's field name and value: what precedes the first colon, and what follows it less one
      leading space; a line without a colon is all name. */
  function Field(line: Text): (Text, Text) {
    var i := IndexOf(line, COLON, 0);
    if i == |line| then (line, [])
    else
      var value := line[i + 1..];
      (line[..i], if value != [] && value[0] == SP then value[1..] else value)
  }

  function FoldLines(lines: seq<Text>, name: Option<Text>, data: seq<Text>): (Option<Text>, seq<Text>) {
    if lines == [] then (name, data)
    else if lines[0] == [] || lines[0][0] == COLON then FoldLines(lines[1..], name, data)
    else
      var (field, value) := Field(lines[0]);
      FoldLines(lines[1..],
                if field == EVENT then Some(value) else name,
                if field == DATA then data + [value] else data)
  }

  function BlockEvent<P>(block: Text, loads: Text -> Option<P>): Option<Event<P>> {
    var (name, data) := FoldLines(Split(block), None, []);
    if name.None? || data == [] then None
    else
      match loads(Join(data))
      case None => None
      case Some(p) => Some(Event(name.value, p))
  }

  // ---------------------------------------------------------------- the incremental parser

  /** What a buffer yields: the events of its complete blocks, and what is left after them. */
  function FeedAll<P>(buffer: Text, loads: Text -> Option<P>): (seq<Event<P>>, Text)
    decreases |buffer|
  {
    var i := FindBlank(buffer, 0);
    if i == |buffer| then ([], buffer)
    else
      var (events, rest) := FeedAll(buffer[i + 2..], loads);
      (Emit(BlockEvent(buffer[..i], loads)) + events, rest)
  }

  function Emit<E>(e: Option<E>): seq<E> {
    match e case None => [] case Some(x) => [x]
  }

  class SSEParser<P> {
    var buffer: Text
    const loads: Text -> Option<P>

    constructor (loads: Text -> Option<P>)
      ensures buffer == [] && this.loads == loads
    {
      buffer, this.loads := [], loads;
    }

    /** feed: the same loop in both SDKs; a chunk is what the decoder made of the bytes. */
    method Feed(chunk: Text) returns (events: seq<Event<P>>)
      modifies this
      ensures events == FeedAll(old(buffer) + chunk, loads).0
      ensures buffer == FeedAll(old(buffer) + chunk, loads).1
    {
      hide FeedAll, FindBlank, BlockEvent;
      buffer := buffer + chunk;
      events := [];
      ghost var whole := FeedAll(buffer, loads);
      var i := FindBlank(buffer, 0);
      FeedTurn(buffer, loads);
      while i != |buffer|
        invariant i == FindBlank(buffer, 0)
        invariant whole.0 == events + FeedAll(buffer, loads).0
        invariant whole.1 == FeedAll(buffer, loads).1
        decreases |buffer|
      {
        FeedTurn(buffer, loads);
        var block := buffer[..i];
        buffer := buffer[i + 2..];
        var parsed := ParseBlock(block, loads);
        if parsed.Some? {
          events := events + [parsed.value];
        }
        i := FindBlank(buffer, 0);
      }
      FeedTurn(buffer, loads);
      assert whole.0 == events && whole.1 == buffer;
    }
  }

  method ParseBlock<P>(block: Text, loads: Text -> Option<P>) returns (r: Option<Event<P>>)
    ensures r == BlockEvent(block, loads)
  {
    var name: Option<Text>, dataLines: seq<Text> := None, [];
    var lines := Split(block);
    var i := 0;
    while i < |lines|
      invariant 0 <= i <= |lines|
      invariant FoldLines(lines[i..], name, dataLines) == FoldLines(lines, None, [])
    {
      var line := lines[i];
      assert lines[i..][1..] == lines[i + 1..];
      if line != [] && line[0] != COLON {
        var (field, value) := Field(line);
        if field == EVENT {
          name := Some(value);
        } else if field == DATA {
          dataLines := dataLines + [value];
        }
      }
      i := i + 1;
    }
    if name.None? || dataLines == [] {
      return None;
    }
    var payload := loads(Join(dataLines));
    match payload
    case None => return None;
    case Some(p) => return Some(Event(name.value, p));
  }

  // ---------------------------------------------------------------- chunk invariance

  /** One turn of the feed loop. */
  lemma {:induction false} FeedTurn<P>(buffer: Text, loads: Text -> Option<P>)
    ensures var i := FindBlank(buffer, 0);
            FeedAll(buffer, loads) ==
            if i == |buffer| then ([], buffer)
            else (Emit(BlockEvent(buffer[..i], loads)) + FeedAll(buffer[i + 2..], loads).0,
                  FeedAll(buffer[i + 2..], loads).1)
  {
    hide FindBlank, BlockEvent;
  }

  lemma {:induction false} FindBlankInPrefix(a: Text, b: Text)
    requires FindBlank(a, 0) < |a|
    ensures FindBlank(a + b, 0) == FindBlank(a, 0)
  {
    var i := FindBlank(a, 0);
    forall j | 0 <= j < i ensures !BlankAt(a + b, j) {
      assert !BlankAt(a, j);
    }
    FindBlankIs(a + b, i);
  }

  /** Feeding two pieces one after the other is feeding them joined. */
  lemma {:induction false} FeedTwice<P>(a: Text, b: Text, loads: Text -> Option<P>)
    ensures FeedAll(a + b, loads).0 == FeedAll(a, loads).0 + FeedAll(FeedAll(a, loads).1 + b, loads).0
    ensures FeedAll(a + b, loads).1 == FeedAll(FeedAll(a, loads).1 + b, loads).1
    decreases |a|
  {
    hide FeedAll, FindBlank, BlockEvent, Emit;
    var i := FindBlank(a, 0);
    FeedTurn(a, loads);
    if i == |a| {
      assert [] + FeedAll(a + b, loads).0 == FeedAll(a + b, loads).0;
    } else {
      FindBlankInPrefix(a, b);
      assert (a + b)[..i] == a[..i] && (a + b)[i + 2..] == a[i + 2..] + b;
      FeedTurn(a + b, loads);
      FeedTwice(a[i + 2..], b, loads);
      var head := Emit(BlockEvent(a[..i], loads));
      var (tail, left) := FeedAll(a[i + 2..], loads);
      assert head + (tail + FeedAll(left + b, loads).0) == (head + tail) + FeedAll(left + b, loads).0;
    }
  }

  function Concat(chunks: seq<Text>): Text {
    if chunks == [] then [] else chunks[0] + Concat(chunks[1..])
  }

  /** A parser fed chunk by chunk, from a buffer: all its events and its last buffer. */
  function FeedChunks<P>(buffer: Text, chunks: seq<Text>, loads: Text -> Option<P>): (seq<Event<P>>, Text)
    decreases |chunks|
  {
    if chunks == [] then ([], buffer)
    else
      var (first, left) := FeedAll(buffer + chunks[0], loads);
      var (rest, last) := FeedChunks(left, chunks[1..], loads);
      (first + rest, last)
  }

  /** A buffer with no complete block in it: what a parser holds between two feeds. */
  predicate Partial(buffer: Text) {
    FindBlank(buffer, 0) == |buffer|
  }

  lemma {:induction false} LeftoverIsPartial<P>(buffer: Text, loads: Text -> Option<P>)
    ensures Partial(FeedAll(buffer, loads).1)
    decreases |buffer|
  {
    var i := FindBlank(buffer, 0);
    if i != |buffer| {
      LeftoverIsPartial(buffer[i + 2..], loads);
    }
  }

  lemma {:induction false} ChunkStep<P>(buffer: Text, chunks: seq<Text>, loads: Text -> Option<P>)
    requires chunks != []
    ensures var a := buffer + chunks[0]; var rest := FeedChunks(FeedAll(a, loads).1, chunks[1..], loads);
            && FeedChunks(buffer, chunks, loads) == (FeedAll(a, loads).0 + rest.0, rest.1)
            && buffer + Concat(chunks) == a + Concat(chunks[1..])
  {
    hide FeedAll;
  }

  /** Chunk invariance, malformed input included: however a stream is cut into chunks, the events
      and the leftover buffer are those of feeding it once. */
  lemma {:induction false} ChunksDoNotMatter<P>(buffer: Text, chunks: seq<Text>, loads: Text -> Option<P>)
    requires Partial(buffer)
    ensures FeedChunks(buffer, chunks, loads) == FeedAll(buffer + Concat(chunks), loads)
    decreases |chunks|
  {
    if chunks == [] {
      assert buffer + [] == buffer;
    } else {
      ChunkStep(buffer, chunks, loads);
      hide *;
      var a := buffer + chunks[0];
      LeftoverIsPartial(a, loads);
      ChunksDoNotMatter(FeedAll(a, loads).1, chunks[1..], loads);
      FeedTwice(a, Concat(chunks[1..]), loads);
    }
  }

  /** A streaming text decoder: it takes a byte, changes its state and may emit code units. */
  datatype Decoder<!S> = Decoder(step: (S, Byte) -> (S, Text)) {
    function Decode(s: S, bytes: seq<Byte>): (S, Text)
      decreases |bytes|
    {
      if bytes == [] then (s, [])
      else
        var (s', out) := step(s, bytes[0]);
        var (s'', rest) := Decode(s', bytes[1..]);
        (s'', out + rest)
    }

    lemma {:induction false} DecodeTwice(s: S, a: seq<Byte>, b: seq<Byte>)
      ensures var (s', out) := Decode(s, a);
              var (s'', rest) := Decode(s', b);
              Decode(s, a + b) == (s'', out + rest)
      decreases |a|
    {
      if a == [] {
        assert a + b == b && [] + Decode(s, b).1 == Decode(s, b).1;
      } else {
        var (s1, out) := step(s, a[0]);
        DecodeTwice(s1, a[1..], b);
        assert (a + b)[1..] == a[1..] + b;
        var (s2, mid) := Decode(s1, a[1..]);
        assert out + (mid + Decode(s2, b).1) == (out + mid) + Decode(s2, b).1;
      }
    }
  }

  function DecodedChunks<S>(d: Decoder<S>, s: S, chunks: seq<seq<Byte>>): seq<Text>
    decreases |chunks|
  {
    if chunks == [] then []
    else [d.Decode(s, chunks[0]).1] + DecodedChunks(d, d.Decode(s, chunks[0]).0, chunks[1..])
  }

  function ConcatBytes(chunks: seq<seq<Byte>>): seq<Byte> {
    if chunks == [] then [] else chunks[0] + ConcatBytes(chunks[1..])
  }

  /** The TypeScript parser decodes each chunk first, in streaming mode; with any streaming
      decoder the chunking of the bytes still does not matter, even inside a character. */
  lemma {:induction false} ByteChunksDoNotMatter<P, S>(
      d: Decoder<S>, s: S, chunks: seq<seq<Byte>>, loads: Text -> Option<P>)
    ensures FeedChunks([], DecodedChunks(d, s, chunks), loads) == FeedAll(d.Decode(s, ConcatBytes(chunks)).1, loads)
  {
    DecodedConcat(d, s, chunks);
    assert Partial([]);
    ChunksDoNotMatter([], DecodedChunks(d, s, chunks), loads);
    assert [] + Concat(DecodedChunks(d, s, chunks)) == Concat(DecodedChunks(d, s, chunks));
  }

  lemma {:induction false} DecodedConcat<S>(d: Decoder<S>, s: S, chunks: seq<seq<Byte>>)
    ensures Concat(DecodedChunks(d, s, chunks)) == d.Decode(s, ConcatBytes(chunks)).1
    decreases |chunks|
  {
    if chunks != [] {
      DecodedConcat(d, d.Decode(s, chunks[0]).0, chunks[1..]);
      d.DecodeTwice(s, chunks[0], ConcatBytes(chunks[1..]));
    }
  }

  // ---------------------------------------------------------------- the printer

  /** What the server writes: an event with its payload's JSON text, or a heartbeat. */
  datatype Item = Send(name: seq<Byte>, body: seq<Byte>) | Heartbeat

  function Print(item: Item): seq<Byte> {
    match item
    case Send(name, body) => EVENT_PREFIX + name + [NL] + (DATA_PREFIX + body + [NL, NL])
    case Heartbeat => KEEPALIVE + [NL, NL]
  }

  function PrintAll(items: seq<Item>): seq<Byte> {
    if items == [] then [] else Print(items[0]) + PrintAll(items[1..])
  }

  /** What gets through a connection that breaks after so many bytes. */
  function Cut(bytes: seq<Byte>, limit: nat): seq<Byte> {
    if |bytes| <= limit then bytes else bytes[..limit]
  }

  /** The response body. Its connection takes limit bytes; what is sent beyond fails. */
  class SseWriter {
    var out: seq<Byte>
    const limit: nat

    ghost predicate Valid() reads this { |out| <= limit }

    constructor (limit: nat)
      ensures Valid() && out == [] && this.limit == limit
    {
      out, this.limit := [], limit;
    }

    method Send(name: seq<Byte>, body: seq<Byte>) returns (ok: bool)
      requires Valid()
      modifies this
      ensures Valid() && out == Cut(old(out) + Print(Item.Send(name, body)), limit)
      ensures ok <==> |old(out) + Print(Item.Send(name, body))| <= limit
    {
      ok := Write(EVENT + [COLON, SP] + name + [NL] + (DATA + [COLON, SP] + body + [NL, NL]));
    }

    method Heartbeat() returns (ok: bool)
      requires Valid()
      modifies this
      ensures Valid() && out == Cut(old(out) + Print(Item.Heartbeat), limit)
      ensures ok <==> |old(out) + Print(Item.Heartbeat)| <= limit
    {
      ok := Write(KEEPALIVE + [NL, NL]);
    }

    method Write(bytes: seq<Byte>) returns (ok: bool)
      requires Valid()
      modifies this
      ensures Valid() && out == Cut(old(out) + bytes, limit)
      ensures ok <==> |old(out) + bytes| <= limit
    {
      ok := |out| + |bytes| <= limit;
      out := Cut(out + bytes, limit);
    }
  }

  /** Text that stays on one line for every reader. */
  predicate OneLine(s: Text) {
    NL !in s && CR !in s
  }

  /** Names and bodies as the server sends them: single lines that fit the client's buffer and
      a body that decodes. */
  predicate WellSent<P>(item: Item, loads: Text -> Option<P>) {
    item.Send? ==>
      && OneLine(item.name) && OneLine(item.body)
      && |item.name| < MAX_LINE - 7 && |item.body| < MAX_LINE - 6
      && loads(item.body).Some?
  }

  ghost predicate AllWellSent<P(!new)>(items: seq<Item>, loads: Text -> Option<P>) {
    forall i :: 0 <= i < |items| ==> WellSent(items[i], loads)
  }

  /** The events a list of items stands for. */
  function Sent<P>(items: seq<Item>, loads: Text -> Option<P>): seq<Event<P>> {
    if items == [] then [] else SentOne(items[0], loads) + Sent(items[1..], loads)
  }

  function SentOne<P>(item: Item, loads: Text -> Option<P>): seq<Event<P>> {
    match item
    case Heartbeat => []
    case Send(name, body) =>
      match loads(body)
      case None => []
      case Some(p) => [Event(name, p)]
  }

  // ---------------------------------------------------------------- printing, then parsing

  lemma {:induction false} FindBlankIs(s: Text, r: nat)
    requires BlankAt(s, r) && forall i :: 0 <= i < r ==> !BlankAt(s, i)
    ensures FindBlank(s, 0) == r
  {
  }

  lemma {:induction false} BlankOfTwoLines(a: Text, b: Text, rest: Text)
    requires NL !in a && NL !in b && b != []
    ensures FindBlank(a + [NL] + (b + [NL, NL]) + rest, 0) == |a| + 1 + |b|
  {
    var s := a + [NL] + (b + [NL, NL]) + rest;
    var r := |a| + 1 + |b|;
    assert s[r] == NL && s[r + 1] == NL;
    forall i | 0 <= i < r ensures !BlankAt(s, i) {
      if i < |a| {
        assert s[i] == a[i];
      } else if i == |a| {
        assert s[i + 1] == b[0];
      } else {
        assert s[i] == b[i - |a| - 1];
      }
    }
    FindBlankIs(s, r);
  }

  lemma {:induction false} BlankOfOneLine(a: Text, rest: Text)
    requires NL !in a
    ensures FindBlank(a + [NL, NL] + rest, 0) == |a|
  {
    var s := a + [NL, NL] + rest;
    forall i | 0 <= i < |a| ensures !BlankAt(s, i) {
      assert s[i] == a[i];
    }
    FindBlankIs(s, |a|);
  }

  lemma {:induction false} IndexOfIs(a: Text, c: int, rest: Text)
    requires c !in a
    ensures IndexOf(a, c, 0) == |a|
    ensures IndexOf(a + [c] + rest, c, 0) == |a|
  {
    var s := a + [c] + rest;
    forall i | 0 <= i < |a| ensures s[i] != c {
      assert s[i] == a[i];
    }
    FirstIs(s, c, |a|);
    FirstIs(a, c, |a|);
  }

  lemma {:induction false} FirstIs(s: Text, c: int, r: nat)
    requires r <= |s| && (r < |s| ==> s[r] == c)
    requires forall i :: 0 <= i < r ==> s[i] != c
    ensures IndexOf(s, c, 0) == r
  {
  }

  lemma {:induction false} FieldOfPrefixed(field: Text, value: Text)
    requires COLON !in field
    ensures Field(field + [COLON, SP] + value) == (field, value)
  {
    var line := field + [COLON, SP] + value;
    assert line == field + [COLON] + ([SP] + value);
    IndexOfIs(field, COLON, [SP] + value);
    assert line[|field| + 1..] == [SP] + value && ([SP] + value)[1..] == value;
    assert line[..|field|] == field;
  }

  lemma {:induction false} SplitTwoLines(a: Text, b: Text)
    requires NL !in a && NL !in b
    ensures Split(a) == [a] && Split(a + [NL] + b) == [a, b]
  {
    IndexOfIs(a, NL, b);
    IndexOfIs(b, NL, []);
    var s := a + [NL] + b;
    assert s[..|a|] == a && s[|a| + 1..] == b;
    assert Split(b) == [b];
  }

  lemma {:induction false} BlockOfSend<P>(name: Text, body: Text, loads: Text -> Option<P>)
    requires NL !in name && NL !in body && loads(body).Some?
    ensures BlockEvent(EVENT_PREFIX + name + [NL] + (DATA_PREFIX + body), loads) == Some(Event(name, loads(body).value))
  {
    var first, second: Text := EVENT_PREFIX + name, DATA_PREFIX + body;
    SplitTwoLines(first, second);
    FieldOfPrefixed(EVENT, name);
    FieldOfPrefixed(DATA, body);
    FoldTwo(first, second);
    assert Join([body]) == body;
  }

  lemma {:induction false} FoldTwo(first: Text, second: Text)
    requires first != [] && first[0] != COLON && second != [] && second[0] != COLON
    requires Field(first).0 == EVENT && Field(second).0 == DATA
    ensures FoldLines([first, second], None, []) == (Some(Field(first).1), [Field(second).1])
  {
    hide Field;
    var lines: seq<Text> := [first, second];
    assert lines[1..] == [second] && lines[1..][1..] == [];
    assert |EVENT| != |DATA|;
    assert FoldLines(lines, None, []) == FoldLines(lines[1..], Some(Field(first).1), []);
    assert lines[1..][0] == second && [] + [Field(second).1] == [Field(second).1];
    assert FoldLines(lines[1..], Some(Field(first).1), []) ==
           FoldLines(lines[1..][1..], Some(Field(first).1), [Field(second).1]);
  }

  /** Round trip: any interleaving of events and heartbeats is parsed back to exactly the events,
      in order, with nothing left over. */
  lemma {:induction false} ParsesBack<P(!new)>(items: seq<Item>, loads: Text -> Option<P>)
    requires AllWellSent(items, loads)
    ensures FeedAll(PrintAll(items), loads) == (Sent(items, loads), [])
    decreases |items|
  {
    hide FeedAll, WellSent;
    if items == [] {
      FeedNothing(loads);
    } else {
      assert WellSent(items[0], loads);
      ParsesBack(items[1..], loads);
      ParsesOne(items[0], PrintAll(items[1..]), loads);
    }
  }

  lemma {:induction false} FeedNothing<P>(loads: Text -> Option<P>)
    ensures FeedAll([], loads) == ([], [])
  {
  }

  lemma {:induction false} ParsesOne<P>(item: Item, rest: Text, loads: Text -> Option<P>)
    requires WellSent(item, loads)
    ensures FeedAll(Print(item) + rest, loads) ==
            (SentOne(item, loads) + FeedAll(rest, loads).0, FeedAll(rest, loads).1)
  {
    hide FeedAll, FindBlank, BlockEvent;
    match item
    case Send(name, body) =>
      var block := EVENT_PREFIX + name + [NL] + (DATA_PREFIX + body);
      BlankOfTwoLines(EVENT_PREFIX + name, DATA_PREFIX + body, rest);
      BlockOfSend(name, body, loads);
      assert Print(item) + rest == block + [NL, NL] + rest;
      assert Print(item) + rest == EVENT_PREFIX + name + [NL] + (DATA_PREFIX + body + [NL, NL]) + rest;
      FeedBlock(block, rest, loads);
    case Heartbeat =>
      BlankOfOneLine(KEEPALIVE, rest);
      BlockOfHeartbeat(loads);
      FeedBlock(KEEPALIVE, rest, loads);
  }

  lemma {:induction false} FeedBlock<P>(block: Text, rest: Text, loads: Text -> Option<P>)
    requires FindBlank(block + [NL, NL] + rest, 0) == |block|
    ensures FeedAll(block + [NL, NL] + rest, loads) ==
            (Emit(BlockEvent(block, loads)) + FeedAll(rest, loads).0, FeedAll(rest, loads).1)
  {
    hide FindBlank, BlockEvent;
    var s := block + [NL, NL] + rest;
    assert s[..|block|] == block && s[|block| + 2..] == rest;
  }

  lemma {:induction false} BlockOfHeartbeat<P>(loads: Text -> Option<P>)
    ensures BlockEvent(KEEPALIVE, loads) == None
  {
    SplitTwoLines(KEEPALIVE, KEEPALIVE);
    var lines: seq<Text> := [KEEPALIVE];
    assert lines[1..] == [];
    assert FoldLines(lines, None, []) == (None, []);
  }

  // ---------------------------------------------------------------- the Go client's scanner

  datatype Line = SetEvent(name: Text) | DataLine(body: Text) | Other

  predicate HasPrefix(s: Text, p: Text) {
    |p| <= |s| && s[..|p|] == p
  }

  function Classify(line: Text): Line {
    if HasPrefix(line, EVENT_PREFIX) then SetEvent(line[7..])
    else if HasPrefix(line, DATA_PREFIX) then DataLine(line[6..])
    else Other
  }

  function DropCR(line: Text): Text {
    if line != [] && line[|line| - 1] == CR then line[..|line| - 1] else line
  }

  datatype Scanned<+P> = Scanned(events: seq<Event<P>>, ok: bool)

  /** What one line does, given the event name in force and the outcome of the lines after it. */
  function LineThen<P>(event: Text, line: Line, after: Scanned<P>, loads: Text -> Option<P>): Scanned<P> {
    match line
    case DataLine(body) =>
      (match loads(body)
       case None => Scanned([], false)
       case Some(p) => Scanned([Event(event, p)] + after.events, after.ok))
    case _ => after
  }

  function NameAfter(event: Text, line: Line): Text {
    match line
    case SetEvent(name) => name
    case DataLine(_) => []
    case Other => event
  }

  /** All a body yields: lines end at newlines or at the end of the body, a line that does not
      fit the buffer or does not decode ends the stream with an error. */
  function GoScan<P>(event: Text, s: Text, loads: Text -> Option<P>): Scanned<P>
    decreases |s|
  {
    if s == [] then Scanned([], true)
    else
      var i := IndexOf(s, NL, 0);
      if i >= MAX_LINE then Scanned([], false)
      else
        var line := Classify(DropCR(s[..i]));
        var rest := if i == |s| then [] else s[i + 1..];
        LineThen(event, line, GoScan(NameAfter(event, line), rest, loads), loads)
  }

  /** StreamOutput's scan loop. */
  method StreamOutput<P>(body: Text, loads: Text -> Option<P>) returns (events: seq<Event<P>>, ok: bool)
    ensures Scanned(events, ok) == GoScan([], body, loads)
  {
    hide IndexOf, Classify, DropCR, GoScan;
    var event: Text, rest := [], body;
    events, ok := [], true;
    while rest != []
      invariant ok
      invariant GoScan([], body, loads) ==
                Scanned(events + GoScan(event, rest, loads).events, GoScan(event, rest, loads).ok)
      decreases |rest|
    {
      GoStep(event, rest, loads);
      var i := IndexOf(rest, NL, 0);
      if i >= MAX_LINE {
        return events, false;
      }
      var line := Classify(DropCR(rest[..i]));
      rest := if i == |rest| then [] else rest[i + 1..];
      match line
      case SetEvent(name) =>
        event := name;
      case DataLine(text) =>
        var payload := loads(text);
        if payload.None? {
          return events, false;
        }
        events := events + [Event(event, payload.value)];
        event := [];
      case Other =>
    }
    GoScanNothing(event, loads);
  }

  lemma {:induction false} GoStep<P>(event: Text, s: Text, loads: Text -> Option<P>)
    requires s != []
    ensures var i := IndexOf(s, NL, 0);
            GoScan(event, s, loads) ==
            if i >= MAX_LINE then Scanned([], false)
            else
              var line := Classify(DropCR(s[..i]));
              var rest := if i == |s| then [] else s[i + 1..];
              LineThen(event, line, GoScan(NameAfter(event, line), rest, loads), loads)
  {
    hide IndexOf, Classify, DropCR, LineThen, NameAfter;
  }

  lemma {:induction false} GoLine<P>(event: Text, text: Text, rest: Text, loads: Text -> Option<P>)
    requires NL !in text && |text| < MAX_LINE
    ensures var line := Classify(DropCR(text));
            GoScan(event, text + [NL] + rest, loads) ==
            LineThen(event, line, GoScan(NameAfter(event, line), rest, loads), loads)
  {
    var s := text + [NL] + rest;
    IndexOfIs(text, NL, rest);
    hide IndexOf, Classify, DropCR, LineThen, NameAfter;
    assert s[..|text|] == text && s[|text| + 1..] == rest;
  }

  lemma {:induction false} GoLastLine<P>(event: Text, text: Text, loads: Text -> Option<P>)
    requires NL !in text && 0 < |text| < MAX_LINE
    ensures var line := Classify(DropCR(text));
            GoScan(event, text, loads) == LineThen(event, line, Scanned([], true), loads)
  {
    IndexOfIs(text, NL, []);
    hide IndexOf, Classify, DropCR, LineThen, NameAfter;
    assert text[..|text|] == text;
  }

  lemma {:induction false} ClassifySent(name: Text, body: Text)
    requires CR !in name && CR !in body
    ensures Classify(DropCR(EVENT_PREFIX + name)) == SetEvent(name)
    ensures Classify(DropCR(DATA_PREFIX + body)) == DataLine(body)
    ensures Classify(DropCR(KEEPALIVE)) == Other && Classify(DropCR([])) == Other
  {
    var first, second: Text := EVENT_PREFIX + name, DATA_PREFIX + body;
    assert first[|first| - 1] != CR by { if name != [] { assert first[|first| - 1] == name[|name| - 1]; } }
    assert second[|second| - 1] != CR by { if body != [] { assert second[|second| - 1] == body[|body| - 1]; } }
    assert first[..7] == EVENT_PREFIX && first[7..] == name;
    assert second[..6] == DATA_PREFIX && second[6..] == body;
    assert second[0] != EVENT_PREFIX[0] by { assert second[0] == DATA_PREFIX[0]; }
    assert |second| >= 7 ==> second[..7][0] == second[0];
    assert KEEPALIVE[..7][0] != EVENT_PREFIX[0] && KEEPALIVE[..6][0] != DATA_PREFIX[0];
  }

  lemma {:induction false} GoScansOne<P>(event: Text, item: Item, rest: Text, loads: Text -> Option<P>)
    requires WellSent(item, loads)
    ensures var after := GoScan(if item.Send? then [] else event, rest, loads);
            GoScan(event, Print(item) + rest, loads) == Scanned(SentOne(item, loads) + after.events, after.ok)
  {
    hide IndexOf, Classify, DropCR, GoScan;
    match item
    case Send(name, body) =>
      var first, second: Text := EVENT_PREFIX + name, DATA_PREFIX + body;
      ClassifySent(name, body);
      assert Print(item) + rest == first + [NL] + (second + [NL] + ([] + [NL] + rest));
      GoLine(event, first, second + [NL] + ([] + [NL] + rest), loads);
      GoLine(name, second, [] + [NL] + rest, loads);
      GoLine([], [], rest, loads);
    case Heartbeat =>
      ClassifySent([], []);
      assert Print(item) + rest == KEEPALIVE + [NL] + ([] + [NL] + rest);
      GoLine(event, KEEPALIVE, [] + [NL] + rest, loads);
      GoLine(event, [], rest, loads);
  }

  lemma {:induction false} GoScanNothing<P>(event: Text, loads: Text -> Option<P>)
    ensures GoScan(event, [], loads) == Scanned([], true)
  {
  }

  /** On every stream the server can produce, the Go client sees the events the SDKs see. */
  lemma {:induction false} GoAgrees<P(!new)>(event: Text, items: seq<Item>, loads: Text -> Option<P>)
    requires AllWellSent(items, loads)
    ensures GoScan(event, PrintAll(items), loads) == Scanned(FeedAll(PrintAll(items), loads).0, true)
    decreases |items|
  {
    ParsesBack(items, loads);
    hide FeedAll, WellSent;
    if items == [] {
      GoScanNothing(event, loads);
    } else {
      hide GoScan;
      assert WellSent(items[0], loads);
      var event' := if items[0].Send? then [] else event;
      GoAgrees(event', items[1..], loads);
      ParsesBack(items[1..], loads);
      GoScansOne(event, items[0], PrintAll(items[1..]), loads);
    }
  }

  // ---------------------------------------------------------------- blocks the server does not send

  lemma {:induction false} SplitOfJoin(lines: seq<Text>)
    requires lines != [] && forall i :: 0 <= i < |lines| ==> NL !in lines[i]
    ensures Split(Join(lines)) == lines
    decreases |lines|
  {
    hide IndexOf;
    var rest := lines[1..];
    assert lines == [lines[0]] + rest;
    if rest == [] {
      IndexOfIs(lines[0], NL, []);
      assert lines[0] + [] == lines[0];
    } else {
      var s := Join(lines);
      assert s == lines[0] + ([NL] + Join(rest));
      IndexOfIs(lines[0], NL, Join(rest));
      assert s[..|lines[0]|] == lines[0] && s[|lines[0]| + 1..] == Join(rest);
      SplitOfJoin(rest);
    }
  }

  function DataLines(bodies: seq<Text>): (lines: seq<Text>)
    ensures |lines| == |bodies|
  {
    seq(|bodies|, i requires 0 <= i < |bodies| => DATA_PREFIX + bodies[i])
  }

  /** An event may have any number of data lines, whose values are joined by newlines, and its name
      line may come before or behind them. */
  lemma {:induction false} DataLinesAreJoined<P>(
      name: Text, bodies: seq<Text>, nameFirst: bool, loads: Text -> Option<P>)
    requires bodies != [] && NL !in name && forall i :: 0 <= i < |bodies| ==> NL !in bodies[i]
    ensures var first := [EVENT_PREFIX + name];
            var block := Join(if nameFirst then first + DataLines(bodies) else DataLines(bodies) + first);
            BlockEvent(block, loads) ==
            match loads(Join(bodies)) case None => None case Some(p) => Some(Event(name, p))
  {
    hide Split, FoldLines, Join, Field;
    var first: Text, data := EVENT_PREFIX + name, DataLines(bodies);
    var lines := if nameFirst then [first] + data else data + [first];
    forall i | 0 <= i < |lines| ensures NL !in lines[i] {
      OneDataLine(name, bodies, nameFirst, i);
    }
    SplitOfJoin(lines);
    FoldName(name, [], []);
    if nameFirst {
      FoldName(name, data, []);
      FoldData(bodies, Some(name), [], []);
      FoldName(name, [], bodies);
      assert data + [] == data;
    } else {
      FoldData(bodies, None, [], [first]);
      FoldName(name, [], bodies);
      assert [first] + [] == [first];
    }
    assert [] + bodies == bodies;
  }

  lemma {:induction false} OneDataLine(name: Text, bodies: seq<Text>, nameFirst: bool, i: nat)
    requires NL !in name && forall j :: 0 <= j < |bodies| ==> NL !in bodies[j]
    requires i < |bodies| + 1
    ensures var first := [EVENT_PREFIX + name];
            NL !in (if nameFirst then first + DataLines(bodies) else DataLines(bodies) + first)[i]
  {
  }

  lemma {:induction false} FoldName(name: Text, rest: seq<Text>, data: seq<Text>)
    ensures FoldLines([EVENT_PREFIX + name] + rest, None, data) == FoldLines(rest, Some(name), data)
    ensures FoldLines([], Some(name), data) == (Some(name), data)
  {
    FieldOfPrefixed(EVENT, name);
    var first: Text := EVENT_PREFIX + name;
    assert EVENT + [COLON, SP] + name == first && first[0] == EVENT[0];
    hide Field;
    assert ([first] + rest)[1..] == rest && |EVENT| != |DATA|;
  }

  lemma {:induction false} FoldData(bodies: seq<Text>, name: Option<Text>, data: seq<Text>, rest: seq<Text>)
    ensures FoldLines(DataLines(bodies) + rest, name, data) == FoldLines(rest, name, data + bodies)
    decreases |bodies|
  {
    hide Field;
    if bodies == [] {
      assert DataLines(bodies) + rest == rest && data + bodies == data;
    } else {
      var lines := DataLines(bodies) + rest;
      var first: Text := DATA_PREFIX + bodies[0];
      FieldOfPrefixed(DATA, bodies[0]);
      assert DATA + [COLON, SP] + bodies[0] == first && first[0] == DATA[0];
      assert lines[0] == first && lines[1..] == DataLines(bodies[1..]) + rest && |EVENT| != |DATA|;
      FoldData(bodies[1..], name, data + [bodies[0]], rest);
      assert (data + [bodies[0]]) + bodies[1..] == data + bodies;
    }
  }

  /** Lines with other fields change nothing. */
  lemma {:induction false} OtherFieldsAreIgnored(line: Text, rest: seq<Text>, name: Option<Text>, data: seq<Text>)
    requires Field(line).0 != EVENT && Field(line).0 != DATA
    ensures FoldLines([line] + rest, name, data) == FoldLines(rest, name, data)
  {
    assert ([line] + rest)[1..] == rest;
  }

  /** The Go client takes a carriage return before a newline for part of the line end ... */
  lemma {:induction false} CarriageReturnIsDropped<P>(event: Text, text: Text, rest: Text, loads: Text -> Option<P>)
    requires NL !in text && |text| + 1 < MAX_LINE && (text != [] ==> text[|text| - 1] != CR)
    ensures GoScan(event, text + [CR] + [NL] + rest, loads) == GoScan(event, text + [NL] + rest, loads)
  {
    hide GoScan, Classify;
    var ended := text + [CR];
    GoLine(event, ended, rest, loads);
    GoLine(event, text, rest, loads);
    assert ended[..|text|] == text;
  }

  /** ... and gives up on a line that does not fit its buffer, with the events before it. */
  lemma {:induction false} LongLineFails<P>(event: Text, text: Text, rest: Text, loads: Text -> Option<P>)
    requires |text| == MAX_LINE && NL !in text
    ensures GoScan(event, text + rest, loads) == Scanned([], false)
  {
    var s := text + rest;
    forall i | 0 <= i < |text| ensures s[i] != NL { assert s[i] == text[i] && text[i] in text; }
  }

  /** In the Go client a name is used up by the data line behind it. */
  lemma {:induction false} NameIsForOneEvent<P>(
      event: Text, name: Text, first: Text, second: Text, rest: Text, loads: Text -> Option<P>)
    requires OneLine(name) && |name| < MAX_LINE - 7
    requires OneLine(first) && |first| < MAX_LINE - 6 && loads(first).Some?
    requires OneLine(second) && |second| < MAX_LINE - 6 && loads(second).Some?
    ensures var more := GoScan([], rest, loads);
            var data := DATA_PREFIX + first + [NL] + (DATA_PREFIX + second + [NL] + rest);
            GoScan(event, EVENT_PREFIX + name + [NL] + data, loads) ==
            Scanned([Event(name, loads(first).value), Event([], loads(second).value)] + more.events, more.ok)
  {
    hide IndexOf, Classify, DropCR, GoScan;
    ClassifySent(name, first);
    ClassifySent(name, second);
    GoLine([], DATA_PREFIX + second, rest, loads);
    GoLine(name, DATA_PREFIX + first, DATA_PREFIX + second + [NL] + rest, loads);
    GoLine(event, EVENT_PREFIX + name, DATA_PREFIX + first + [NL] + (DATA_PREFIX + second + [NL] + rest), loads);
  }

  /** Of several names in a block the last one counts. */
  lemma {:induction false} LastNameCounts(name: Text, rest: seq<Text>, earlier: Option<Text>, data: seq<Text>)
    ensures FoldLines([EVENT_PREFIX + name] + rest, earlier, data) == FoldLines(rest, Some(name), data)
  {
    FieldOfPrefixed(EVENT, name);
    var first: Text := EVENT_PREFIX + name;
    assert EVENT + [COLON, SP] + name == first && first[0] == EVENT[0];
    hide Field;
    assert ([first] + rest)[1..] == rest && |EVENT| != |DATA|;
  }

  /** Whether a block has a line of this field. */
  ghost predicate HasField(lines: seq<Text>, field: Text) {
    exists i :: 0 <= i < |lines| && lines[i] != [] && lines[i][0] != COLON && Field(lines[i]).0 == field
  }

  /** A block has an event only if some line gives it a name and some line data, and always then if every
      text decodes. */
  lemma {:induction false} IncompleteBlocksAreDropped<P(!new)>(block: Text, loads: Text -> Option<P>)
    ensures BlockEvent(block, loads).Some? ==> HasField(Split(block), EVENT) && HasField(Split(block), DATA)
    ensures HasField(Split(block), EVENT) && HasField(Split(block), DATA) && (forall t :: loads(t).Some?) ==>
              BlockEvent(block, loads).Some?
  {
    FoldFinds(Split(block), None, []);
    hide Split, HasField, FoldLines;
  }

  lemma {:induction false} FoldFinds(lines: seq<Text>, name: Option<Text>, data: seq<Text>)
    ensures FoldLines(lines, name, data).0.Some? <==> name.Some? || HasField(lines, EVENT)
    ensures FoldLines(lines, name, data).1 != [] <==> data != [] || HasField(lines, DATA)
    decreases |lines|
  {
    hide Field;
    if lines != [] {
      var rest := lines[1..];
      HasFieldStep(lines, EVENT);
      HasFieldStep(lines, DATA);
      hide HasField;
      if lines[0] == [] || lines[0][0] == COLON {
        FoldFinds(rest, name, data);
      } else {
        var (field, value) := Field(lines[0]);
        FoldFinds(rest, if field == EVENT then Some(value) else name, if field == DATA then data + [value] else data);
      }
    }
  }

  lemma {:induction false} HasFieldStep(lines: seq<Text>, field: Text)
    requires lines != []
    ensures HasField(lines, field) <==>
            (lines[0] != [] && lines[0][0] != COLON && Field(lines[0]).0 == field) || HasField(lines[1..], field)
  {
    hide Field;
    forall i | 0 <= i < |lines| - 1 ensures lines[1..][i] == lines[i + 1] {}
    if HasField(lines, field) && !(lines[0] != [] && lines[0][0] != COLON && Field(lines[0]).0 == field) {
      var i :| 0 <= i < |lines| && lines[i] != [] && lines[i][0] != COLON && Field(lines[i]).0 == field;
      assert lines[1..][i - 1] == lines[i];
    }
  }
}
