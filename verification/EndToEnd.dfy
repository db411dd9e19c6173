/** From the supervisor to the terminal: connections served by the protocol's handlers are those the
    following client is proved against, and a follower that saw `exit` has shown the exec's whole
    final log (internal/exec/service.go, internal/api/execs.go, cmd/orcal/logs_cmd.go). */
module EndToEnd {
  import opened Wrappers
  import opened ExecLog
  import opened Sse
  import opened Follow
  import P = OutputProtocol
  import ExecOutput

  /** A connection as its handler leaves it: the log as it is then, the records sent, and an exit
      exactly if the handler sent it. Where the body is cut on the way is open. */
  ghost predicate ServedBy(a: Attempt, now: P.System, id: nat) {
    && id in now.handlers && !a.refused && a.file == now.file
    && a.reach == |now.handlers[id].sent| && (a.exit.Some? <==> now.handlers[id].pc == P.ExitSent)
  }

  /** A handler in any interleaving serves an attempt: the records it reaches are those the handler
      sent, and after `exit` they are all of the final log. */
  lemma {:induction false} HandlerIsAnAttempt(s: P.System, steps: seq<P.Step>, id: nat, a: Attempt)
    requires P.Init(s) && ServedBy(a, P.Run(s, steps), id)
    ensures var h := P.Run(s, steps).handlers[id];
            && a.Reached(h.start) == h.sent
            && (a.exit.Some? ==> !P.Run(s, steps).running && h.sent == Scan(P.Run(s, steps).file, h.start))
  {
    hide Scan, P.Run, P.Init;
    P.DeliveryIsExact(s, steps, id);
    if a.exit.Some? {
      P.ExitAfterEverything(s, steps, [], id);
    }
  }

  /** What later moments of one run hold. */
  ghost predicate Later(times: seq<nat>, last: nat) {
    && (forall i :: 0 <= i < |times| ==> times[i] <= last)
    && (forall i, j :: 0 <= i < j < |times| ==> times[i] <= times[j])
  }

  /** Connections made one after the other while an exec runs its course: each reads the log of its
      moment, and an exit is sent only when the row has ended. */
  ghost predicate FromRun(world: seq<Attempt>, s: P.System, steps: seq<P.Step>, times: seq<nat>) {
    && |times| == |world| && Later(times, |steps|)
    && forall i :: 0 <= i < |world| ==> AtMoment(world[i], P.Run(s, steps[..times[i]]))
  }

  ghost predicate AtMoment(a: Attempt, now: P.System) {
    a.file == now.file && (a.exit.Some? ==> !now.running)
  }

  lemma {:induction false} MomentsGrow(s: P.System, steps: seq<P.Step>, i: nat, j: nat)
    requires P.Init(s) && i <= j <= |steps|
    ensures Scan(P.Run(s, steps[..i]).file, 0) <= Scan(P.Run(s, steps[..j]).file, 0)
  {
    hide P.Run, P.Init, Scan;
    assert steps[..j][..i] == steps[..i];
    P.RecordsOnlyGrow(s, steps[..j], i);
  }

  /** So their logs grow, also across restarts and repairs. */
  lemma {:induction false} WorldGrows(world: seq<Attempt>, s: P.System, steps: seq<P.Step>, times: seq<nat>)
    requires P.Init(s) && FromRun(world, s, steps, times)
    ensures Growing(world)
  {
    hide P.Run, P.Init, Scan;
    forall i, j | 0 <= i <= j < |world| ensures Scan(world[i].file, 0) <= Scan(world[j].file, 0) {
      assert AtMoment(world[i], P.Run(s, steps[..times[i]])) && AtMoment(world[j], P.Run(s, steps[..times[j]]));
      MomentsGrow(s, steps, times[i], times[j]);
    }
  }

  /** The same for the reads of one connection. */
  ghost predicate TurnsOf(
      turns: seq<ExecOutput.Turn>, s: P.System, steps: seq<P.Step>, drains: seq<nat>, lasts: seq<nat>)
  {
    && |drains| == |turns| == |lasts|
    && (forall i :: 0 <= i < |turns| ==> drains[i] <= lasts[i] <= |steps|)
    && (forall i :: 0 < i < |turns| ==> lasts[i - 1] <= drains[i])
    && (forall i :: 0 <= i < |turns| ==>
          TurnAt(turns[i], P.Run(s, steps[..drains[i]]), P.Run(s, steps[..lasts[i]])))
  }

  ghost predicate TurnAt(turn: ExecOutput.Turn, now: P.System, after: P.System) {
    turn.file == now.file && turn.last == after.file && (turn.row.Ended? ==> !after.running)
  }

  lemma {:induction false} TurnsGrow(
      turns: seq<ExecOutput.Turn>, s: P.System, steps: seq<P.Step>, drains: seq<nat>, lasts: seq<nat>)
    requires P.Init(s) && TurnsOf(turns, s, steps, drains, lasts)
    ensures ExecOutput.Grows(turns)
  {
    hide P.Run, P.Init, Scan;
    forall i | 0 <= i < |turns| ensures Scan(turns[i].file, 0) <= Scan(turns[i].last, 0) {
      assert TurnAt(turns[i], P.Run(s, steps[..drains[i]]), P.Run(s, steps[..lasts[i]]));
      MomentsGrow(s, steps, drains[i], lasts[i]);
    }
    forall i | 0 < i < |turns| ensures Scan(turns[i - 1].last, 0) <= Scan(turns[i].file, 0) {
      assert TurnAt(turns[i - 1], P.Run(s, steps[..drains[i - 1]]), P.Run(s, steps[..lasts[i - 1]]));
      assert TurnAt(turns[i], P.Run(s, steps[..drains[i]]), P.Run(s, steps[..lasts[i]]));
      MomentsGrow(s, steps, lasts[i - 1], drains[i]);
    }
  }

  lemma {:induction false} TailGrows(was: seq<Byte>, now: seq<Byte>, from: nat)
    requires Scan(was, 0) <= Scan(now, 0) && Boundary(was, from)
    ensures Boundary(now, from) && Scan(was, from) <= Scan(now, from)
  {
    hide Scan, Below, Boundary;
    BoundaryOfExtension(was, now, from);
    ScanFromBoundary(was, from);
    var before, more := Below(Scan(was, 0), from), Scan(now, 0)[|Scan(was, 0)|..];
    assert before + Scan(now, from) == before + (Scan(was, from) + more);
    CancelPrefix(before, Scan(now, from), Scan(was, from) + more);
  }

  /** An exec that has ended has the log it will always have. */
  lemma {:induction false} EndedLogIsFinal(s: P.System, steps: seq<P.Step>, i: nat)
    requires P.Init(s) && i <= |steps| && !P.Run(s, steps[..i]).running
    ensures P.Run(s, steps).file == P.Run(s, steps[..i]).file && !P.Run(s, steps).running
  {
    hide P.Run, P.Init;
    assert steps[..i] + steps[i..] == steps;
    P.FrozenAfterFinish(s, steps[..i], steps[i..]);
  }

  /** handleExecOutput against an exec's whole life: with `exit` sent, what was sent is the exec's
      final log from the start offset. */
  method ServeExec(
      f: LogFile, stream: SseWriter, codec: Codec, from: nat, turns: seq<ExecOutput.Turn>,
      ghost s: P.System, ghost steps: seq<P.Step>, ghost drains: seq<nat>, ghost lasts: seq<nat>)
    returns (ghost items: seq<Item>, ghost sent: seq<Record>, exit: Option<Payload>, ghost passed: nat)
    requires stream.Valid() && turns != [] && Boundary(turns[0].file, from)
    requires P.Init(s) && TurnsOf(turns, s, steps, drains, lasts)
    modifies f, stream
    ensures stream.out == Cut(old(stream.out) + PrintAll(items), stream.limit)
    ensures ExecOutput.NoBeats(items) == RecordItems(sent, codec) + ExecOutput.ExitItems(exit, codec)
    ensures exit.Some? ==> sent == Scan(P.Run(s, steps).file, from) && !P.Run(s, steps).running
    ensures var c := ExecOutput.Conn(old(f.present), old(stream.out), stream.limit, codec, from, turns);
            c.Tells(items, exit, passed)
  {
    hide *;
    TurnsGrow(turns, s, steps, drains, lasts);
    ghost var final;
    assert stream.Valid();
    items, sent, final, exit, passed := ExecOutput.HandleExecOutput(f, stream, codec, from, turns);
    if exit.Some? {
      ghost var i :| 0 <= i < |turns| && turns[i].row == ExecOutput.Ended(exit.value) && final == turns[i].last;
      EndedTurn(turns, s, steps, drains, lasts, i);
    }
  }

  lemma {:induction false} EndedTurn(
      turns: seq<ExecOutput.Turn>, s: P.System, steps: seq<P.Step>, drains: seq<nat>, lasts: seq<nat>, i: nat)
    requires P.Init(s) && TurnsOf(turns, s, steps, drains, lasts) && i < |turns| && turns[i].row.Ended?
    ensures turns[i].last == P.Run(s, steps).file && !P.Run(s, steps).running
  {
    hide P.Run, P.Init;
    assert TurnAt(turns[i], P.Run(s, steps[..drains[i]]), P.Run(s, steps[..lasts[i]]));
    EndedLogIsFinal(s, steps, lasts[i]);
  }

  /** followLogs against an exec's whole life, daemon restarts included: it shows a contiguous run
      of the records of the exec's log, and if it saw `exit` all the records of its final log, to
      which nothing is ever added. */
  method FollowExec(
      world: seq<Attempt>, codec: Codec, from: nat, writes: nat -> nat,
      ghost s: P.System, ghost steps: seq<P.Step>, ghost times: seq<nat>)
    returns (shown: seq<Note>, offset: nat, end: FollowEnd, used: nat)
    requires |world| == RECONNECT_ATTEMPTS + 1 && P.Init(s) && FromRun(world, s, steps, times)
    requires Boundary(world[0].file, from)
    requires codec.Lossless() && forall i :: 0 <= i < |world| ==> world[i].Proper()
    ensures EndsSo(world, codec, from, writes, used, end) && shown == ShownBy(world, codec, from, writes, used)
    ensures var rs := Scan(P.Run(s, steps).file, from);
            exists n :: 0 <= n <= |rs| && shown == Notes(rs[..n]) && offset == CursorAfter(from, rs[..n])
    ensures end == SawExit ==> shown == Notes(Scan(P.Run(s, steps).file, from)) && !P.Run(s, steps).running
    ensures end == SawExit ==> forall more :: P.Run(s, steps + more).file == P.Run(s, steps).file
  {
    hide *;
    WorldGrows(world, s, steps, times);
    var diags;
    shown, diags, offset, end, used := FollowLogs(world, codec, from, writes);
    FollowedIsFinal(world, s, steps, times, from, used - 1);
    ghost var was, rs := Scan(world[used - 1].file, from), Scan(P.Run(s, steps).file, from);
    ghost var n :| 0 <= n <= |was| && shown == Notes(was[..n]) && offset == CursorAfter(from, was[..n]) &&
                   (end == SawExit ==> n == |was| && world[used - 1].exit.Some?);
    assert rs[..n] == was[..n];
    if end == SawExit {
      assert was[..n] == was == rs;
      forall more ensures P.Run(s, steps + more).file == P.Run(s, steps).file {
        P.FrozenAfterFinish(s, steps, more);
      }
    }
  }

  lemma {:induction false} FollowedIsFinal(
      world: seq<Attempt>, s: P.System, steps: seq<P.Step>, times: seq<nat>, from: nat, k: nat)
    requires P.Init(s) && FromRun(world, s, steps, times) && k < |world| && Boundary(world[0].file, from)
    ensures Scan(world[k].file, from) <= Scan(P.Run(s, steps).file, from)
    ensures world[k].exit.Some? ==> world[k].file == P.Run(s, steps).file && !P.Run(s, steps).running
  {
    hide P.Run, P.Init, Scan, Boundary, Growing;
    WorldGrows(world, s, steps, times);
    assert AtMoment(world[k], P.Run(s, steps[..times[k]])) && AtMoment(world[0], P.Run(s, steps[..times[0]]));
    GrowingAt(world, k);
    TailGrows(world[0].file, world[k].file, from);
    P.RecordsOnlyGrow(s, steps, times[k]);
    TailGrows(world[k].file, P.Run(s, steps).file, from);
    if world[k].exit.Some? {
      EndedLogIsFinal(s, steps, times[k]);
    }
  }

  lemma {:induction false} GrowingAt(world: seq<Attempt>, k: nat)
    requires Growing(world) && k < |world|
    ensures Scan(world[0].file, 0) <= Scan(world[k].file, 0)
  {
    hide Scan;
  }
}
