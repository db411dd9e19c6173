/** The audit log: the in-memory repository (internal/audit/memory.go), pruning
    (internal/audit/service.go), the page rule of the API (internal/api/events.go) and the client's
    page loop (sdk/python/src/orcal/_pagination.py). Ids are compared as strings; the model orders
    them as numbers. */
module Audit {
  import opened Wrappers

  datatype Event = Event(id: nat, at: int, actor: nat, action: nat, resourceType: nat, resourceId: nat)

  datatype Filter = Filter(
    actor: Option<nat>, action: Option<nat>, resourceType: Option<nat>, resourceId: Option<nat>,
    since: Option<int>, until: Option<int>, cursor: Option<nat>, limit: nat)

  predicate Passes(want: Option<nat>, got: nat) {
    want.None? || want.value == got
  }

  /** All the filter asks of an event apart from the cursor. */
  predicate Matches(f: Filter, e: Event) {
    && Passes(f.actor, e.actor) && Passes(f.action, e.action)
    && Passes(f.resourceType, e.resourceType) && Passes(f.resourceId, e.resourceId)
    && (f.since.Some? ==> e.at >= f.since.value)
    && (f.until.Some? ==> e.at < f.until.value)
  }

  predicate BelowCursor(cursor: Option<nat>, id: nat) {
    cursor.None? || id < cursor.value
  }

  /** The tests by which events are kept: not older than a cutoff, one of some ids, among so many
      largest ids of a list, what a listing asks for. */
  datatype Test =
    | Recent(cutoff: int)
    | IdIn(ids: set<nat>)
    | AmongLargest(all: seq<Event>, count: nat)
    | Listed(f: Filter)

  predicate Holds(t: Test, e: Event) {
    match t
    case Recent(cutoff) => e.at >= cutoff
    case IdIn(ids) => e.id in ids
    case AmongLargest(all, count) => Larger(all, e.id) < count
    case Listed(f) => Matches(f, e) && BelowCursor(f.cursor, e.id)
  }

  // ---------------------------------------------------------------- keeping and sorting

  function Keep(es: seq<Event>, p: Test): seq<Event> {
    if es == [] then [] else Keep(es[..|es| - 1], p) + (if Holds(p, es[|es| - 1]) then [es[|es| - 1]] else [])
  }

  /** slices.SortFunc by descending id. */
  function Insert(e: Event, sorted: seq<Event>): seq<Event> {
    if sorted == [] || sorted[0].id <= e.id then [e] + sorted else [sorted[0]] + Insert(e, sorted[1..])
  }

  function SortDesc(es: seq<Event>): seq<Event> {
    if es == [] then [] else Insert(es[0], SortDesc(es[1..]))
  }

  function Take(es: seq<Event>, n: nat): seq<Event> {
    if n < |es| then es[..n] else es
  }

  ghost predicate UniqueIds(es: seq<Event>) {
    forall i, j :: 0 <= i < j < |es| ==> es[i].id != es[j].id
  }

  ghost predicate Descending(es: seq<Event>) {
    forall i, j :: 0 <= i < j < |es| ==> es[i].id > es[j].id
  }

  /** How many events of a list have a larger id. */
  function Larger(es: seq<Event>, id: nat): nat {
    if es == [] then 0 else (if es[0].id > id then 1 else 0) + Larger(es[1..], id)
  }

  lemma {:induction false} InsertFacts(e: Event, sorted: seq<Event>)
    requires Descending(sorted) && forall i :: 0 <= i < |sorted| ==> sorted[i].id != e.id
    ensures Descending(Insert(e, sorted)) && |Insert(e, sorted)| == |sorted| + 1
    ensures forall x :: x in Insert(e, sorted) <==> x == e || x in sorted
    ensures forall id :: Larger(Insert(e, sorted), id) == Larger([e] + sorted, id)
    decreases |sorted|
  {
    if sorted != [] && sorted[0].id > e.id {
      InsertFacts(e, sorted[1..]);
      InsertBehind(e, sorted);
    } else {
      assert Insert(e, sorted) == [e] + sorted;
    }
  }

  lemma {:induction false} InsertBehind(e: Event, sorted: seq<Event>)
    requires sorted != [] && sorted[0].id > e.id && Descending(sorted)
    requires Descending(Insert(e, sorted[1..])) && |Insert(e, sorted[1..])| == |sorted|
    requires forall x :: x in Insert(e, sorted[1..]) <==> x == e || x in sorted[1..]
    requires forall id :: Larger(Insert(e, sorted[1..]), id) == Larger([e] + sorted[1..], id)
    ensures Descending(Insert(e, sorted)) && |Insert(e, sorted)| == |sorted| + 1
    ensures forall x :: x in Insert(e, sorted) <==> x == e || x in sorted
    ensures forall id :: Larger(Insert(e, sorted), id) == Larger([e] + sorted, id)
  {
    var rest := Insert(e, sorted[1..]);
    var all := [sorted[0]] + rest;
    assert Insert(e, sorted) == all;
    hide Insert, Larger, Descending;
    assert sorted == [sorted[0]] + sorted[1..];
    AllSmaller(sorted);
    DescendingBehind(sorted[0], rest);
    forall id ensures Larger(all, id) == Larger([e] + sorted, id) {
      LargerBehind(sorted[0], rest, id);
      LargerBehind(e, sorted, id);
      LargerBehind(e, sorted[1..], id);
      LargerBehind(sorted[0], sorted[1..], id);
    }
  }

  lemma {:induction false} AllSmaller(sorted: seq<Event>)
    requires Descending(sorted) && sorted != []
    ensures forall x :: x in sorted[1..] ==> x.id < sorted[0].id
  {
  }

  lemma {:induction false} DescendingBehind(first: Event, rest: seq<Event>)
    requires Descending(rest) && forall x :: x in rest ==> x.id < first.id
    ensures Descending([first] + rest)
  {
    var all := [first] + rest;
    forall i, j | 0 <= i < j < |all| ensures all[i].id > all[j].id {
      assert all[j] == rest[j - 1] && rest[j - 1] in rest;
    }
  }

  lemma {:induction false} LargerBehind(first: Event, rest: seq<Event>, id: nat)
    ensures Larger([first] + rest, id) == (if first.id > id then 1 else 0) + Larger(rest, id)
  {
    assert ([first] + rest)[1..] == rest;
  }

  lemma {:induction false} SortFacts(es: seq<Event>)
    requires UniqueIds(es)
    ensures Descending(SortDesc(es)) && |SortDesc(es)| == |es|
    ensures forall x :: x in SortDesc(es) <==> x in es
    ensures forall id :: Larger(SortDesc(es), id) == Larger(es, id)
    decreases |es|
  {
    if es != [] {
      var rest := es[1..];
      SortFacts(rest);
      var sorted := SortDesc(rest);
      forall i | 0 <= i < |sorted| ensures sorted[i].id != es[0].id {
        assert sorted[i] in rest;
        var j :| 0 <= j < |rest| && rest[j] == sorted[i];
        assert es[j + 1] == rest[j];
      }
      InsertFacts(es[0], sorted);
      hide Insert;
      assert es == [es[0]] + rest;
      forall id ensures Larger(SortDesc(es), id) == Larger(es, id) {
        assert ([es[0]] + sorted)[1..] == sorted;
      }
    }
  }

  /** In a descending list the number of larger ids is the position. */
  lemma {:induction false} LargerIsPosition(es: seq<Event>, i: nat)
    requires Descending(es) && i < |es|
    ensures Larger(es, es[i].id) == i
    decreases |es|
  {
    if i > 0 {
      LargerIsPosition(es[1..], i - 1);
    } else {
      NoneLarger(es[1..], es[0].id);
    }
  }

  lemma {:induction false} NoneLarger(es: seq<Event>, id: nat)
    requires forall i :: 0 <= i < |es| ==> es[i].id <= id
    ensures Larger(es, id) == 0
    decreases |es|
  {
    if es != [] {
      NoneLarger(es[1..], id);
    }
  }

  lemma {:induction false} KeepFacts(es: seq<Event>, p: Test)
    ensures |Keep(es, p)| <= |es|
    ensures forall x :: x in Keep(es, p) <==> x in es && Holds(p, x)
    ensures UniqueIds(es) ==> UniqueIds(Keep(es, p))
    decreases |es|
  {
    if es != [] {
      var init, last := es[..|es| - 1], es[|es| - 1];
      KeepFacts(init, p);
      assert es == init + [last];
      hide UniqueIds, Holds;
      if UniqueIds(es) {
        UniqueSplit(init, last);
        UniqueSnoc(Keep(init, p), last);
      }
    }
  }

  lemma {:induction false} UniqueSplit(init: seq<Event>, last: Event)
    requires UniqueIds(init + [last])
    ensures UniqueIds(init) && forall x :: x in init ==> x.id != last.id
  {
    var es := init + [last];
    forall i | 0 <= i < |init| ensures init[i].id != last.id {
      assert es[i] == init[i] && es[|init|] == last;
    }
    forall i, j | 0 <= i < j < |init| ensures init[i].id != init[j].id {
      assert es[i] == init[i] && es[j] == init[j];
    }
  }

  lemma {:induction false} UniqueSnoc(init: seq<Event>, last: Event)
    requires UniqueIds(init) && forall x :: x in init ==> x.id != last.id
    ensures UniqueIds(init + [last])
  {
    var es := init + [last];
    forall i, j | 0 <= i < j < |es| ensures es[i].id != es[j].id {
      assert es[i] == init[i] && init[i] in init;
    }
  }

  lemma {:induction false} KeepNext(es: seq<Event>, i: nat, p: Test)
    requires i <= |es|
    ensures Keep([], p) == [] && es[..0] == []
    ensures i < |es| ==> Keep(es[..i + 1], p) == Keep(es[..i], p) + (if Holds(p, es[i]) then [es[i]] else [])
  {
    hide Holds;
    if i < |es| {
      assert es[..i + 1][..i] == es[..i];
    }
  }

  // ---------------------------------------------------------------- the repository

  class MemoryRepo {
    var buf: array<Event>
    var n: nat

    ghost predicate Valid() reads this { n <= buf.Length }

    ghost function Contents(): seq<Event> reads this, buf requires Valid() { buf[..n] }

    constructor ()
      ensures Valid() && Contents() == [] && fresh(buf)
    {
      buf, n := new Event[0], 0;
    }

    /** Create: append, into a larger buffer when the old one is full. */
    method Create(e: Event)
      requires Valid()
      modifies this, buf
      ensures Valid() && Contents() == old(Contents()) + [e] && (buf == old(buf) || fresh(buf))
    {
      if n == buf.Length {
        var larger := new Event[2 * n + 1](
          i requires 0 <= i reads this, buf => if i < n <= buf.Length then buf[i] else e);
        buf := larger;
      } else {
        buf[n] := e;
      }
      n := n + 1;
    }

    /** The compaction both deletions share: kept events move down within the same buffer. */
    method Compact(p: Test) returns (removed: nat)
      requires Valid()
      modifies this`n, buf
      ensures Valid() && buf == old(buf)
      ensures Contents() == Keep(old(Contents()), p)
      ensures removed == |old(Contents())| - |Contents()|
    {
      hide Holds, Keep;
      var kept, i: nat := 0, 0;
      KeepNext(Contents(), 0, p);
      ghost var was := Contents();
      removed := 0;
      while i < n
        invariant 0 <= kept <= i <= n && n == |was| && Valid() && buf == old(buf)
        invariant buf[..kept] == Keep(was[..i], p)
        invariant forall j :: i <= j < n ==> buf[j] == was[j]
        invariant removed == i - kept
      {
        KeepNext(was, i, p);
        var e := buf[i];
        if Holds(p, e) {
          buf[kept] := e;
          kept := kept + 1;
        } else {
          removed := removed + 1;
        }
        i := i + 1;
      }
      assert was[..n] == was;
      n := kept;
    }

    method DeleteOlderThan(cutoff: int) returns (removed: nat)
      requires Valid()
      modifies this`n, buf
      ensures Valid() && buf == old(buf)
      ensures Contents() == Keep(old(Contents()), Recent(cutoff))
      ensures removed == |old(Contents())| - |Contents()|
    {
      removed := Compact(Recent(cutoff));
    }

    method DeleteBeyondCount(keep: nat) returns (removed: nat)
      requires Valid()
      modifies this`n, buf
      ensures Valid() && buf == old(buf)
      ensures Contents() == AfterCount(old(Contents()), keep)
      ensures removed == |old(Contents())| - |Contents()|
    {
      if n <= keep {
        return 0;
      }
      var ordered := SortDesc(buf[..n]);
      SortLength(buf[..n]);
      var keepIds: set<nat> := {};
      for i := 0 to keep
        invariant keepIds == IdsOf(ordered[..i])
      {
        assert ordered[..i + 1] == ordered[..i] + [ordered[i]];
        keepIds := keepIds + {ordered[i].id};
      }
      removed := Compact(IdIn(keepIds));
    }

    method List(f: Filter) returns (out: seq<Event>)
      requires Valid()
      ensures out == ListSpec(Contents(), f)
    {
      out := [];
      for i := 0 to n
        invariant out == Keep(buf[..i], Listed(f))
      {
        assert buf[..i + 1][..i] == buf[..i];
        var e := buf[i];
        if Matches(f, e) && BelowCursor(f.cursor, e.id) {
          out := out + [e];
        }
      }
      out := SortDesc(out);
      if f.limit > 0 && |out| > f.limit {
        out := out[..f.limit];
      }
    }
  }

  ghost function IdsOf(es: seq<Event>): set<nat> {
    set e | e in es :: e.id
  }

  lemma {:induction false} SortLength(es: seq<Event>)
    ensures |SortDesc(es)| == |es|
    decreases |es|
  {
    if es != [] {
      SortLength(es[1..]);
      InsertLength(es[0], SortDesc(es[1..]));
    }
  }

  lemma {:induction false} InsertLength(e: Event, sorted: seq<Event>)
    ensures |Insert(e, sorted)| == |sorted| + 1
    decreases |sorted|
  {
    if sorted != [] && sorted[0].id > e.id {
      InsertLength(e, sorted[1..]);
    }
  }

  ghost function AfterCount(es: seq<Event>, keep: nat): seq<Event> {
    if |es| <= keep then es
    else
      var ids := IdsOf(Take(SortDesc(es), keep));
      Keep(es, IdIn(ids))
  }

  ghost function ListSpec(es: seq<Event>, f: Filter): seq<Event> {
    var sorted := SortDesc(Keep(es, Listed(f)));
    if f.limit > 0 then Take(sorted, f.limit) else sorted
  }

  // ---------------------------------------------------------------- pruning

  datatype Retention = Retention(maxAge: nat, maxEvents: nat)

  ghost function Pruned(es: seq<Event>, r: Retention, now: int): seq<Event> {
    var recent := if r.maxAge > 0 then Keep(es, Recent(now - r.maxAge)) else es;
    if r.maxEvents > 0 then AfterCount(recent, r.maxEvents) else recent
  }

  method Prune(repo: MemoryRepo, r: Retention, now: int) returns (total: nat)
    requires repo.Valid()
    modifies repo`n, repo.buf
    ensures repo.Valid()
    ensures repo.Contents() == Pruned(old(repo.Contents()), r, now)
    ensures total == |old(repo.Contents())| - |repo.Contents()|
  {
    hide AfterCount, Keep;
    total := 0;
    if r.maxAge > 0 {
      var removed := repo.DeleteOlderThan(now - r.maxAge);
      total := total + removed;
    }
    if r.maxEvents > 0 {
      var removed := repo.DeleteBeyondCount(r.maxEvents);
      total := total + removed;
    }
  }

  lemma {:induction false} TopExactly(es: seq<Event>, keep: nat, e: Event)
    requires UniqueIds(es) && e in es
    ensures e.id in IdsOf(Take(SortDesc(es), keep)) <==> Larger(es, e.id) < keep
  {
    SortFacts(es);
    var sorted := SortDesc(es);
    var i: nat :| i < |sorted| && sorted[i] == e;
    LargerIsPosition(sorted, i);
    hide SortDesc, Larger;
    var top := Take(sorted, keep);
    if i < keep {
      assert top[i] == e && e in top;
    }
    forall x | x in top ensures i >= keep ==> x.id != e.id {
      var j :| 0 <= j < |top| && top[j] == x;
      assert i >= keep ==> sorted[j].id > sorted[i].id;
    }
  }

  lemma {:induction false} KeepSame(es: seq<Event>, p: Test, q: Test)
    requires forall e :: e in es ==> Holds(p, e) == Holds(q, e)
    ensures Keep(es, p) == Keep(es, q)
    decreases |es|
  {
    if es != [] {
      KeepSame(es[..|es| - 1], p, q);
    }
  }

  lemma {:induction false} KeepAll(es: seq<Event>, p: Test)
    requires forall e :: e in es ==> Holds(p, e)
    ensures Keep(es, p) == es
    decreases |es|
  {
    if es != [] {
      KeepAll(es[..|es| - 1], p);
    }
  }

  lemma {:induction false} LargerBound(es: seq<Event>, e: Event)
    requires e in es
    ensures Larger(es, e.id) < |es|
    decreases |es|
  {
    if e == es[0] {
      LargerAtMost(es[1..], e.id);
    } else {
      LargerBound(es[1..], e);
    }
  }

  lemma {:induction false} LargerAtMost(es: seq<Event>, id: nat)
    ensures Larger(es, id) <= |es|
    decreases |es|
  {
    if es != [] {
      LargerAtMost(es[1..], id);
    }
  }

  /** Keeping the newest so many by sorting, taking and looking ids up is keeping, in the original
      order, exactly the events with fewer than that many larger ids. */
  lemma {:induction false} CountKeepsLargest(es: seq<Event>, keep: nat)
    requires UniqueIds(es)
    ensures AfterCount(es, keep) == Keep(es, AmongLargest(es, keep))
  {
    if |es| <= keep {
      forall e | e in es ensures Larger(es, e.id) < keep { LargerBound(es, e); }
      KeepAll(es, AmongLargest(es, keep));
    } else {
      var ids := IdsOf(Take(SortDesc(es), keep));
      forall e | e in es ensures e.id in ids <==> Larger(es, e.id) < keep { TopExactly(es, keep, e); }
      KeepSame(es, IdIn(ids), AmongLargest(es, keep));
    }
  }

  /** Pruning leaves, in the original order, exactly the events that are recent enough and among
      the largest ids of those. */
  lemma {:induction false} PruneKeepsExactly(es: seq<Event>, r: Retention, now: int)
    requires UniqueIds(es)
    ensures var recent := if r.maxAge > 0 then Keep(es, Recent(now - r.maxAge)) else es;
            && Pruned(es, r, now) ==
               (if r.maxEvents > 0 then Keep(recent, AmongLargest(recent, r.maxEvents)) else recent)
            && forall e :: e in Pruned(es, r, now) <==>
                 && e in es && (r.maxAge > 0 ==> e.at >= now - r.maxAge)
                 && (r.maxEvents > 0 ==> Larger(recent, e.id) < r.maxEvents)
  {
    hide Keep, Larger, AfterCount, UniqueIds;
    var recent := if r.maxAge > 0 then Keep(es, Recent(now - r.maxAge)) else es;
    KeepFacts(es, Recent(now - r.maxAge));
    CountKeepsLargest(recent, r.maxEvents);
    KeepFacts(recent, AmongLargest(recent, r.maxEvents));
  }

  // ---------------------------------------------------------------- pages

  /** handleListEvents: a full page names its last event as the next cursor. */
  function NextCursor(items: seq<Event>, limit: nat): Option<nat> {
    if |items| == limit && |items| > 0 then Some(items[|items| - 1].id) else None
  }

  /** The repository over time: what the i-th page request sees, with a mark no smaller than any
      id assigned by then. Between requests events are only pruned, or recorded with ids above the
      mark. */
  ghost predicate Evolves(world: nat -> seq<Event>, mark: nat -> nat) {
    forall i: nat :: Evolved(world(i), mark(i), world(i + 1), mark(i + 1))
  }

  ghost predicate Evolved(es: seq<Event>, mark: nat, es': seq<Event>, mark': nat) {
    && UniqueIds(es) && mark <= mark'
    && (forall e :: e in es ==> e.id <= mark)
    && (forall e :: e in es' ==> e in es || e.id > mark)
  }

  /** What a listing asks of an event, field by field: each one that is given must be the event's, the
      time between the bounds with the first included and the second not, the id below the cursor. */
  lemma {:induction false} ListedMeans(f: Filter, e: Event)
    ensures Holds(Listed(f), e) <==>
            && (f.actor.Some? ==> e.actor == f.actor.value)
            && (f.action.Some? ==> e.action == f.action.value)
            && (f.resourceType.Some? ==> e.resourceType == f.resourceType.value)
            && (f.resourceId.Some? ==> e.resourceId == f.resourceId.value)
            && (f.since.Some? ==> f.since.value <= e.at) && (f.until.Some? ==> e.at < f.until.value)
            && (f.cursor.Some? ==> e.id < f.cursor.value)
  {
  }

  /** Recording an event with a fresh id above the mark, and pruning, are such changes. */
  lemma {:induction false} RecordAndPruneEvolve(es: seq<Event>, mark: nat, e: Event, r: Retention, now: int)
    requires UniqueIds(es) && (forall x :: x in es ==> x.id <= mark) && e.id > mark
    ensures Evolved(es, mark, es + [e], e.id) && Evolved(es, mark, Pruned(es, r, now), mark)
    ensures UniqueIds(es + [e]) && UniqueIds(Pruned(es, r, now))
  {
    hide Larger, Holds, SortDesc, Take;
    var recent := if r.maxAge > 0 then Keep(es, Recent(now - r.maxAge)) else es;
    KeepFacts(es, Recent(now - r.maxAge));
    KeepFacts(recent, IdIn(IdsOf(Take(SortDesc(recent), r.maxEvents))));
    hide Keep;
    var more := es + [e];
    forall i, j | 0 <= i < j < |more| ensures more[i].id != more[j].id {
      assert more[i] in es;
    }
  }

  /** A page: descending, below the cursor, and complete down to its last event, or altogether
      when it is not full or no limit is set. */
  lemma {:induction false} PageFacts(es: seq<Event>, f: Filter)
    requires UniqueIds(es)
    ensures var items := ListSpec(es, f);
            && Descending(items) && (f.limit > 0 ==> |items| <= f.limit)
            && (forall e :: e in items ==> e in es && Holds(Listed(f), e))
            && (forall e :: e in es && Holds(Listed(f), e) ==>
                  e in items || (|items| == f.limit && f.limit > 0 && e.id < items[|items| - 1].id))
  {
    hide Matches, Larger;
    var listed := Keep(es, Listed(f));
    KeepFacts(es, Listed(f));
    SortFacts(listed);
    hide Keep, SortDesc, Holds;
    var sorted := SortDesc(listed);
    if f.limit > 0 { TakeDescending(sorted, f.limit); }
  }

  lemma {:induction false} TakeDescending(sorted: seq<Event>, limit: nat)
    requires Descending(sorted) && limit > 0
    ensures Descending(Take(sorted, limit)) && |Take(sorted, limit)| <= limit
    ensures forall e :: e in Take(sorted, limit) ==> e in sorted
    ensures forall e :: e in sorted ==>
              e in Take(sorted, limit) || (|Take(sorted, limit)| == limit && e.id < Take(sorted, limit)[limit - 1].id)
  {
    var top := Take(sorted, limit);
    forall e | e in sorted ensures e in top || (|top| == limit && e.id < top[limit - 1].id) {
      var i :| 0 <= i < |sorted| && sorted[i] == e;
      if i < |top| { assert top[i] == e; } else { assert sorted[i].id < sorted[limit - 1].id; }
    }
  }

  ghost function IdsBelow(es: seq<Event>, cursor: Option<nat>): set<nat> {
    set e | e in es && BelowCursor(cursor, e.id) :: e.id
  }

  /** What the pages so far have given, when the next one asks below a cursor. */
  ghost predicate PagesOk(world: nat -> seq<Event>, f: Filter, pages: nat, cursor: Option<nat>, yielded: seq<Event>) {
    && Descending(yielded)
    && (pages == 0 ==> cursor == f.cursor && yielded == [])
    && (pages > 0 ==> cursor.Some? && BelowCursor(f.cursor, cursor.value))
    && (forall e :: e in yielded ==> Genuine(world, f, pages, e) && !BelowCursor(cursor, e.id))
    && (forall e :: Throughout(world, pages, e) && Holds(Listed(f), e) && !BelowCursor(cursor, e.id) ==> e in yielded)
  }

  /** An event that some page saw and the filter asks for. */
  ghost predicate Genuine(world: nat -> seq<Event>, f: Filter, pages: nat, e: Event) {
    Holds(Listed(f), e) && exists i :: 0 <= i < pages && e in world(i)
  }

  ghost predicate Throughout(world: nat -> seq<Event>, pages: nat, e: Event) {
    forall i :: 0 <= i < pages ==> e in world(i)
  }

  /** The client's loop. With a page size of at least one it ends, and yields in strictly
      descending order of ids only events it was shown, among them every event the filter asks
      for that is present at every page: exactly once, since ids differ. */
  method Paginate(world: nat -> seq<Event>, ghost mark: nat -> nat, f: Filter)
    returns (yielded: seq<Event>, pages: nat)
    requires Evolves(world, mark) && f.limit > 0
    ensures pages > 0 && Descending(yielded)
    ensures forall e :: e in yielded ==> Genuine(world, f, pages, e)
    ensures forall e :: Throughout(world, pages, e) && Holds(Listed(f), e) ==> e in yielded
  {
    hide *;
    yielded, pages := [], 0;
    var cursor := f.cursor;
    PagesStart(world, f);
    while true
      invariant PagesOk(world, f, pages, cursor, yielded)
      decreases IdsBelow(world(pages), cursor)
    {
      var items := ListPage(world(pages), f.(cursor := cursor));
      ghost var before := yielded;
      yielded := yielded + items;
      var next := NextCursor(items, f.limit);
      EvolvesAt(world, mark, pages);
      NextPage(world, f, pages, cursor, before, items);
      if next == None || next == cursor {
        pages := pages + 1;
        return;
      }
      FewerBelow(world, mark, f, pages, cursor, items);
      pages := pages + 1;
      cursor := next;
    }
  }

  method ListPage(es: seq<Event>, f: Filter) returns (items: seq<Event>)
    ensures items == ListSpec(es, f)
  {
    var sorted := SortDesc(Keep(es, Listed(f)));
    items := if f.limit > 0 then Take(sorted, f.limit) else sorted;
  }

  lemma {:induction false} PagesStart(world: nat -> seq<Event>, f: Filter)
    ensures PagesOk(world, f, 0, f.cursor, [])
  {
    hide Matches;
  }

  lemma {:induction false} EvolvesAt(world: nat -> seq<Event>, mark: nat -> nat, i: nat)
    requires Evolves(world, mark)
    ensures Evolved(world(i), mark(i), world(i + 1), mark(i + 1)) && UniqueIds(world(i))
  {
    assert Evolved(world(i), mark(i), world(i + 1), mark(i + 1));
  }

  lemma {:induction false} ListedBelow(f: Filter, cursor: Option<nat>, e: Event)
    requires cursor == f.cursor || (cursor.Some? && BelowCursor(f.cursor, cursor.value))
    ensures Holds(Listed(f.(cursor := cursor)), e) <==> Holds(Listed(f), e) && BelowCursor(cursor, e.id)
  {
  }

  /** One page more. */
  lemma {:induction false} NextPage(
      world: nat -> seq<Event>, f: Filter, pages: nat, cursor: Option<nat>, before: seq<Event>, items: seq<Event>)
    requires PagesOk(world, f, pages, cursor, before) && UniqueIds(world(pages)) && f.limit > 0
    requires items == ListSpec(world(pages), f.(cursor := cursor))
    ensures var next := NextCursor(items, f.limit);
            if next.Some? then next != cursor && PagesOk(world, f, pages + 1, next, before + items)
            else
              && Descending(before + items)
              && (forall e :: e in before + items ==> Genuine(world, f, pages + 1, e))
              && (forall e :: Throughout(world, pages + 1, e) && Holds(Listed(f), e) ==> e in before + items)
  {
    PageFacts(world(pages), f.(cursor := cursor));
    hide ListSpec, UniqueIds, Matches, Holds;
    forall e ensures Holds(Listed(f.(cursor := cursor)), e) <==> Holds(Listed(f), e) && BelowCursor(cursor, e.id) {
      ListedBelow(f, cursor, e);
    }
    PagesDescend(before, items, cursor);
    forall e | e in before + items ensures Genuine(world, f, pages + 1, e) {
      if e in items { assert e in world(pages); } else { assert Genuine(world, f, pages, e); }
    }
    forall e | Throughout(world, pages + 1, e) && Holds(Listed(f), e)
      ensures e in before + items || (items != [] && |items| == f.limit && e.id < items[|items| - 1].id)
    {
      assert e in world(pages) && Throughout(world, pages, e);
    }
    if items != [] {
      var last := items[|items| - 1];
      assert last in items && Holds(Listed(f.(cursor := cursor)), last);
      BelowBoth(f, last);
      LastIsLeast(before, items, cursor);
    }
  }

  lemma {:induction false} LastIsLeast(before: seq<Event>, items: seq<Event>, cursor: Option<nat>)
    requires Descending(items) && items != []
    requires forall e :: e in before ==> !BelowCursor(cursor, e.id)
    requires forall e :: e in items ==> BelowCursor(cursor, e.id)
    ensures forall e :: e in before + items ==> e.id >= items[|items| - 1].id
  {
    assert items[|items| - 1] in items;
  }

  lemma {:induction false} BelowBoth(f: Filter, e: Event)
    requires Holds(Listed(f), e)
    ensures BelowCursor(f.cursor, e.id)
  {
  }

  lemma {:induction false} PagesDescend(before: seq<Event>, items: seq<Event>, cursor: Option<nat>)
    requires Descending(before) && Descending(items)
    requires forall e :: e in before ==> !BelowCursor(cursor, e.id)
    requires forall e :: e in items ==> BelowCursor(cursor, e.id)
    ensures Descending(before + items)
  {
    var all := before + items;
    forall i, j | 0 <= i < j < |all| ensures all[i].id > all[j].id {
      if i < |before| <= j {
        assert before[i] in before && items[j - |before|] in items;
      }
    }
  }

  /** The pages are finitely many: fewer ids are left below each cursor, whatever was recorded or
      pruned in between. */
  lemma {:induction false} FewerBelow(
      world: nat -> seq<Event>, mark: nat -> nat, f: Filter, pages: nat, cursor: Option<nat>, items: seq<Event>)
    requires Evolved(world(pages), mark(pages), world(pages + 1), mark(pages + 1)) && f.limit > 0
    requires items == ListSpec(world(pages), f.(cursor := cursor)) && NextCursor(items, f.limit).Some?
    ensures IdsBelow(world(pages + 1), NextCursor(items, f.limit)) < IdsBelow(world(pages), cursor)
  {
    PageFacts(world(pages), f.(cursor := cursor));
    hide ListSpec, UniqueIds, Matches;
    var last := items[|items| - 1];
    assert last in items && last in world(pages) && BelowCursor(cursor, last.id);
    var now, later := IdsBelow(world(pages), cursor), IdsBelow(world(pages + 1), Some(last.id));
    assert last.id in now && last.id !in later;
    forall id | id in later ensures id in now {
      var e :| e in world(pages + 1) && BelowCursor(Some(last.id), e.id) && e.id == id;
      assert last.id <= mark(pages);
      assert e in world(pages);
    }
  }
}
