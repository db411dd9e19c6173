/** Unpacking a downloaded archive (cmd/orcal/cp_cmd.go extractArchive, stripFirstComponent,
    extractEntry). Each header passes the check of internal/files/validate.go SanitizeEntry, which
    reads names and link targets as text; unpacking follows the symbolic links that are there, among
    them those that earlier entries have made. Paths are told from the directory that holds the
    destination, so they start with the destination's own name. */
module Extraction {
  import opened Wrappers
  import opened Paths
  import opened Archive

  /** Where a walk ends: at a path, further up than the destination's parent, or nowhere because it
      met more links than the system follows. */
  datatype Place = At(path: seq<string>) | Above | TooManyLinks

  type Links = map<seq<string>, seq<string>>

  /** Path resolution: names descend, dots stay, double dots climb, and a link is replaced by its
      target, resolved from where the link is. */
  function Walk(links: Links, dir: seq<string>, cs: seq<string>, budget: nat): Place
    decreases budget, |cs|
  {
    if cs == [] then At(dir)
    else if cs[0] == "" || cs[0] == DOT then Walk(links, dir, cs[1..], budget)
    else if cs[0] == DOTDOT then if dir == [] then Above else Walk(links, dir[..|dir| - 1], cs[1..], budget)
    else if dir + [cs[0]] !in links then Walk(links, dir + [cs[0]], cs[1..], budget)
    else if budget == 0 then TooManyLinks
    else Walk(links, dir, links[dir + [cs[0]]] + cs[1..], budget - 1)
  }

  ghost predicate LinkFree(links: Links, path: seq<string>) {
    forall k :: 0 < k <= |path| ==> path[..k] !in links
  }

  /** A walk ends at a real directory: no part of the way to it is a link. */
  lemma {:induction false} WalkIsLinkFree(links: Links, dir: seq<string>, cs: seq<string>, budget: nat)
    requires LinkFree(links, dir)
    ensures var place := Walk(links, dir, cs, budget); place.At? ==> LinkFree(links, place.path)
    decreases budget, |cs|
  {
    hide LinkFree;
    if cs == [] {
    } else if cs[0] == "" || cs[0] == DOT {
      WalkIsLinkFree(links, dir, cs[1..], budget);
    } else if cs[0] == DOTDOT {
      if dir != [] {
        UpIsLinkFree(links, dir);
        WalkIsLinkFree(links, dir[..|dir| - 1], cs[1..], budget);
      }
    } else if dir + [cs[0]] !in links {
      DownIsLinkFree(links, dir, cs[0]);
      WalkIsLinkFree(links, dir + [cs[0]], cs[1..], budget);
    } else if budget > 0 {
      WalkIsLinkFree(links, dir, links[dir + [cs[0]]] + cs[1..], budget - 1);
    }
  }

  lemma {:induction false} UpIsLinkFree(links: Links, dir: seq<string>)
    requires LinkFree(links, dir) && dir != []
    ensures LinkFree(links, dir[..|dir| - 1])
  {
    var up := dir[..|dir| - 1];
    forall k | 0 < k <= |up| ensures up[..k] !in links {
      assert up[..k] == dir[..k];
    }
  }

  lemma {:induction false} DownIsLinkFree(links: Links, dir: seq<string>, c: string)
    requires LinkFree(links, dir) && dir + [c] !in links
    ensures LinkFree(links, dir + [c])
  {
    forall k | 0 < k <= |dir| + 1 ensures (dir + [c])[..k] !in links {
      if k <= |dir| {
        assert (dir + [c])[..k] == dir[..k];
      } else {
        assert (dir + [c])[..k] == dir + [c];
      }
    }
  }

  /** Without links on the way a path of plain names leads where it says. */
  lemma {:induction false} WalkPlain(links: Links, path: seq<string>, k: nat, budget: nat)
    requires NormalOk(true, path) && LinkFree(links, path) && k <= |path|
    ensures Walk(links, path[..k], path[k..], budget) == At(path)
    decreases |path| - k
  {
    if k < |path| {
      assert Name(path[k]);
      assert path[k..][0] == path[k] && path[k..][1..] == path[k + 1..] && path[..k] + [path[k]] == path[..k + 1];
      WalkPlain(links, path, k + 1, budget);
    } else {
      assert path[..k] == path;
    }
  }

  lemma {:induction false} NothingIsLinkFree(links: Links)
    ensures LinkFree(links, [])
  {
  }

  /** So a walk ends where its path says if and only if no part of that path is a link. */
  lemma {:induction false} WalksAsNamedExactly(links: Links, path: seq<string>, budget: nat)
    requires NormalOk(true, path)
    ensures Walk(links, [], path, budget) == At(path) <==> LinkFree(links, path)
  {
    hide Walk, LinkFree, NormalOk;
    NothingIsLinkFree(links);
    WalkIsLinkFree(links, [], path, budget);
    if LinkFree(links, path) {
      WalkPlain(links, path, 0, budget);
      assert path[..0] == [] && path[0..] == path;
    }
  }

  /** Where nothing is a link, walking down a list of components ends at its normal form, or climbs
      above the top exactly if it leads outside. */
  lemma {:induction false} WalkIsNormal(cs: seq<string>, budget: nat)
    ensures Walk(map[], [], cs, budget) == if Escapes(cs) then Above else At(Normal(false, cs))
  {
    hide Escapes, Walk, PushAll;
    EscapesExactly(cs);
    WalkPushes([], cs, budget);
  }

  lemma {:induction false} WalkPushes(dir: seq<string>, cs: seq<string>, budget: nat)
    requires DOTDOT !in dir
    ensures var out := PushAll(false, dir, cs);
            Walk(map[], dir, cs, budget) == if out != [] && out[0] == DOTDOT then Above else At(out)
    decreases |cs|
  {
    if cs != [] {
      var next := Push(false, dir, cs[0]);
      if cs[0] == DOTDOT && dir == [] {
        LeadStays([DOTDOT], cs[1..]);
        assert next == [DOTDOT];
      } else {
        assert DOTDOT !in next;
        WalkPushes(next, cs[1..], budget);
      }
    }
  }

  lemma {:induction false} LeadStays(out: seq<string>, cs: seq<string>)
    requires out != [] && out[0] == DOTDOT
    ensures PushAll(false, out, cs) != [] && PushAll(false, out, cs)[0] == DOTDOT
    decreases |cs|
  {
    if cs != [] {
      LeadStays(Push(false, out, cs[0]), cs[1..]);
    }
  }

  // ---------------------------------------------------------------- names

  function Components(h: Header): seq<string> {
    Normal(false, Split(h.name))
  }

  function Stripped(name: seq<string>): seq<string> {
    if name == [] then [] else name[1..]
  }

  /** stripFirstComponent. */
  function StripFirst(name: string): string {
    var trimmed := if name != "" && name[|name| - 1] == '/' then name[..|name| - 1] else name;
    var i := FirstSlash(trimmed, 0);
    if i == |trimmed| then "" else trimmed[i + 1..]
  }

  /** On a name as the check leaves it, that drops the first component. */
  lemma {:induction false} StripFirstDropsOne(out: seq<string>, slash: bool)
    requires NormalOk(false, out)
    ensures StripFirst(Render(false, out) + if slash then "/" else "") == Join(Stripped(out))
  {
    var r := Render(false, out);
    hide Join;
    LastIsNoSlash(out);
    assert (r + "/")[..|r|] == r && r + "" == r;
    if |out| > 1 {
      assert Name(out[0]);
      JoinFirst(out);
      FirstSlashIs(r, |out[0]|);
      assert r[|out[0]| + 1..] == Join(out[1..]);
    } else {
      NoSlash(out);
    }
  }

  lemma {:induction false} JoinFirst(out: seq<string>)
    requires |out| > 1
    ensures Join(out) == out[0] + "/" + Join(out[1..])
  {
  }

  lemma {:induction false} NoSlash(out: seq<string>)
    requires NormalOk(false, out) && |out| <= 1
    ensures FirstSlash(Render(false, out), 0) == |Render(false, out)| && Join(Stripped(out)) == ""
  {
    if out != [] { assert Name(out[0]); }
  }

  lemma {:induction false} LastIsNoSlash(out: seq<string>)
    requires NormalOk(false, out)
    ensures var r := Render(false, out); r != "" && r[|r| - 1] != '/'
  {
    if out != [] { LastOfJoin(out); }
  }

  lemma {:induction false} LastOfJoin(out: seq<string>)
    requires NormalOk(false, out) && out != []
    ensures Join(out) != "" && Join(out)[|Join(out)| - 1] != '/'
    decreases |out|
  {
    assert Name(out[|out| - 1]);
    if |out| > 1 {
      JoinLast(out);
    }
  }

  /** The destination an archive is unpacked into: its own name, whether the first component of each
      entry's name is dropped, and how many links the system follows. */
  datatype Target = Target(root: string, strip: bool, budget: nat) {
    ghost predicate Valid() { Name(root) && root != DOTDOT }

    /** The path an entry's name says. */
    function Path(h: Header): seq<string> {
      [root] + if strip then Stripped(Components(h)) else Components(h)
    }

    /** The part of it that unpacking resolves: all of it for a directory or a regular file, which
        are opened there; the directory it is made in for a link, which replaces what is there. */
    function Reach(h: Header): seq<string> {
      if h.kind == Symlink || h.kind == HardLink then Parent(Path(h)) else Path(h)
    }

    /** The path a hard link's target says: never stripped. */
    function OldPath(h: Header): seq<string> {
      [root] + Normal(false, Split(h.link))
    }
  }

  // ---------------------------------------------------------------- unpacking

  function Last(path: seq<string>): seq<string> {
    if path == [] then [] else [path[|path| - 1]]
  }

  /** The links once an entry has been made at a path: a hard link to a symbolic link is that
      symbolic link again; its target is looked up when the path has been cleared. */
  function Made(t: Target, links: Links, h: Header, at: seq<string>): Links {
    match h.kind
    case Symlink => links[at := Split(h.link)]
    case HardLink =>
      var cleared := links - {at};
      (match Walk(cleared, [], Parent(t.OldPath(h)), t.budget)
       case At(dir) =>
         var source := dir + Last(t.OldPath(h));
         if source in cleared then cleared[at := cleared[source]] else cleared
       case _ => cleared)
    case _ => links
  }

  /** Unpacking one entry: it is made where the walk of its name leads. */
  function Unpacked(t: Target, links: Links, h: Header): Links {
    match Walk(links, [], t.Reach(h), t.budget)
    case At(dir) => Made(t, links, h, dir + Last(t.Path(h)))
    case _ => links
  }

  /** The links after unpacking some entries into a destination that held some already. */
  function LinksAfter(t: Target, start: Links, es: seq<Entry>): Links {
    if es == [] then start else
      Unpacked(t, LinksAfter(t, start, es[..|es| - 1]), es[|es| - 1].header)
  }

  /** The same read off the headers: each entry is made where its name says. */
  function NamedLinks(t: Target, start: Links, es: seq<Entry>): Links {
    if es == [] then start
    else
      var links, h := NamedLinks(t, start, es[..|es| - 1]), es[|es| - 1].header;
      Made(t, links, h, t.Path(h))
  }

  /** The local directory an archive is unpacked into, as far as links go. */
  class Destination {
    const t: Target
    var links: Links

    constructor (t: Target, start: Links)
      ensures this.t == t && links == start
    {
      this.t, links := t, start;
    }

    /** extractEntry, for a header that has passed the check: the name is stripped as a string. */
    method ExtractEntry(h: Header)
      requires Sanitized(h) == Some(h)
      modifies this
      ensures links == Unpacked(t, old(links), h)
    {
      hide Walk, Made, Split, Normal, Sanitized;
      var name := if t.strip then StripFirst(h.name) else h.name;
      var path := [t.root] + Normal(false, Split(name));
      PathOfString(t, h);
      var reach := if h.kind == Symlink || h.kind == HardLink then Parent(path) else path;
      var place := Walk(links, [], reach, t.budget);
      match place
      case At(dir) => links := Made(t, links, h, dir + Last(path));
      case _ =>
    }

    /** extractArchive: each header is checked, then its entry unpacked. It ends at the first refused
        header, or where an entry cannot be written; n counts the entries unpacked. */
    method ExtractArchive(es: seq<Entry>, writable: nat) returns (ok: bool, n: nat)
      modifies this
      ensures n <= |es| && AllInside(es[..n]) && links == LinksAfter(t, old(links), es[..n])
      ensures ok <==> AllInside(es) && |es| <= writable
      ensures ok ==> n == |es|
    {
      hide LinksAfter, Unpacked, Sanitized;
      n := 0;
      LinksNone(t, links);
      while n < |es|
        invariant n <= |es| && n <= writable && AllInside(es[..n]) && links == LinksAfter(t, old(links), es[..n])
      {
        var header := new TarHeader(es[n].header);
        var inside := header.Sanitize();
        if !inside {
          return false, n;
        }
        if n >= writable {
          return false, n;
        }
        OneMoreUnpacked(t, old(links), es, n);
        ExtractEntry(header.v);
        n := n + 1;
      }
      assert es[..n] == es;
      ok := true;
    }
  }

  lemma {:induction false} LinksNone(t: Target, start: Links)
    ensures LinksAfter(t, start, []) == start
  {
  }

  /** Unpacking goes by what the check leaves of a header, which says the same path. */
  lemma {:induction false} SameUnpacked(t: Target, links: Links, h: Header)
    requires Sanitized(h).Some?
    ensures Unpacked(t, links, Sanitized(h).value) == Unpacked(t, links, h)
  {
    hide *;
    CheckedSaysTheSame(h);
    SamePaths(t, Sanitized(h).value, h);
    SameMade(t, links, Sanitized(h).value, h);
  }

  lemma {:induction false} CheckedSaysTheSame(h: Header)
    requires Sanitized(h).Some?
    ensures var s := Sanitized(h).value;
            Sanitized(s) == Some(s) && Components(s) == Components(h) && s.kind == h.kind && s.link == h.link
  {
    SanitizeIsIdempotent(h);
    hide Split, Normal, Sanitized;
  }

  lemma {:induction false} SameMade(t: Target, links: Links, s: Header, h: Header)
    requires t.Path(s) == t.Path(h) && t.Reach(s) == t.Reach(h) && t.OldPath(s) == t.OldPath(h)
    requires s.kind == h.kind && s.link == h.link
    ensures Unpacked(t, links, s) == Unpacked(t, links, h)
  {
    hide Walk, Split, Last, Target.Path, Target.Reach, Target.OldPath;
  }

  lemma {:induction false} SamePaths(t: Target, s: Header, h: Header)
    requires Components(s) == Components(h) && s.kind == h.kind && s.link == h.link
    ensures t.Path(s) == t.Path(h) && t.Reach(s) == t.Reach(h) && t.OldPath(s) == t.OldPath(h)
  {
    hide Components, Split, Normal;
  }

  /** One entry more. */
  lemma {:induction false} OneMoreUnpacked(t: Target, start: Links, es: seq<Entry>, n: nat)
    requires n < |es| && AllInside(es[..n]) && Sanitized(es[n].header).Some?
    ensures var checked := Sanitized(es[n].header).value;
            && Sanitized(checked) == Some(checked) && AllInside(es[..n + 1])
            && LinksAfter(t, start, es[..n + 1]) == Unpacked(t, LinksAfter(t, start, es[..n]), checked)
  {
    hide *;
    CheckedSaysTheSame(es[n].header);
    SameUnpacked(t, LinksAfter(t, start, es[..n]), es[n].header);
    InsideNext(es, n);
    LinksNext(t, start, es[..n], es[n]);
  }

  lemma {:induction false} InsideNext(es: seq<Entry>, n: nat)
    requires n < |es| && AllInside(es[..n]) && Sanitized(es[n].header).Some?
    ensures es[..n + 1] == es[..n] + [es[n]] && AllInside(es[..n + 1])
  {
    hide Sanitized;
    var more := es[..n + 1];
    forall i | 0 <= i < |more| ensures Sanitized(more[i].header).Some? {
      if i < n { assert more[i] == es[..n][i]; }
    }
  }

  /** The path of the string name is the path its components say. */
  lemma {:induction false} PathOfString(t: Target, h: Header)
    requires Sanitized(h) == Some(h)
    ensures t.Path(h) == [t.root] + Normal(false, Split(if t.strip then StripFirst(h.name) else h.name))
  {
    hide Split, Normal, NormalOk, StripFirst;
    var out := Components(h);
    NormalIsNormal(false, Split(h.name));
    CheckedName(h);
    StripFirstDropsOne(out, h.kind == Directory);
    TailIsNormal(out);
    NamesOfJoin(Stripped(out));
  }

  /** A header the check has rewritten bears its cleaned name, with a slash behind a directory's. */
  lemma {:induction false} CheckedName(h: Header)
    requires Sanitized(h) == Some(h)
    ensures h.name == Render(false, Components(h)) + if h.kind == Directory then "/" else ""
  {
    hide Split, Normal;
  }

  lemma {:induction false} TailIsNormal(out: seq<string>)
    requires NormalOk(false, out)
    ensures NormalOk(false, Stripped(out))
  {
    hide Name;
    var tail := Stripped(out);
    forall i | 0 < i < |tail| && tail[i] == DOTDOT ensures tail[i - 1] == DOTDOT {
      assert out[i + 1] == tail[i] && out[i + 1 - 1] == tail[i - 1];
    }
  }

  lemma {:induction false} NamesOfJoin(out: seq<string>)
    requires NormalOk(false, out)
    ensures Normal(false, Split(Join(out))) == out
  {
    hide Split, NormalOk;
    if out == [] {
      SplitOne("", "");
      OneEmptyRelative();
    } else {
      NormalOfRendered(out, []);
      PushNothing(false, out);
      assert Split(Join(out)) + [] == Split(Join(out));
    }
  }

  ghost predicate LandsAsNamed(t: Target, links: Links, h: Header) {
    Walk(links, [], t.Reach(h), t.budget) == At(t.Reach(h))
  }

  /** Each entry is made where its name says: at its own path below the destination. */
  ghost predicate AllLandAsNamed(t: Target, start: Links, es: seq<Entry>) {
    forall i :: 0 <= i < |es| ==> LandsAsNamed(t, LinksAfter(t, start, es[..i]), es[i].header)
  }

  /** No name passes through a link that was there or that an earlier entry has made at its name. */
  ghost predicate NamesAvoidLinks(t: Target, start: Links, es: seq<Entry>) {
    forall i :: 0 <= i < |es| ==> LinkFree(NamedLinks(t, start, es[..i]), t.Reach(es[i].header))
  }

  /** An accepted name has no parent components, so neither has the path it says. */
  lemma {:induction false} AcceptedIsPlain(t: Target, h: Header)
    requires t.Valid() && Sanitized(h).Some?
    ensures NormalOk(true, t.Path(h)) && NormalOk(true, t.Reach(h))
  {
    AcceptedInNormal(h);
    NormalIsNormal(false, Split(h.name));
    hide Split, Normal, Name, Sanitized, StaysInNormal;
    assert !LeadsUp(Split(h.name)) by { InsideName(h); }
    NoneClimbs(Components(h), |Components(h)|);
    NormalOnTop(t.root, Components(h));
    NormalOnTop(t.root, Stripped(Components(h)));
  }

  lemma {:induction false} InsideName(h: Header)
    requires StaysInNormal(h)
    ensures !LeadsUp(Split(h.name))
  {
  }

  lemma {:induction false} NormalOnTop(root: string, name: seq<string>)
    requires Name(root) && root != DOTDOT
    requires forall i :: 0 <= i < |name| ==> Name(name[i]) && name[i] != DOTDOT
    ensures NormalOk(true, [root] + name) && NormalOk(true, Parent([root] + name))
  {
    hide Name;
    var path := [root] + name;
    forall i | 0 <= i < |path| ensures Name(path[i]) && path[i] != DOTDOT {
      if i > 0 { assert path[i] == name[i - 1]; }
    }
  }

  lemma {:induction false} NoneClimbs(out: seq<string>, k: nat)
    requires NormalOk(false, out) && (out != [] ==> out[0] != DOTDOT) && k <= |out|
    ensures forall i :: 0 <= i < k ==> out[i] != DOTDOT
    decreases k
  {
    hide Name;
    if k > 0 {
      assert k > 1 ==> out[k - 1] == DOTDOT ==> out[k - 1 - 1] == DOTDOT;
      NoneClimbs(out, k - 1);
    }
  }

  lemma {:induction false} UnpackedAsNamed(t: Target, links: Links, h: Header)
    requires LandsAsNamed(t, links, h)
    ensures Unpacked(t, links, h) == Made(t, links, h, t.Path(h))
  {
    hide Walk, Made, Target.Path, Target.Reach, Last;
    if h.kind == Symlink || h.kind == HardLink {
      ReachAndLast(t, h);
    } else {
      OnlyLinksMakeLinks(t, links, h, t.Reach(h) + Last(t.Path(h)), t.Path(h));
    }
  }

  lemma {:induction false} ReachAndLast(t: Target, h: Header)
    requires h.kind == Symlink || h.kind == HardLink
    ensures t.Reach(h) + Last(t.Path(h)) == t.Path(h)
  {
    hide Components, Stripped;
  }

  lemma {:induction false} OnlyLinksMakeLinks(t: Target, links: Links, h: Header, at: seq<string>, to: seq<string>)
    requires h.kind != Symlink && h.kind != HardLink
    ensures Made(t, links, h, at) == Made(t, links, h, to)
  {
    hide Walk;
  }

  /** While entries land as named, the links are those the headers say. */
  lemma {:induction false} LinksAsNamed(t: Target, start: Links, es: seq<Entry>)
    requires AllLandAsNamed(t, start, es)
    ensures LinksAfter(t, start, es) == NamedLinks(t, start, es)
    decreases |es|
  {
    hide Unpacked, Made, LandsAsNamed;
    if es != [] {
      var n := |es| - 1;
      LandsBefore(t, start, es, n);
      LinksAsNamed(t, start, es[..n]);
      UnpackedAsNamed(t, LinksAfter(t, start, es[..n]), es[n].header);
    }
  }

  lemma {:induction false} LandsBefore(t: Target, start: Links, es: seq<Entry>, n: nat)
    requires AllLandAsNamed(t, start, es) && n <= |es|
    ensures AllLandAsNamed(t, start, es[..n])
  {
    hide LandsAsNamed, LinksAfter;
    var before := es[..n];
    forall i | 0 <= i < |before| ensures LandsAsNamed(t, LinksAfter(t, start, before[..i]), before[i].header) {
      assert before[..i] == es[..i];
    }
  }

  /** The exact condition, for any entries that have been accepted and unpacked: each landed where its
      name says if and only if no name passes through a link that was there before or that the
      headers before it make. */
  lemma {:induction false} LandsAsNamedExactly(t: Target, start: Links, es: seq<Entry>)
    requires t.Valid() && AllInside(es)
    ensures AllLandAsNamed(t, start, es) <==> NamesAvoidLinks(t, start, es)
  {
    if AllLandAsNamed(t, start, es) {
      hide LinksAfter, NamedLinks, Sanitized, LinkFree;
      forall i | 0 <= i < |es| ensures LinkFree(NamedLinks(t, start, es[..i]), t.Reach(es[i].header)) {
        LandsBefore(t, start, es, i);
        LinksAsNamed(t, start, es[..i]);
        assert LandsAsNamed(t, LinksAfter(t, start, es[..i]), es[i].header) && Sanitized(es[i].header).Some?;
        OneLandsExactly(t, LinksAfter(t, start, es[..i]), es[i].header);
      }
    }
    if NamesAvoidLinks(t, start, es) {
      AvoidingLands(t, start, es);
    }
  }

  lemma {:induction false} OneLandsExactly(t: Target, links: Links, h: Header)
    requires t.Valid() && Sanitized(h).Some?
    ensures LandsAsNamed(t, links, h) <==> LinkFree(links, t.Reach(h))
  {
    hide Walk, LinkFree, Sanitized, NormalOk, Target.Reach;
    AcceptedIsPlain(t, h);
    WalksAsNamedExactly(links, t.Reach(h), t.budget);
  }

  lemma {:induction false} AvoidingLands(t: Target, start: Links, es: seq<Entry>)
    requires t.Valid() && AllInside(es) && NamesAvoidLinks(t, start, es)
    ensures AllLandAsNamed(t, start, es)
    decreases |es|
  {
    hide LinksAfter, NamedLinks, Sanitized, LinkFree, LandsAsNamed;
    if es != [] {
      var n := |es| - 1;
      var before := es[..n];
      AvoidsBefore(t, start, es, n);
      AvoidingLands(t, start, before);
      LinksAsNamed(t, start, before);
      assert Sanitized(es[n].header).Some? && LinkFree(NamedLinks(t, start, before), t.Reach(es[n].header));
      OneLandsExactly(t, LinksAfter(t, start, before), es[n].header);
      LandsNext(t, start, es);
    }
  }

  lemma {:induction false} LandsNext(t: Target, start: Links, es: seq<Entry>)
    requires es != [] && AllLandAsNamed(t, start, es[..|es| - 1])
    requires LandsAsNamed(t, LinksAfter(t, start, es[..|es| - 1]), es[|es| - 1].header)
    ensures AllLandAsNamed(t, start, es)
  {
    hide LinksAfter, LandsAsNamed;
    var before := es[..|es| - 1];
    forall i | 0 <= i < |es| ensures LandsAsNamed(t, LinksAfter(t, start, es[..i]), es[i].header) {
      if i < |before| {
        assert before[..i] == es[..i];
        assert LandsAsNamed(t, LinksAfter(t, start, before[..i]), before[i].header);
      }
    }
  }

  lemma {:induction false} AvoidsBefore(t: Target, start: Links, es: seq<Entry>, n: nat)
    requires AllInside(es) && NamesAvoidLinks(t, start, es) && n <= |es|
    ensures AllInside(es[..n]) && NamesAvoidLinks(t, start, es[..n])
  {
    hide NamedLinks, LinkFree, Sanitized;
    var before := es[..n];
    forall i | 0 <= i < |before| ensures LinkFree(NamedLinks(t, start, before[..i]), t.Reach(before[i].header)) {
      assert before[..i] == es[..i];
    }
  }

  /** Landing as named is landing below the destination, under the entry's own name. */
  lemma {:induction false} NamedIsBelow(t: Target, links: Links, h: Header)
    requires LandsAsNamed(t, links, h) && (h.kind == Regular || h.kind == Directory)
    ensures Below(t, Walk(links, [], t.Reach(h), t.budget))
  {
    hide Walk;
  }

  ghost predicate Below(t: Target, place: Place) {
    place.At? && [t.root] <= place.path
  }

  // ---------------------------------------------------------------- hard links too

  /** Also each hard link is to what its target says. */
  ghost predicate AllReachAsNamed(t: Target, start: Links, es: seq<Entry>) {
    && AllLandAsNamed(t, start, es)
    && forall i :: 0 <= i < |es| ==> ReachesAsNamed(t, LinksAfter(t, start, es[..i]), es[i].header)
  }

  ghost predicate ReachesAsNamed(t: Target, links: Links, h: Header) {
    h.kind == HardLink ==>
      Walk(links - {t.Path(h)}, [], Parent(t.OldPath(h)), t.budget) == At(Parent(t.OldPath(h)))
  }

  /** The links as a reader of the headers sees them, without resolving anything. */
  function HeaderLinks(t: Target, start: Links, es: seq<Entry>): Links {
    if es == [] then start
    else Noted(t, HeaderLinks(t, start, es[..|es| - 1]), es[|es| - 1].header)
  }

  function Noted(t: Target, links: Links, h: Header): Links {
    match h.kind
    case Symlink => links[t.Path(h) := Split(h.link)]
    case HardLink =>
      var cleared := links - {t.Path(h)};
      if t.OldPath(h) in cleared then cleared[t.Path(h) := cleared[t.OldPath(h)]] else cleared
    case _ => links
  }

  /** No name, and no hard link's target, passes through a link. */
  ghost predicate HeadersAvoidLinks(t: Target, start: Links, es: seq<Entry>) {
    forall i :: 0 <= i < |es| ==> HeaderAvoids(t, HeaderLinks(t, start, es[..i]), es[i].header)
  }

  ghost predicate HeaderAvoids(t: Target, links: Links, h: Header) {
    LinkFree(links, t.Reach(h)) && (h.kind == HardLink ==> LinkFree(links - {t.Path(h)}, Parent(t.OldPath(h))))
  }

  lemma {:induction false} AcceptedTargetIsPlain(t: Target, h: Header)
    requires t.Valid() && Sanitized(h).Some? && h.kind == HardLink
    ensures NormalOk(true, t.OldPath(h)) && NormalOk(true, Parent(t.OldPath(h)))
  {
    AcceptedInNormal(h);
    var out := Normal(false, Split(h.link));
    assert [] + Split(h.link) == Split(h.link);
    NormalIsNormal(false, Split(h.link));
    hide Split, Normal, Name, Sanitized;
    NoneClimbs(out, |out|);
    NormalOnTop(t.root, out);
  }

  lemma {:induction false} OneReachesExactly(t: Target, links: Links, h: Header)
    requires t.Valid() && Sanitized(h).Some?
    ensures LandsAsNamed(t, links, h) && ReachesAsNamed(t, links, h) <==> HeaderAvoids(t, links, h)
  {
    hide Walk, LinkFree, Sanitized, NormalOk, Target.Reach, Target.Path, Target.OldPath, LandsAsNamed;
    OneLandsExactly(t, links, h);
    if h.kind == HardLink {
      AcceptedTargetIsPlain(t, h);
      WalksAsNamedExactly(links - {t.Path(h)}, Parent(t.OldPath(h)), t.budget);
    }
  }

  /** While all entries and hard links are as named, the headers tell the links. */
  lemma {:induction false} LinksAsNoted(t: Target, start: Links, es: seq<Entry>)
    requires AllReachAsNamed(t, start, es)
    ensures LinksAfter(t, start, es) == HeaderLinks(t, start, es)
    decreases |es|
  {
    hide Unpacked, Noted, LandsAsNamed, ReachesAsNamed;
    if es != [] {
      var n := |es| - 1;
      ReachesBefore(t, start, es, n);
      LinksAsNoted(t, start, es[..n]);
      var h := es[n].header;
      assert LandsAsNamed(t, LinksAfter(t, start, es[..n]), h);
      UnpackedAsNamed(t, LinksAfter(t, start, es[..n]), h);
      MadeAsNoted(t, LinksAfter(t, start, es[..n]), h);
    }
  }

  lemma {:induction false} MadeAsNoted(t: Target, links: Links, h: Header)
    requires ReachesAsNamed(t, links, h)
    ensures Made(t, links, h, t.Path(h)) == Noted(t, links, h)
  {
    hide Walk, Split, Normal;
    if h.kind == HardLink {
      assert Parent(t.OldPath(h)) + Last(t.OldPath(h)) == t.OldPath(h);
    }
  }

  lemma {:induction false} ReachesBefore(t: Target, start: Links, es: seq<Entry>, n: nat)
    requires AllReachAsNamed(t, start, es) && n <= |es|
    ensures AllReachAsNamed(t, start, es[..n])
  {
    hide LandsAsNamed, ReachesAsNamed, LinksAfter;
    var before := es[..n];
    LandsBefore(t, start, es, n);
    forall i | 0 <= i < |before| ensures ReachesAsNamed(t, LinksAfter(t, start, before[..i]), before[i].header) {
      assert before[..i] == es[..i];
    }
  }

  /** The condition a reader can check on the headers alone: every entry lands, and every hard link
      reaches, where its header says if and only if none of them passes through a link that was
      there or that a header before it names. */
  lemma {:induction false} ReachesAsNamedExactly(t: Target, start: Links, es: seq<Entry>)
    requires t.Valid() && AllInside(es)
    ensures AllReachAsNamed(t, start, es) <==> HeadersAvoidLinks(t, start, es)
  {
    if AllReachAsNamed(t, start, es) {
      hide LinksAfter, HeaderLinks, Sanitized, LandsAsNamed, ReachesAsNamed, HeaderAvoids;
      forall i | 0 <= i < |es| ensures HeaderAvoids(t, HeaderLinks(t, start, es[..i]), es[i].header) {
        ReachesBefore(t, start, es, i);
        LinksAsNoted(t, start, es[..i]);
        assert LandsAsNamed(t, LinksAfter(t, start, es[..i]), es[i].header) && Sanitized(es[i].header).Some?;
        OneReachesExactly(t, LinksAfter(t, start, es[..i]), es[i].header);
      }
    }
    if HeadersAvoidLinks(t, start, es) {
      AvoidingReaches(t, start, es);
    }
  }

  lemma {:induction false} AvoidingReaches(t: Target, start: Links, es: seq<Entry>)
    requires t.Valid() && AllInside(es) && HeadersAvoidLinks(t, start, es)
    ensures AllReachAsNamed(t, start, es)
    decreases |es|
  {
    hide LinksAfter, HeaderLinks, Sanitized, HeaderAvoids, LandsAsNamed, ReachesAsNamed;
    if es != [] {
      var n := |es| - 1;
      var before := es[..n];
      HeadersBefore(t, start, es, n);
      AvoidingReaches(t, start, before);
      LinksAsNoted(t, start, before);
      assert Sanitized(es[n].header).Some? && HeaderAvoids(t, HeaderLinks(t, start, before), es[n].header);
      OneReachesExactly(t, LinksAfter(t, start, before), es[n].header);
      LandsNext(t, start, es);
      ReachesNext(t, start, es);
    }
  }

  lemma {:induction false} ReachesNext(t: Target, start: Links, es: seq<Entry>)
    requires es != [] && AllLandAsNamed(t, start, es) && AllReachAsNamed(t, start, es[..|es| - 1])
    requires ReachesAsNamed(t, LinksAfter(t, start, es[..|es| - 1]), es[|es| - 1].header)
    ensures AllReachAsNamed(t, start, es)
  {
    hide LinksAfter, LandsAsNamed, ReachesAsNamed, AllLandAsNamed;
    var before := es[..|es| - 1];
    forall i | 0 <= i < |es| ensures ReachesAsNamed(t, LinksAfter(t, start, es[..i]), es[i].header) {
      if i < |before| {
        assert before[..i] == es[..i];
        assert ReachesAsNamed(t, LinksAfter(t, start, before[..i]), before[i].header);
      }
    }
  }

  lemma {:induction false} HeadersBefore(t: Target, start: Links, es: seq<Entry>, n: nat)
    requires AllInside(es) && HeadersAvoidLinks(t, start, es) && n <= |es|
    ensures AllInside(es[..n]) && HeadersAvoidLinks(t, start, es[..n])
  {
    hide HeaderLinks, HeaderAvoids, Sanitized;
    var before := es[..n];
    forall i | 0 <= i < |before| ensures HeaderAvoids(t, HeaderLinks(t, start, before[..i]), before[i].header) {
      assert before[..i] == es[..i];
    }
  }

  // ---------------------------------------------------------------- the check is not enough

  function Plain(kind: Kind, name: string, link: string): Entry {
    Entry(Header(kind, name, link, 0, false, false, 0, 0, 0, "", ""), [])
  }

  const INTO := Target("dest", false, 40)
  const STRIPPING := Target("dest", true, 40)

  /** A link to the destination, a second one made through it, and a file made through that. */
  const CROSSING: seq<Entry> :=
    [Plain(Symlink, "a/b", ".."), Plain(Symlink, "a/b/c", "../.."), Plain(Regular, "c/x", "")]

  /** A link to the destination, the same link at its top by a hard link, and a file through that. */
  const LINKED: seq<Entry> :=
    [Plain(Symlink, "a/l", ".."), Plain(HardLink, "m", "a/l"), Plain(Regular, "m/x", "")]

  /** One link, which is one level higher once its first component is dropped, and a file through it. */
  const RAISED: seq<Entry> := [Plain(Symlink, "r/l", ".."), Plain(Regular, "r/l/x", "")]

  lemma {:induction false} NormalOfNames(path: seq<string>)
    requires NormalOk(true, path)
    ensures Normal(false, path) == path
  {
    hide Name;
    NormalOfNormal(false, path, []);
    PushNothing(false, path);
    assert path + [] == path;
  }

  /** A name of plain components and what the check makes of it. */
  lemma {:induction false} PlainName(name: string, path: seq<string>)
    requires path != [] && NormalOk(true, path) && name == Join(path)
    ensures Split(name) == path && Normal(false, Split(name)) == path
  {
    hide Split, Normal;
    forall i | 0 <= i < |path| ensures '/' !in path[i] { assert Name(path[i]); }
    SplitJoin(path);
    NormalOfNames(path);
  }

  lemma {:induction false} JoinTwo(a: string, b: string)
    ensures Join([a]) == a && Join([a, b]) == a + "/" + b
  {
    assert [a, b][1..] == [b];
  }

  lemma {:induction false} JoinThree(a: string, b: string, c: string)
    ensures Join([a, b, c]) == a + "/" + (b + "/" + c)
  {
    assert [a, b, c][1..] == [b, c];
    JoinTwo(b, c);
  }

  lemma {:induction false} OneName(a: string)
    requires NormalOk(true, [a])
    ensures Split(a) == [a] && Normal(false, Split(a)) == [a]
  {
    hide Split, Normal;
    JoinTwo(a, a);
    PlainName(a, [a]);
  }

  lemma {:induction false} TwoNames(a: string, b: string)
    requires NormalOk(true, [a, b])
    ensures Split(a + "/" + b) == [a, b] && Normal(false, Split(a + "/" + b)) == [a, b]
  {
    hide Split, Normal;
    JoinTwo(a, b);
    PlainName(a + "/" + b, [a, b]);
  }

  lemma {:induction false} ThreeNames(a: string, b: string, c: string)
    requires NormalOk(true, [a, b, c])
    ensures var name := a + "/" + (b + "/" + c); Split(name) == [a, b, c] && Normal(false, Split(name)) == [a, b, c]
  {
    hide Split, Normal;
    JoinThree(a, b, c);
    PlainName(a + "/" + (b + "/" + c), [a, b, c]);
  }

  lemma {:induction false} Climbs()
    ensures Split("..") == [".."] && Split("../..") == ["..", ".."]
  {
    hide Split;
    SplitOne("..", "..");
    assert ".." + "/" + ".." == "../..";
  }

  lemma {:induction false} NormalOfClimb(path: seq<string>)
    requires NormalOk(true, path) && 0 < |path| <= 2
    ensures Normal(false, path + (if |path| == 1 then [".."] else ["..", ".."])) == []
  {
    hide Name;
    NormalOfNormal(false, path, if |path| == 1 then [".."] else ["..", ".."]);
    assert [".."][1..] == [] && ["..", ".."][1..] == [".."];
    PushNothing(false, []);
    if |path| == 2 {
      assert path[..1] == [path[0]] && [path[0]][..0] == [];
      assert PushAll(false, path, ["..", ".."]) == PushAll(false, [path[0]], [".."]);
    }
    assert |path| == 1 ==> path[..0] == [];
  }

  /** A link "..", or "../.." one level further down, is accepted below its own directory. */
  lemma {:induction false} ClimbAccepted(e: Entry, path: seq<string>)
    requires e.header.kind == Symlink && 2 <= |path| <= 3 && NormalOk(true, path)
    requires Normal(false, Split(e.header.name)) == path && !Absolute(e.header.name)
    requires e.header.link == if |path| == 2 then ".." else "../.."
    ensures Sanitized(e.header).Some?
  {
    hide Split, Normal, Sanitized, NormalOk;
    Climbs();
    var base := Parent(path);
    assert NormalOk(true, base) by { PrefixOk(path); }
    NormalOfClimb(base);
    assert path[0] != DOTDOT by { FirstOk(path); }
    AcceptedInNormal(e.header);
  }

  lemma {:induction false} PrefixOk(path: seq<string>)
    requires NormalOk(true, path) && path != []
    ensures NormalOk(true, Parent(path))
  {
    hide Name;
  }

  lemma {:induction false} FirstOk(path: seq<string>)
    requires NormalOk(true, path) && path != []
    ensures path[0] != DOTDOT
  {
  }

  /** A plain file, and a hard link to a plain name, are accepted. */
  lemma {:induction false} PlainAccepted(e: Entry, path: seq<string>)
    requires e.header.kind == Regular || e.header.kind == HardLink
    requires NormalOk(true, path) && path != [] && Normal(false, Split(e.header.name)) == path
    requires !Absolute(e.header.name)
    requires e.header.kind == HardLink ==>
               !Absolute(e.header.link) && NormalOk(true, Normal(false, Split(e.header.link)))
    ensures Sanitized(e.header).Some?
  {
    hide Split, Normal, Sanitized, NormalOk;
    FirstOk(path);
    var to := Normal(false, Split(e.header.link));
    if e.header.kind == HardLink {
      assert [] + Split(e.header.link) == Split(e.header.link);
      if to != [] { FirstOk(to); }
    }
    AcceptedInNormal(e.header);
  }

  lemma {:induction false} LinksNext(t: Target, start: Links, es: seq<Entry>, e: Entry)
    ensures LinksAfter(t, start, []) == start
    ensures LinksAfter(t, start, es + [e]) == Unpacked(t, LinksAfter(t, start, es), e.header)
  {
    hide Unpacked;
    assert (es + [e])[..|es|] == es;
  }

  /** What an entry with a plain name does, when its directory is reached. */
  lemma {:induction false} LinkUnpacked(t: Target, links: Links, h: Header, dir: seq<string>)
    requires h.kind == Symlink && Walk(links, [], t.Reach(h), t.budget) == At(dir)
    ensures Unpacked(t, links, h) == links[dir + Last(t.Path(h)) := Split(h.link)]
  {
    hide Walk, Split, Normal;
  }

  lemma {:induction false} HardLinkUnpacked(t: Target, links: Links, h: Header, dir: seq<string>, to: seq<string>)
    requires h.kind == HardLink && Walk(links, [], t.Reach(h), t.budget) == At(dir)
    requires dir + Last(t.Path(h)) !in links
    requires Walk(links, [], Parent(t.OldPath(h)), t.budget) == At(to) && to + Last(t.OldPath(h)) in links
    ensures Unpacked(t, links, h) == links[dir + Last(t.Path(h)) := links[to + Last(t.OldPath(h))]]
  {
    hide Walk, Split, Normal;
    assert links - {dir + Last(t.Path(h))} == links;
  }

  lemma {:induction false} WalkDown(links: Links, path: seq<string>, budget: nat)
    requires NormalOk(true, path) && LinkFree(links, path)
    ensures Walk(links, [], path, budget) == At(path)
  {
    hide Walk, NormalOk, LinkFree;
    WalksAsNamedExactly(links, path, budget);
  }

  /** The steps of a walk. */
  lemma {:induction false} WalkEnds(links: Links, dir: seq<string>, budget: nat)
    ensures Walk(links, dir, [], budget) == At(dir)
  {
  }

  lemma {:induction false} WalkInto(links: Links, dir: seq<string>, c: string, rest: seq<string>, budget: nat)
    requires Name(c) && c != DOTDOT && dir + [c] !in links
    ensures Walk(links, dir, [c] + rest, budget) == Walk(links, dir + [c], rest, budget)
  {
    assert ([c] + rest)[1..] == rest;
  }

  lemma {:induction false} WalkUp(links: Links, dir: seq<string>, rest: seq<string>, budget: nat)
    ensures Walk(links, dir, [".."] + rest, budget) ==
            if dir == [] then Above else Walk(links, Parent(dir), rest, budget)
  {
    assert ([".."] + rest)[1..] == rest;
  }

  lemma {:induction false} WalkLink(links: Links, dir: seq<string>, c: string, rest: seq<string>, budget: nat)
    requires Name(c) && c != DOTDOT && dir + [c] in links && budget > 0
    ensures Walk(links, dir, [c] + rest, budget) == Walk(links, dir, links[dir + [c]] + rest, budget - 1)
  {
    assert ([c] + rest)[1..] == rest;
  }

  /** A walk to a name behind a link "..", one level below the destination, leaves it. */
  lemma {:induction false} ThroughTop(links: Links, c: string, budget: nat)
    requires Name(c) && c != DOTDOT && budget > 0
    requires ["dest"] !in links && ["x"] !in links && ["dest", c] in links && links[["dest", c]] == [".."]
    ensures Walk(links, [], ["dest", c, "x"], budget) == At(["x"])
  {
    hide Walk;
    assert ["dest", c, "x"] == ["dest"] + [c, "x"] && [] + ["dest"] == ["dest"];
    WalkInto(links, [], "dest", [c, "x"], budget);
    assert [c, "x"] == [c] + ["x"] && ["dest"] + [c] == ["dest", c];
    WalkLink(links, ["dest"], c, ["x"], budget);
    WalkUp(links, ["dest"], ["x"], budget - 1);
    assert Parent(["dest"]) == [] && ["x"] == ["x"] + [] && [] + ["x"] == ["x"];
    WalkInto(links, [], "x", [], budget - 1);
    WalkEnds(links, ["x"], budget - 1);
  }

  /** With names stripped a single link is enough: each of these entries is accepted, and the file is
      made beside the destination. */
  lemma {:induction false} StrippedEntryLandsOutside()
    ensures AllInside(RAISED) && !AllLandAsNamed(STRIPPING, map[], RAISED)
    ensures Walk(LinksAfter(STRIPPING, map[], RAISED[..1]), [], STRIPPING.Reach(RAISED[1].header), 40) == At(["x"])
  {
    hide Split, Normal, Walk, LinksAfter, Unpacked, Sanitized;
    RaisedNames();
    RaisedAccepted();
    WalkDown(map[], ["dest"], 40);
    LinksNext(STRIPPING, map[], [], RAISED[0]);
    LinkUnpacked(STRIPPING, map[], RAISED[0].header, ["dest"]);
    Climbs();
    assert [] + [RAISED[0]] == RAISED[..1] && ["dest"] + ["l"] == ["dest", "l"];
    ThroughTop(map[["dest", "l"] := [".."]], "l", 40);
    assert !LandsAsNamed(STRIPPING, LinksAfter(STRIPPING, map[], RAISED[..1]), RAISED[1].header);
  }

  lemma {:induction false} RaisedNames()
    ensures Components(RAISED[0].header) == ["r", "l"] && Components(RAISED[1].header) == ["r", "l", "x"]
    ensures STRIPPING.Path(RAISED[0].header) == ["dest", "l"] && STRIPPING.Reach(RAISED[0].header) == ["dest"]
    ensures STRIPPING.Reach(RAISED[1].header) == ["dest", "l", "x"]
  {
    hide Split, Normal;
    TwoNames("r", "l");
    ThreeNames("r", "l", "x");
    assert "r" + "/" + "l" == "r/l" && "r" + "/" + ("l" + "/" + "x") == "r/l/x";
    assert ["r", "l"][1..] == ["l"] && ["r", "l", "x"][1..] == ["l", "x"];
    assert ["dest"] + ["l"] == ["dest", "l"] && ["dest"] + ["l", "x"] == ["dest", "l", "x"];
    assert ["dest", "l"][..1] == ["dest"];
  }

  lemma {:induction false} RaisedAccepted()
    ensures AllInside(RAISED)
  {
    hide Split, Normal, Sanitized;
    RaisedNames();
    ClimbAccepted(RAISED[0], ["r", "l"]);
    PlainAccepted(RAISED[1], ["r", "l", "x"]);
    forall i | 0 <= i < |RAISED| ensures Sanitized(RAISED[i].header).Some? {
      assert i == 0 || i == 1;
    }
  }

  /** A hard link to a link is that link, in another place: each of these entries is accepted, and the
      file is made beside the destination. */
  lemma {:induction false} HardLinkedEntryLandsOutside()
    ensures AllInside(LINKED) && !AllLandAsNamed(INTO, map[], LINKED)
    ensures Walk(LinksAfter(INTO, map[], LINKED[..2]), [], INTO.Reach(LINKED[2].header), 40) == At(["x"])
  {
    hide Split, Normal, Walk, LinksAfter, Unpacked, Sanitized;
    LinkedNames();
    LinkedAccepted();
    LinkedLinks();
    ThroughTop(map[["dest", "a", "l"] := [".."], ["dest", "m"] := [".."]], "m", 40);
    assert !LandsAsNamed(INTO, LinksAfter(INTO, map[], LINKED[..2]), LINKED[2].header);
  }

  lemma {:induction false} LinkedNames()
    ensures Components(LINKED[0].header) == ["a", "l"] && Components(LINKED[1].header) == ["m"]
    ensures Components(LINKED[2].header) == ["m", "x"]
    ensures INTO.Path(LINKED[0].header) == ["dest", "a", "l"] && INTO.Reach(LINKED[0].header) == ["dest", "a"]
    ensures INTO.Path(LINKED[1].header) == ["dest", "m"] && INTO.Reach(LINKED[1].header) == ["dest"]
    ensures INTO.OldPath(LINKED[1].header) == ["dest", "a", "l"] && INTO.Reach(LINKED[2].header) == ["dest", "m", "x"]
  {
    hide Split, Normal;
    TwoNames("a", "l");
    OneName("m");
    TwoNames("m", "x");
    assert "a" + "/" + "l" == "a/l" && "m" + "/" + "x" == "m/x";
    assert ["dest"] + ["a", "l"] == ["dest", "a", "l"] && ["dest"] + ["m"] == ["dest", "m"];
    assert ["dest"] + ["m", "x"] == ["dest", "m", "x"];
    assert ["dest", "a", "l"][..2] == ["dest", "a"] && ["dest", "m"][..1] == ["dest"];
  }

  lemma {:induction false} LinkedAccepted()
    ensures AllInside(LINKED)
  {
    hide Split, Normal, Sanitized;
    LinkedNames();
    TwoNames("a", "l");
    assert "a" + "/" + "l" == "a/l";
    ClimbAccepted(LINKED[0], ["a", "l"]);
    PlainAccepted(LINKED[1], ["m"]);
    PlainAccepted(LINKED[2], ["m", "x"]);
    forall i | 0 <= i < |LINKED| ensures Sanitized(LINKED[i].header).Some? {
      assert i == 0 || i == 1 || i == 2;
    }
  }

  lemma {:induction false} LinkedLinks()
    ensures LinksAfter(INTO, map[], LINKED[..2]) == map[["dest", "a", "l"] := [".."], ["dest", "m"] := [".."]]
  {
    hide Split, Normal, Walk, LinksAfter, Unpacked, Target.Path, Target.Reach, Target.OldPath;
    LinkedNames();
    Climbs();
    var first: Links := map[["dest", "a", "l"] := [".."]];
    LinksNext(INTO, map[], [], LINKED[0]);
    LinksNext(INTO, map[], [LINKED[0]], LINKED[1]);
    assert [] + [LINKED[0]] == [LINKED[0]] && [LINKED[0]] + [LINKED[1]] == LINKED[..2];
    WalkDown(map[], ["dest", "a"], 40);
    LinkUnpacked(INTO, map[], LINKED[0].header, ["dest", "a"]);
    assert ["dest", "a"] + ["l"] == ["dest", "a", "l"] && ["dest"] + ["m"] == ["dest", "m"];
    assert Parent(["dest", "a", "l"]) == ["dest", "a"] && |["dest", "m"]| != |["dest", "a", "l"]|;
    ShortIsLinkFree(first, ["dest"]);
    ShortIsLinkFree(first, ["dest", "a"]);
    WalkDown(first, ["dest"], 40);
    WalkDown(first, ["dest", "a"], 40);
    HardLinkUnpacked(INTO, first, LINKED[1].header, ["dest"], ["dest", "a"]);
  }

  lemma {:induction false} ShortIsLinkFree(links: Links, path: seq<string>)
    requires forall p :: p in links ==> |p| > |path|
    ensures LinkFree(links, path)
  {
  }

  /** Links alone are enough too: a link made through a link starts higher than its name says. */
  lemma {:induction false} AcceptedEntryLandsOutside()
    ensures AllInside(CROSSING) && !AllLandAsNamed(INTO, map[], CROSSING)
    ensures Walk(LinksAfter(INTO, map[], CROSSING[..2]), [], INTO.Reach(CROSSING[2].header), 40) == Above
  {
    hide Split, Normal, Walk, LinksAfter, Unpacked, Sanitized;
    CrossingNames();
    CrossingAccepted();
    CrossingLinks();
    BehindTwo(map[["dest", "a", "b"] := [".."], ["dest", "c"] := ["..", ".."]]);
    assert !LandsAsNamed(INTO, LinksAfter(INTO, map[], CROSSING[..2]), CROSSING[2].header);
  }

  lemma {:induction false} CrossingNames()
    ensures Components(CROSSING[0].header) == ["a", "b"] && Components(CROSSING[1].header) == ["a", "b", "c"]
    ensures Components(CROSSING[2].header) == ["c", "x"]
    ensures INTO.Path(CROSSING[0].header) == ["dest", "a", "b"] && INTO.Reach(CROSSING[0].header) == ["dest", "a"]
    ensures INTO.Path(CROSSING[1].header) == ["dest", "a", "b", "c"]
    ensures INTO.Reach(CROSSING[1].header) == ["dest", "a", "b"] && INTO.Reach(CROSSING[2].header) == ["dest", "c", "x"]
  {
    hide Split, Normal;
    TwoNames("a", "b");
    ThreeNames("a", "b", "c");
    TwoNames("c", "x");
    assert "a" + "/" + "b" == "a/b" && "a" + "/" + ("b" + "/" + "c") == "a/b/c" && "c" + "/" + "x" == "c/x";
    assert ["dest"] + ["a", "b"] == ["dest", "a", "b"] && ["dest"] + ["a", "b", "c"] == ["dest", "a", "b", "c"];
    assert ["dest"] + ["c", "x"] == ["dest", "c", "x"];
    assert ["dest", "a", "b"][..2] == ["dest", "a"] && ["dest", "a", "b", "c"][..3] == ["dest", "a", "b"];
  }

  lemma {:induction false} CrossingAccepted()
    ensures AllInside(CROSSING)
  {
    hide Split, Normal, Sanitized;
    CrossingNames();
    ClimbAccepted(CROSSING[0], ["a", "b"]);
    ClimbAccepted(CROSSING[1], ["a", "b", "c"]);
    PlainAccepted(CROSSING[2], ["c", "x"]);
    forall i | 0 <= i < |CROSSING| ensures Sanitized(CROSSING[i].header).Some? {
      assert i == 0 || i == 1 || i == 2;
    }
  }

  lemma {:induction false} CrossingLinks()
    ensures LinksAfter(INTO, map[], CROSSING[..2]) ==
            map[["dest", "a", "b"] := [".."], ["dest", "c"] := ["..", ".."]]
  {
    hide Split, Normal, Walk, LinksAfter, Unpacked, Target.Path, Target.Reach;
    CrossingNames();
    Climbs();
    var first: Links := map[["dest", "a", "b"] := [".."]];
    LinksNext(INTO, map[], [], CROSSING[0]);
    LinksNext(INTO, map[], [CROSSING[0]], CROSSING[1]);
    assert [] + [CROSSING[0]] == [CROSSING[0]] && [CROSSING[0]] + [CROSSING[1]] == CROSSING[..2];
    WalkDown(map[], ["dest", "a"], 40);
    LinkUnpacked(INTO, map[], CROSSING[0].header, ["dest", "a"]);
    assert ["dest", "a"] + ["b"] == ["dest", "a", "b"] && ["dest"] + ["c"] == ["dest", "c"];
    BackToTop(first);
    LinkUnpacked(INTO, first, CROSSING[1].header, ["dest"]);
  }

  lemma {:induction false} BackToTop(links: Links)
    requires links == map[["dest", "a", "b"] := [".."]]
    ensures Walk(links, [], ["dest", "a", "b"], 40) == At(["dest"])
  {
    hide Walk;
    var long := ["dest", "a", "b"];
    assert |["dest"]| != |long| && |["dest", "a"]| != |long|;
    assert long == ["dest"] + ["a", "b"] && ["a", "b"] == ["a"] + ["b"] && ["b"] == ["b"] + [];
    assert [] + ["dest"] == ["dest"] && ["dest"] + ["a"] == ["dest", "a"] && ["dest", "a"] + ["b"] == long;
    WalkInto(links, [], "dest", ["a", "b"], 40);
    WalkInto(links, ["dest"], "a", ["b"], 40);
    WalkLink(links, ["dest", "a"], "b", [], 40);
    WalkUp(links, ["dest", "a"], [], 39);
    assert Parent(["dest", "a"]) == ["dest"];
    WalkEnds(links, ["dest"], 39);
  }

  lemma {:induction false} BehindTwo(links: Links)
    requires ["dest"] !in links && ["dest", "c"] in links && links[["dest", "c"]] == ["..", ".."]
    ensures Walk(links, [], ["dest", "c", "x"], 40) == Above
  {
    hide Walk;
    assert ["dest", "c", "x"] == ["dest"] + ["c", "x"] && ["c", "x"] == ["c"] + ["x"];
    assert [] + ["dest"] == ["dest"] && ["dest"] + ["c"] == ["dest", "c"];
    WalkInto(links, [], "dest", ["c", "x"], 40);
    WalkLink(links, ["dest"], "c", ["x"], 40);
    assert ["..", ".."] + ["x"] == [".."] + ["..", "x"] && ["..", "x"] == [".."] + ["x"];
    WalkUp(links, ["dest"], ["..", "x"], 39);
    assert Parent(["dest"]) == [];
    WalkUp(links, [], ["x"], 39);
  }

  // ---------------------------------------------------------------- the last component

  /** A directory or a file is opened where a link at its own path leads; a link replaces what is
      there. */
  lemma {:induction false} LinkAtThePath(t: Target, links: Links, h: Header)
    requires t.Valid() && Sanitized(h).Some? && t.Path(h) in links && LinkFree(links, Parent(t.Path(h)))
    ensures LandsAsNamed(t, links, h) <==> h.kind == Symlink || h.kind == HardLink
  {
    hide Sanitized, Target.Path, Components, LandsAsNamed;
    OneLandsExactly(t, links, h);
    PathIsNotFree(t, links, h);
  }

  lemma {:induction false} PathIsNotFree(t: Target, links: Links, h: Header)
    requires t.Path(h) in links
    ensures !LinkFree(links, t.Path(h))
  {
    hide Components;
    var path := t.Path(h);
    assert path[..|path|] == path;
  }
}
