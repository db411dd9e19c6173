/** Uploaded archives: the check and rewrite of each tar header (internal/files/validate.go
    SanitizeEntry) and the copy loop around it (internal/files/archive.go sanitizeArchive). */
module Archive {
  import opened Wrappers
  import opened Paths

  datatype Kind = Regular | Directory | Symlink | HardLink | Special

  /** A tar header; the mode is its two set-id bits and the rest. */
  datatype Header = Header(
    kind: Kind, name: string, link: string, size: nat,
    setuid: bool, setgid: bool, mode: nat, uid: int, gid: int, uname: string, gname: string)

  /** One past the last slash, 0 without one. */
  function AfterLastSlash(s: string): (r: nat)
    ensures r <= |s| && (r > 0 ==> s[r - 1] == '/')
    ensures forall i :: r <= i < |s| ==> s[i] != '/'
  {
    if s == "" then 0 else if s[|s| - 1] == '/' then |s| else AfterLastSlash(s[..|s| - 1])
  }

  /** path.Dir. */
  function DirOf(s: string): string {
    Clean(s[..AfterLastSlash(s)])
  }

  /** path.Join of a base that is not empty. */
  function JoinPath(base: string, s: string): string {
    Clean(if s == "" then base else base + "/" + s)
  }

  function Sanitized(h: Header): Option<Header> {
    if h.kind == Special || Absolute(h.name) then None
    else
      var rel := Clean(h.name);
      if LooksEscaping(rel) then None
      else if (h.kind == Symlink || h.kind == HardLink) && !LinkStays(h, rel) then None
      else
        Some(h.(setuid := false, setgid := false, uid := 0, gid := 0, uname := "", gname := "",
                name := if h.kind == Directory then rel + "/" else rel))
  }

  predicate LinkStays(h: Header, rel: string) {
    var base := if h.kind == Symlink then DirOf(rel) else DOT;
    !Absolute(h.link) && !LooksEscaping(Clean(JoinPath(base, h.link)))
  }

  class TarHeader {
    var v: Header

    constructor (v: Header)
      ensures this.v == v
    {
      this.v := v;
    }

    /** SanitizeEntry: rewrites the header in place, or refuses it and leaves it alone. */
    method Sanitize() returns (ok: bool)
      modifies this
      ensures ok == Sanitized(old(v)).Some?
      ensures v == if ok then Sanitized(old(v)).value else old(v)
    {
      if v.kind == Special {
        return false;
      }
      if Absolute(v.name) {
        return false;
      }
      var rel := Clean(v.name);
      if LooksEscaping(rel) {
        return false;
      }
      if v.kind == Symlink || v.kind == HardLink {
        if Absolute(v.link) {
          return false;
        }
        var base := DOT;
        if v.kind == Symlink {
          base := DirOf(rel);
        }
        var resolved := Clean(JoinPath(base, v.link));
        if LooksEscaping(resolved) {
          return false;
        }
      }
      v := v.(setuid := false, setgid := false);
      v := v.(uid := 0, gid := 0);
      v := v.(uname := "", gname := "");
      v := v.(name := if v.kind == Directory then rel + "/" else rel);
      return true;
    }
  }

  // ---------------------------------------------------------------- what is accepted

  function Parent(out: seq<string>): seq<string> {
    if out == [] then [] else out[..|out| - 1]
  }

  /** Where a link target is resolved from: for a symbolic link the way to its name and one step up,
      unless its name is the destination itself; for a hard link the destination. */
  function LinkBase(h: Header): seq<string> {
    var cs := Split(h.name);
    if h.kind != Symlink || Ups(cs) == Downs(cs) then [] else cs + [DOTDOT]
  }

  /** The entry stays below the destination, and so does what it links to: neither way ever climbs
      more often than it has descended. */
  ghost predicate StaysInside(h: Header) {
    && h.kind != Special && !Absolute(h.name) && !Escapes(Split(h.name))
    && (h.kind == Symlink || h.kind == HardLink ==>
          !Absolute(h.link) && !Escapes(LinkBase(h) + Split(h.link)))
  }

  /** The same of the normal forms. */
  function NormalBase(h: Header): seq<string> {
    if h.kind == Symlink then Parent(Normal(false, Split(h.name))) else []
  }

  ghost predicate StaysInNormal(h: Header) {
    && h.kind != Special && !Absolute(h.name) && !LeadsUp(Split(h.name))
    && (h.kind == Symlink || h.kind == HardLink ==>
          !Absolute(h.link) && !LeadsUp(NormalBase(h) + Split(h.link)))
  }

  lemma {:induction false} LastSlashIs(a: string, b: string)
    requires '/' !in b
    ensures AfterLastSlash(a + "/" + b) == |a| + 1 && AfterLastSlash(b) == 0
  {
    var s := a + "/" + b;
    assert s[|a|] == '/';
    forall i | |a| < i < |s| ensures s[i] != '/' { assert s[i] == b[i - |a| - 1]; }
  }

  lemma {:induction false} JoinLast(out: seq<string>)
    requires |out| > 1
    ensures Join(out) == Join(out[..|out| - 1]) + "/" + out[|out| - 1]
    decreases |out|
  {
    if |out| > 2 {
      JoinLast(out[1..]);
      assert out[1..][..|out| - 2] == out[..|out| - 1][1..];
    }
  }

  /** path.Dir of a rendered normal form drops its last component. */
  lemma {:induction false} DirOfRendered(out: seq<string>)
    requires NormalOk(false, out)
    ensures DirOf(Render(false, out)) == Render(false, Parent(out))
  {
    var r := Render(false, out);
    if |out| <= 1 {
      if |out| == 1 { assert Name(out[0]); }
      LastSlashIs("", r);
      assert r[..0] == "";
      SplitOne("", "");
      assert Clean("") == DOT by { OneEmptyRelative(); }
    } else {
      var init, last := out[..|out| - 1], out[|out| - 1];
      assert Name(last) && Name(out[0]) && init[0] == out[0];
      JoinLast(out);
      LastSlashIs(Join(init), last);
      assert r[..|Join(init)| + 1] == Join(init) + "/";
      InitIsNormal(out);
      TrailingSlash(init);
    }
  }

  lemma {:induction false} OneEmptyRelative()
    ensures Normal(false, [""]) == []
  {
    assert [""][1..] == [];
  }

  lemma {:induction false} InitIsNormal(out: seq<string>)
    requires NormalOk(false, out) && out != []
    ensures NormalOk(false, out[..|out| - 1])
  {
    hide Name;
  }

  lemma {:induction false} TrailingSlash(out: seq<string>)
    requires NormalOk(false, out)
    ensures Clean(Render(false, out) + "/") == Render(false, out)
    ensures out != [] ==> Clean(Join(out) + "/") == Render(false, out)
  {
    hide Split, Push, NormalOk, Name;
    var r := Render(false, out);
    NormalOfRendered(out, [""]);
    SplitTwo(r, "");
    SplitOne("", "");
    assert r + "/" + "" == r + "/";
    RenderedNotEmpty(out);
    PushOneEmpty(out);
  }

  lemma {:induction false} RenderedNotEmpty(out: seq<string>)
    requires NormalOk(false, out)
    ensures Render(false, out) != ""
  {
    if out != [] {
      assert Name(out[0]);
      JoinStart(out);
    }
  }

  lemma {:induction false} PushOneEmpty(out: seq<string>)
    ensures PushAll(false, out, [""]) == out
  {
    assert [""][1..] == [];
  }

  /** Joining and cleaning a relative target resolves it component by component. */
  lemma {:induction false} JoinedNormal(base: seq<string>, s: string)
    requires NormalOk(false, base)
    ensures JoinPath(Render(false, base), s) == Render(false, Normal(false, base + Split(s)))
  {
    hide Split, Push, NormalOk, Name;
    var r := Render(false, base);
    NormalOfNormal(false, base, Split(s));
    if s == "" {
      SplitOne("", "");
      NormalOfRendered(base, []);
      assert Split(r) + [] == Split(r);
      PushOneEmpty(base);
      PushNothing(false, base);
    } else {
      SplitTwo(r, s);
      NormalOfRendered(base, Split(s));
      RenderedNotEmpty(base);
    }
  }

  lemma {:induction false} LinkTestInNormal(h: Header)
    requires !Absolute(h.name) && (h.kind == Symlink || h.kind == HardLink)
    ensures LinkStays(h, Clean(h.name)) <==> !Absolute(h.link) && !LeadsUp(NormalBase(h) + Split(h.link))
  {
    hide Split, Normal, NormalOk, LooksEscaping;
    var out := Normal(false, Split(h.name));
    NormalIsNormal(false, Split(h.name));
    if h.kind == Symlink {
      DirOfRendered(out);
      if out != [] { InitIsNormal(out); }
    }
    var base := NormalBase(h);
    EmptyIsNormal();
    JoinedNormal(base, h.link);
    var resolved := Normal(false, base + Split(h.link));
    AllSlashFree(base, Split(h.link));
    NormalIsNormal(false, base + Split(h.link));
    CleanOfNormal(resolved);
    PrefixTestIsExact(resolved);
  }

  lemma {:induction false} EmptyIsNormal()
    ensures NormalOk(false, [])
  {
  }

  lemma {:induction false} AllSlashFree(base: seq<string>, cs: seq<string>)
    requires NormalOk(false, base) && forall i :: 0 <= i < |cs| ==> '/' !in cs[i]
    ensures forall i :: 0 <= i < |base + cs| ==> '/' !in (base + cs)[i]
  {
    forall i | 0 <= i < |base + cs| ensures '/' !in (base + cs)[i] {
      if i < |base| { assert Name(base[i]); }
    }
  }

  lemma {:induction false} CleanOfNormal(out: seq<string>)
    requires NormalOk(false, out)
    ensures Clean(Render(false, out)) == Render(false, out)
  {
    hide Split, PushAll, NormalOk;
    NormalOfRendered(out, []);
    assert Split(Render(false, out)) + [] == Split(Render(false, out));
    PushNothing(false, out);
  }

  lemma {:induction false} AcceptedInNormal(h: Header)
    ensures Sanitized(h).Some? <==> StaysInNormal(h)
  {
    hide Split, Normal, NormalOk, LooksEscaping, LinkStays;
    if h.kind != Special && !Absolute(h.name) {
      NormalIsNormal(false, Split(h.name));
      PrefixTestIsExact(Normal(false, Split(h.name)));
      if h.kind == Symlink || h.kind == HardLink {
        LinkTestInNormal(h);
      }
    }
  }

  /** Going to a link's name and one step up is going to its normal form's parent. */
  lemma {:induction false} BaseInNormal(h: Header, more: seq<string>)
    requires !Escapes(Split(h.name))
    ensures Escapes(LinkBase(h) + more) <==> LeadsUp(NormalBase(h) + more)
  {
    hide Split, Normal, LeadsUp, Escapes;
    var cs := Split(h.name);
    var out := Normal(false, cs);
    EscapesExactly(cs);
    NormalIsNormal(false, cs);
    EscapesExactly(LinkBase(h) + more);
    SameLead(LinkBase(h), NormalBase(h), more) by {
      if h.kind == Symlink && out != [] {
        OneUp(cs);
        InitIsNormal(out);
      }
      ParentKeepsForm(out);
    }
  }

  lemma {:induction false} ParentKeepsForm(out: seq<string>)
    requires NormalOk(false, out)
    ensures NormalOk(false, Parent(out)) && Normal(false, Parent(out)) == Parent(out) && Normal(false, []) == []
  {
    hide Name;
    NormalOfNormal(false, Parent(out), []);
    PushNothing(false, Parent(out));
    PushNothing(false, []);
    assert Parent(out) + [] == Parent(out);
  }

  lemma {:induction false} OneUp(cs: seq<string>)
    requires Normal(false, cs) != [] && DOTDOT !in Normal(false, cs)
    ensures Normal(false, cs + [DOTDOT]) == Parent(Normal(false, cs))
  {
    hide Normal;
    NormalSnoc(cs, DOTDOT);
  }

  lemma {:induction false} SameLead(a: seq<string>, b: seq<string>, more: seq<string>)
    requires Normal(false, a) == Normal(false, b)
    ensures LeadsUp(a + more) <==> LeadsUp(b + more)
  {
    PushAllJoin(false, [], a, more);
    PushAllJoin(false, [], b, more);
    hide PushAll;
  }

  /** The test of link targets is exact. */
  lemma {:induction false} LinkTestIsExact(h: Header)
    requires !Absolute(h.name) && !Escapes(Split(h.name)) && (h.kind == Symlink || h.kind == HardLink)
    ensures LinkStays(h, Clean(h.name)) <==> !Absolute(h.link) && !Escapes(LinkBase(h) + Split(h.link))
  {
    hide *;
    LinkTestInNormal(h);
    BaseInNormal(h, Split(h.link));
  }

  /** An entry is accepted exactly when it and what it links to stay inside the destination. */
  lemma {:induction false} AcceptedExactlyWhenInside(h: Header)
    ensures Sanitized(h).Some? <==> StaysInside(h)
  {
    hide Split, Normal, LeadsUp, Escapes, Sanitized, LinkBase, NormalBase;
    AcceptedInNormal(h);
    EscapesExactly(Split(h.name));
    if !Escapes(Split(h.name)) {
      BaseInNormal(h, Split(h.link));
    }
  }

  /** The rewrite keeps the entry's place, takes its privileges, and is idempotent. */
  lemma {:induction false} SanitizeIsIdempotent(h: Header)
    requires Sanitized(h).Some?
    ensures var s := Sanitized(h).value;
            && Sanitized(s) == Some(s)
            && Normal(false, Split(s.name)) == Normal(false, Split(h.name))
            && s.kind == h.kind && s.link == h.link && s.size == h.size && s.mode == h.mode
            && !s.setuid && !s.setgid && s.uid == 0 && s.gid == 0 && s.uname == "" && s.gname == ""
            && s.name != "" && (s.name[|s.name| - 1] == '/' <==> s.kind == Directory)
  {
    hide Split, Normal, NormalOk, LooksEscaping, DirOf, JoinPath;
    var s := Sanitized(h).value;
    var out := Normal(false, Split(h.name));
    NormalIsNormal(false, Split(h.name));
    SameName(out);
    RenderedNotEmpty(out);
    NoSlashBehind(out);
  }

  lemma {:induction false} NoSlashBehind(out: seq<string>)
    requires NormalOk(false, out)
    ensures var r := Render(false, out); r != "" && r[|r| - 1] != '/'
  {
    if out != [] {
      if |out| > 1 { JoinLast(out); }
      assert Name(out[|out| - 1]);
    }
  }

  lemma {:induction false} SameName(out: seq<string>)
    requires NormalOk(false, out)
    ensures var r := Render(false, out);
            && Clean(r) == r && Clean(r + "/") == r && !Absolute(r) && !Absolute(r + "/")
            && Normal(false, Split(r)) == out && Normal(false, Split(r + "/")) == out
  {
    hide Split, PushAll, NormalOk, Clean;
    var r := Render(false, out);
    CleanOfNormal(out);
    TrailingSlash(out);
    NormalOfRendered(out, []);
    NormalOfRendered(out, [""]);
    assert Split(r) + [] == Split(r);
    SplitTwo(r, "");
    SplitOne("", "");
    assert r + "/" + "" == r + "/";
    PushNothing(false, out);
    PushOneEmpty(out);
    RenderedNotEmpty(out);
  }

  // ---------------------------------------------------------------- the whole archive

  datatype Entry = Entry(header: Header, body: seq<int>)

  /** Where an upload ends: where it should, behind its last entry but too early, or inside the
      body of its last entry, of which only a part then arrives. */
  datatype Ending = Whole | BetweenEntries | InLastBody

  /** An uploaded tar stream: its entries with the bodies as far as they arrive, and how many raw
      bytes have been read when the loop turns to the i-th. */
  datatype Upload = Upload(entries: seq<Entry>, consumed: nat -> nat, ending: Ending)

  function TotalSize(es: seq<Entry>): nat {
    if es == [] then 0 else TotalSize(es[..|es| - 1]) + es[|es| - 1].header.size
  }

  ghost predicate AllInside(es: seq<Entry>) {
    forall i :: 0 <= i < |es| ==> Sanitized(es[i].header).Some?
  }

  /** The entries as they are passed on: headers rewritten, bodies of regular files only. */
  function PassedOn(es: seq<Entry>): seq<Entry>
    requires AllInside(es)
  {
    seq(|es|, i requires 0 <= i < |es| =>
      Entry(Sanitized(es[i].header).value, if es[i].header.kind == Regular then es[i].body else []))
  }

  /** What becomes of an entry: place, kind, link and size stay, a regular file keeps its body, and nothing
      is left of its owner. */
  ghost predicate PassedWith(e: Entry, e': Entry) {
    && Normal(false, Split(e'.header.name)) == Normal(false, Split(e.header.name))
    && e'.header.kind == e.header.kind && e'.header.link == e.header.link && e'.header.size == e.header.size
    && e'.body == (if e.header.kind == Regular then e.body else [])
    && e'.header.name != "" && (e'.header.name[|e'.header.name| - 1] == '/' <==> e.header.kind == Directory)
    && e'.header.uid == 0 && e'.header.gid == 0 && !e'.header.setuid && !e'.header.setgid
  }

  ghost predicate Fits(u: Upload, maxBytes: nat) {
    TotalSize(u.entries) <= maxBytes && forall i :: 0 <= i <= |u.entries| ==> u.consumed(i) <= maxBytes
  }

  /** sanitizeArchive. Success is exactly a whole archive within its limits with every entry
      inside; then the output is every entry in order, and otherwise a prefix of that, the last
      body as far as it arrived. */
  method SanitizeArchive(u: Upload, maxBytes: nat) returns (out: seq<Entry>, ok: bool)
    ensures ok <==> u.ending == Whole && AllInside(u.entries) && Fits(u, maxBytes)
    ensures ok ==> out == PassedOn(u.entries)
    ensures |out| <= |u.entries| && AllInside(u.entries[..|out|]) && out == PassedOn(u.entries[..|out|])
    ensures forall i :: 0 <= i < |out| ==> PassedWith(u.entries[i], out[i])
    ensures TotalSize(out) <= maxBytes
  {
    hide Sanitized, PassedOn, PassedWith, TotalSize, AllInside;
    out := [];
    var written: nat, i := 0, 0;
    PassedNothing(u.entries);
    while true
      invariant 0 <= i <= |u.entries| && |out| == i
      invariant AllInside(u.entries[..i]) && out == PassedOn(u.entries[..i])
      invariant forall k :: 0 <= k < i ==> PassedWith(u.entries[k], out[k])
      invariant written == TotalSize(u.entries[..i]) == TotalSize(out) <= maxBytes
      invariant forall k :: 0 <= k < i ==> u.consumed(k) <= maxBytes
      decreases |u.entries| - i
    {
      if u.consumed(i) > maxBytes {
        return out, false;
      }
      if i == |u.entries| {
        assert u.entries[..i] == u.entries;
        return out, u.ending == Whole;
      }
      var entry := u.entries[i];
      PassedNext(u.entries, i);
      EntryPassed(entry);
      TotalGrows(u.entries, i + 1);
      var h := new TarHeader(entry.header);
      var inside := h.Sanitize();
      if !inside {
        return out, false;
      }
      written := written + h.v.size;
      if written > maxBytes {
        return out, false;
      }
      out := out + [Entry(h.v, if h.v.kind == Regular then entry.body else [])];
      i := i + 1;
      if h.v.kind == Regular && u.ending == InLastBody && i == |u.entries| {
        return out, false;
      }
    }
  }

  lemma {:induction false} EntryPassed(e: Entry)
    ensures Sanitized(e.header).Some? ==>
              var h := Sanitized(e.header).value;
              PassedWith(e, Entry(h, if h.kind == Regular then e.body else []))
  {
    if Sanitized(e.header).Some? {
      SanitizeIsIdempotent(e.header);
      hide Sanitized, Normal, Split;
    }
  }

  lemma {:induction false} PassedNothing(es: seq<Entry>)
    ensures AllInside(es[..0]) && PassedOn(es[..0]) == [] && TotalSize(es[..0]) == 0 && TotalSize([]) == 0
  {
  }

  /** One more entry passed on. */
  lemma {:induction false} PassedNext(es: seq<Entry>, k: nat)
    requires k < |es| && AllInside(es[..k])
    ensures AllInside(es) ==> Sanitized(es[k].header).Some?
    ensures Sanitized(es[k].header).Some? ==>
              var h := Sanitized(es[k].header).value;
              var next := Entry(h, if h.kind == Regular then es[k].body else []);
              && h.size == es[k].header.size
              && AllInside(es[..k + 1]) && PassedOn(es[..k + 1]) == PassedOn(es[..k]) + [next]
              && TotalSize(PassedOn(es[..k]) + [next]) == TotalSize(PassedOn(es[..k])) + h.size
  {
    hide Sanitized, TotalSize;
    if Sanitized(es[k].header).Some? {
      KeepsSize(es[k].header);
      var h := Sanitized(es[k].header).value;
      TotalSnoc(PassedOn(es[..k]), Entry(h, if h.kind == Regular then es[k].body else []));
      var upTo := es[..k + 1];
      forall i | 0 <= i < |upTo| ensures Sanitized(upTo[i].header).Some? {
        if i < k { assert upTo[i] == es[..k][i]; }
      }
    }
  }

  lemma {:induction false} TotalSnoc(es: seq<Entry>, e: Entry)
    ensures TotalSize(es + [e]) == TotalSize(es) + e.header.size
  {
    assert (es + [e])[..|es|] == es;
  }

  lemma {:induction false} KeepsSize(h: Header)
    requires Sanitized(h).Some?
    ensures Sanitized(h).value.size == h.size && Sanitized(h).value.kind == h.kind
  {
  }

  /** Sizes only add up: a prefix is no larger than the whole. */
  lemma {:induction false} TotalGrows(es: seq<Entry>, k: nat)
    requires k <= |es|
    ensures TotalSize(es[..k]) <= TotalSize(es)
    ensures k > 0 ==> TotalSize(es[..k]) == TotalSize(es[..k - 1]) + es[k - 1].header.size
    decreases |es|
  {
    if k == |es| {
      assert es[..k] == es;
    } else {
      TotalGrows(es[..|es| - 1], k);
      assert es[..|es| - 1][..k] == es[..k];
      if k > 0 { assert es[..k][..k - 1] == es[..k - 1]; }
    }
  }
}
