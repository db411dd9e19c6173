/** Slash-separated paths: Go's path.Clean as a stack machine over components, and the checks
    internal/files/validate.go builds on it. */
module Paths {
  const DOT := "."
  const DOTDOT := ".."

  /** strings.Split(s, "/"): never empty, and an empty string has one empty component. */
  function Split(s: string): (r: seq<string>)
    ensures |r| > 0
    ensures forall i :: 0 <= i < |r| ==> '/' !in r[i]
    decreases |s|
  {
    var i := FirstSlash(s, 0);
    if i == |s| then [s] else [s[..i]] + Split(s[i + 1..])
  }

  function FirstSlash(s: string, k: nat): (r: nat)
    requires k <= |s|
    ensures k <= r <= |s| && (r < |s| ==> s[r] == '/')
    ensures forall i :: k <= i < r ==> s[i] != '/'
    decreases |s| - k
  {
    if k == |s| || s[k] == '/' then k else FirstSlash(s, k + 1)
  }

  function Join(cs: seq<string>): string {
    if cs == [] then "" else if |cs| == 1 then cs[0] else cs[0] + "/" + Join(cs[1..])
  }

  /** One component on the stack of those kept so far. */
  function Push(rooted: bool, out: seq<string>, c: string): seq<string> {
    if c == "" || c == DOT then out
    else if c != DOTDOT then out + [c]
    else if out != [] && out[|out| - 1] != DOTDOT then out[..|out| - 1]
    else if rooted then out
    else out + [c]
  }

  function PushAll(rooted: bool, out: seq<string>, cs: seq<string>): seq<string>
    decreases |cs|
  {
    if cs == [] then out else PushAll(rooted, Push(rooted, out, cs[0]), cs[1..])
  }

  function Normal(rooted: bool, cs: seq<string>): seq<string> {
    PushAll(rooted, [], cs)
  }

  predicate Absolute(s: string) {
    s != "" && s[0] == '/'
  }

  function Render(rooted: bool, out: seq<string>): string {
    if rooted then "/" + Join(out) else if out == [] then DOT else Join(out)
  }

  /** path.Clean. */
  function Clean(s: string): string {
    Render(Absolute(s), Normal(Absolute(s), Split(s)))
  }

  predicate HasPrefix(s: string, p: string) {
    |p| <= |s| && s[..|p|] == p
  }

  // ---------------------------------------------------------------- normal forms

  ghost predicate Name(c: string) {
    c != "" && c != DOT && '/' !in c
  }

  /** A stack of names with `..` only as a leading run, and none under a root. */
  ghost predicate NormalOk(rooted: bool, out: seq<string>) {
    && (forall i :: 0 <= i < |out| ==> Name(out[i]))
    && (forall i :: 0 < i < |out| && out[i] == DOTDOT ==> out[i - 1] == DOTDOT)
    && (rooted ==> forall i :: 0 <= i < |out| ==> out[i] != DOTDOT)
  }

  lemma {:induction false} PushKeepsNormal(rooted: bool, out: seq<string>, c: string)
    requires NormalOk(rooted, out) && '/' !in c
    ensures NormalOk(rooted, Push(rooted, out, c))
  {
    hide Name;
    var out' := Push(rooted, out, c);
    if |out'| == |out| + 1 {
      assert Name(c) by { NameOf(c); }
    }
  }

  lemma {:induction false} NameOf(c: string)
    requires '/' !in c
    ensures c != "" && c != DOT ==> Name(c)
    ensures Name(c) ==> c != "" && c != DOT
    ensures Name(DOTDOT)
  {
  }

  lemma {:induction false} PushAllKeepsNormal(rooted: bool, out: seq<string>, cs: seq<string>)
    requires NormalOk(rooted, out) && forall i :: 0 <= i < |cs| ==> '/' !in cs[i]
    ensures NormalOk(rooted, PushAll(rooted, out, cs))
    decreases |cs|
  {
    hide NormalOk, Push;
    if cs != [] {
      PushKeepsNormal(rooted, out, cs[0]);
      PushAllKeepsNormal(rooted, Push(rooted, out, cs[0]), cs[1..]);
    }
  }

  lemma {:induction false} NormalIsNormal(rooted: bool, cs: seq<string>)
    requires forall i :: 0 <= i < |cs| ==> '/' !in cs[i]
    ensures NormalOk(rooted, Normal(rooted, cs))
  {
    PushAllKeepsNormal(rooted, [], cs);
  }

  /** Pushing what is already normal just appends it, component by component. */
  lemma {:induction false} PushNormal(rooted: bool, all: seq<string>, k: nat)
    requires NormalOk(rooted, all) && k <= |all|
    ensures PushAll(rooted, all[..k], all[k..]) == all
    decreases |all| - k
  {
    if k < |all| {
      assert Name(all[k]);
      PushNext(rooted, all, k);
      assert all[k..][1..] == all[k + 1..];
      hide NormalOk, Push, Name;
      PushNormal(rooted, all, k + 1);
    } else {
      assert all[..k] == all && all[k..] == [];
    }
  }

  lemma {:induction false} PushNext(rooted: bool, all: seq<string>, k: nat)
    requires NormalOk(rooted, all) && k < |all|
    ensures Push(rooted, all[..k], all[k]) == all[..k + 1]
  {
    assert Name(all[k]);
    assert all[..k + 1] == all[..k] + [all[k]];
  }

  lemma {:induction false} PushAllJoin(rooted: bool, out: seq<string>, a: seq<string>, b: seq<string>)
    ensures PushAll(rooted, out, a + b) == PushAll(rooted, PushAll(rooted, out, a), b)
    decreases |a|
  {
    hide Push;
    if a == [] {
      assert a + b == b;
    } else {
      assert (a + b)[1..] == a[1..] + b;
      PushAllJoin(rooted, Push(rooted, out, a[0]), a[1..], b);
    }
  }

  /** Components of a normal form are their own normal form, also with more behind them. */
  lemma {:induction false} NormalOfNormal(rooted: bool, out: seq<string>, more: seq<string>)
    requires NormalOk(rooted, out)
    ensures Normal(rooted, out + more) == PushAll(rooted, out, more)
  {
    PushAllJoin(rooted, [], out, more);
    PushNormal(rooted, out, 0);
    assert out[..0] == [] && out[0..] == out;
  }

  // ---------------------------------------------------------------- splitting and joining

  lemma {:induction false} FirstSlashIs(s: string, r: nat)
    requires r <= |s| && (r < |s| ==> s[r] == '/') && forall i :: 0 <= i < r ==> s[i] != '/'
    ensures FirstSlash(s, 0) == r
  {
  }

  lemma {:induction false} SplitOne(a: string, rest: string)
    requires '/' !in a
    ensures Split(a) == [a] && Split(a + "/" + rest) == [a] + Split(rest)
  {
    var s := a + "/" + rest;
    forall i | 0 <= i < |a| ensures s[i] != '/' { assert s[i] == a[i]; }
    FirstSlashIs(s, |a|);
    FirstSlashIs(a, |a|);
    assert s[..|a|] == a && s[|a| + 1..] == rest;
  }

  lemma {:induction false} SplitJoin(cs: seq<string>)
    requires cs != [] && forall i :: 0 <= i < |cs| ==> '/' !in cs[i]
    ensures Split(Join(cs)) == cs
    decreases |cs|
  {
    hide Split, FirstSlash, Join;
    var rest := cs[1..];
    assert cs == [cs[0]] + rest;
    JoinStep(cs);
    if rest == [] {
      SplitOne(cs[0], "");
    } else {
      SplitJoin(rest);
      SplitOne(cs[0], Join(rest));
    }
  }

  lemma {:induction false} JoinStep(cs: seq<string>)
    requires cs != []
    ensures Join(cs) == if cs[1..] == [] then cs[0] else cs[0] + "/" + Join(cs[1..])
  {
  }

  lemma {:induction false} SplitTwo(a: string, b: string)
    ensures Split(a + "/" + b) == Split(a) + Split(b)
    decreases |a|
  {
    hide FirstSlash, Split;
    var i := FirstSlash(a, 0);
    if i == |a| {
      SplitOne(a, b);
    } else {
      var head, tail := a[..i], a[i + 1..];
      SplitTwo(tail, b);
      CutAt(a, b, i);
      SplitOne(head, tail);
      SplitOne(head, tail + "/" + b);
      assert [head] + (Split(tail) + Split(b)) == ([head] + Split(tail)) + Split(b);
    }
  }

  lemma {:induction false} CutAt(a: string, b: string, i: nat)
    requires i < |a| && a[i] == '/'
    ensures a == a[..i] + "/" + a[i + 1..] && a + "/" + b == a[..i] + "/" + (a[i + 1..] + "/" + b)
  {
  }

  /** The components of a rendered normal form normalise back to it, with more behind them. */
  lemma {:induction false} NormalOfRendered(out: seq<string>, more: seq<string>)
    requires NormalOk(false, out)
    ensures Normal(false, Split(Render(false, out)) + more) == PushAll(false, out, more)
    ensures !Absolute(Render(false, out))
  {
    if out == [] {
      SplitOne(DOT, "");
      assert Split(DOT) + more == [DOT] + more;
      assert ([DOT] + more)[1..] == more;
    } else {
      assert Name(out[0]);
      forall i | 0 <= i < |out| ensures '/' !in out[i] { assert Name(out[i]); }
      SplitJoin(out);
      NormalOfNormal(false, out, more);
      JoinStart(out);
    }
  }

  lemma {:induction false} JoinStart(out: seq<string>)
    requires out != [] && out[0] != ""
    ensures Join(out) != "" && Join(out)[0] == out[0][0]
    ensures |out| > 1 ==> Join(out) == out[0] + "/" + Join(out[1..])
  {
  }

  /** Cleaning is idempotent, for relative and absolute paths alike. */
  lemma {:induction false} CleanTwice(s: string)
    ensures Clean(Clean(s)) == Clean(s)
  {
    hide Split, Push, PushAll, NormalOk, Name;
    var out := Normal(Absolute(s), Split(s));
    NormalIsNormal(Absolute(s), Split(s));
    if Absolute(s) {
      RootedRendered(out);
    } else {
      NormalOfRendered(out, []);
      assert Split(Render(false, out)) + [] == Split(Render(false, out));
      PushNothing(false, out);
    }
  }

  lemma {:induction false} PushNothing(rooted: bool, out: seq<string>)
    ensures PushAll(rooted, out, []) == out
  {
  }

  lemma {:induction false} RootedRendered(out: seq<string>)
    requires NormalOk(true, out)
    ensures Absolute(Render(true, out)) && Normal(true, Split(Render(true, out))) == out
  {
    forall i | 0 <= i < |out| ensures '/' !in out[i] { assert Name(out[i]); }
    SplitOne("", Join(out));
    assert "/" + Join(out) == "" + "/" + Join(out);
    if out == [] {
      SplitOne("", "");
      assert Normal(true, ["", ""]) == [] by { EmptyComponents(); }
    } else {
      SplitJoin(out);
      PushAllJoin(true, [], [""], out);
      NormalOfNormal(true, out, []);
      assert out + [] == out;
      OneEmpty();
    }
  }

  lemma {:induction false} EmptyComponents()
    ensures Normal(true, ["", ""]) == []
  {
    var two := ["", ""];
    assert two[1..] == [""] && two[1..][1..] == [];
  }

  lemma {:induction false} OneEmpty()
    ensures PushAll(true, [], [""]) == []
  {
    assert [""][1..] == [];
  }

  // ---------------------------------------------------------------- leaving the destination

  /** How often a list of components climbs, and how often it descends; empty ones and dots stay. */
  function Ups(cs: seq<string>): nat {
    if cs == [] then 0 else Ups(cs[..|cs| - 1]) + if cs[|cs| - 1] == DOTDOT then 1 else 0
  }

  function Downs(cs: seq<string>): nat {
    if cs == [] then 0
    else
      var c := cs[|cs| - 1];
      Downs(cs[..|cs| - 1]) + if c != "" && c != DOT && c != DOTDOT then 1 else 0
  }

  /** A relative path leads outside: at some point it has climbed more often than it has descended. */
  ghost predicate Escapes(cs: seq<string>) {
    exists k: nat :: k <= |cs| && Ups(cs[..k]) > Downs(cs[..k])
  }

  /** What the normal form shows of that: it starts with `..`. */
  ghost predicate LeadsUp(cs: seq<string>) {
    var out := Normal(false, cs);
    out != [] && out[0] == DOTDOT
  }

  lemma {:induction false} NormalSnoc(cs: seq<string>, c: string)
    ensures Normal(false, cs + [c]) == Push(false, Normal(false, cs), c) && Normal(false, []) == []
  {
    hide Push;
    PushAllJoin(false, [], cs, [c]);
    assert [c][1..] == [];
  }

  /** The normal form starts with `..` exactly for the paths that lead outside; the others keep one
      component for each step down that was not climbed back. */
  lemma {:induction false} EscapesExactly(cs: seq<string>)
    ensures Escapes(cs) <==> LeadsUp(cs)
    ensures !Escapes(cs) ==> |Normal(false, cs)| == Downs(cs) - Ups(cs) && DOTDOT !in Normal(false, cs)
    decreases |cs|
  {
    if cs == [] {
      NormalSnoc([], "");
    } else {
      var init, c := cs[..|cs| - 1], cs[|cs| - 1];
      assert cs == init + [c];
      EscapesExactly(init);
      EscapesNext(cs);
      NormalSnoc(init, c);
      hide Normal, Escapes;
      var out := Normal(false, init);
      assert out != [] && out[0] == DOTDOT ==> Push(false, out, c) != [] && Push(false, out, c)[0] == DOTDOT;
    }
  }

  lemma {:induction false} EscapesNext(cs: seq<string>)
    requires cs != []
    ensures Escapes(cs) <==> Escapes(cs[..|cs| - 1]) || Ups(cs) > Downs(cs)
  {
    hide Ups, Downs;
    var init := cs[..|cs| - 1];
    assert cs[..|cs|] == cs;
    forall k: nat | k <= |init| ensures init[..k] == cs[..k] {}
    if Escapes(init) {
      var k: nat :| k <= |init| && Ups(init[..k]) > Downs(init[..k]);
      assert Ups(cs[..k]) > Downs(cs[..k]);
    }
    if Escapes(cs) {
      var k: nat :| k <= |cs| && Ups(cs[..k]) > Downs(cs[..k]);
      if k < |cs| { assert Ups(init[..k]) > Downs(init[..k]); }
    }
  }

  /** The source's test on a cleaned string. */
  predicate LooksEscaping(cleaned: string) {
    cleaned == DOTDOT || HasPrefix(cleaned, "../")
  }

  /** The string prefix test decides exactly whether the normal form starts with `..`. */
  lemma {:induction false} PrefixTestIsExact(out: seq<string>)
    requires NormalOk(false, out)
    ensures LooksEscaping(Render(false, out)) <==> out != [] && out[0] == DOTDOT
  {
    if out != [] {
      assert Name(out[0]);
      hide NormalOk;
      var r := Join(out);
      if |out| > 1 {
        JoinStart(out);
        FirstComponent(out[0], Join(out[1..]));
      } else {
        OnlyComponent(out[0]);
      }
    }
  }

  lemma {:induction false} FirstComponent(c: string, rest: string)
    requires Name(c)
    ensures LooksEscaping(c + "/" + rest) <==> c == DOTDOT
  {
    var r := c + "/" + rest;
    assert r[|c|] == '/';
    forall i | 0 <= i < |c| ensures r[i] == c[i] != '/' {
      assert c[i] in c;
    }
    if HasPrefix(r, "../") {
      assert r[..3][0] == '.' && r[..3][1] == '.' && r[..3][2] == '/';
      assert r[0] == '.' && r[1] == '.' && r[2] == '/';
      assert |c| == 2;
      assert c == DOTDOT;
    }
    if c == DOTDOT {
      assert r[..3] == "../";
    }
  }

  lemma {:induction false} OnlyComponent(c: string)
    requires Name(c)
    ensures LooksEscaping(c) <==> c == DOTDOT
  {
    assert |c| >= 3 ==> c[2] != '/' && c[..3][2] == c[2];
    assert "../"[2] == '/';
  }

  // ---------------------------------------------------------------- components as text

  /** A component stands at a place of a path: between slashes or the ends. */
  ghost predicate StandsAt(s: string, c: string, i: nat) {
    && i + |c| <= |s| && s[i..i + |c|] == c
    && (i == 0 || s[i - 1] == '/') && (i + |c| == |s| || s[i + |c|] == '/')
  }

  /** The components of a path are exactly the texts that stand between its slashes. */
  lemma {:induction false} ComponentsStand(s: string, c: string)
    requires '/' !in c
    ensures c in Split(s) <==> exists i: nat :: StandsAt(s, c, i)
    decreases |s|
  {
    hide StandsAt;
    var k := FirstSlash(s, 0);
    FirstStands(s, c, k);
    if k < |s| {
      var rest := s[k + 1..];
      assert Split(s) == [s[..k]] + Split(rest);
      hide Split, FirstSlash;
      ComponentsStand(rest, c);
      if exists i: nat :: StandsAt(rest, c, i) {
        var i: nat :| StandsAt(rest, c, i);
        StandsBehind(s, c, k, i + k + 1);
        assert StandsAt(s, c, i + k + 1);
      }
      if exists i: nat :: StandsAt(s, c, i) && i > 0 {
        var i: nat :| StandsAt(s, c, i) && i > 0;
        BehindFirst(s, c, k, i);
        StandsBehind(s, c, k, i);
        assert StandsAt(rest, c, i - k - 1);
      }
    } else {
      assert s[..k] == s && Split(s) == [s];
      forall i: nat | StandsAt(s, c, i) ensures i == 0 {
        BehindFirst(s, c, k, i);
      }
    }
  }

  lemma {:induction false} FirstStands(s: string, c: string, k: nat)
    requires '/' !in c && k <= |s| && (k < |s| ==> s[k] == '/') && forall i :: 0 <= i < k ==> s[i] != '/'
    ensures StandsAt(s, c, 0) <==> c == s[..k]
  {
    assert k < |c| ==> c[k] in c && c[k] != '/';
    if StandsAt(s, c, 0) {
      assert |c| == k;
    }
  }

  lemma {:induction false} BehindFirst(s: string, c: string, k: nat, i: nat)
    requires StandsAt(s, c, i) && k <= |s| && forall j :: 0 <= j < k ==> s[j] != '/'
    ensures i <= |s| && (i == 0 || k < i)
  {
  }

  lemma {:induction false} StandsBehind(s: string, c: string, k: nat, i: nat)
    requires k < |s| && s[k] == '/' && k < i
    ensures StandsAt(s, c, i) <==> StandsAt(s[k + 1..], c, i - k - 1)
  {
    var rest := s[k + 1..];
    if i + |c| <= |s| {
      assert rest[i - k - 1..i - k - 1 + |c|] == s[i..i + |c|];
    }
  }
}
