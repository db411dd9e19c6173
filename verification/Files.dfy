/** Writing one file into a sandbox and reading it back (internal/files/write.go,
    internal/files/service.go), over the fake container filesystem
    (internal/runtime/fake/filesystem.go). A cleaned absolute path is its list of components, the
    root the empty list; a tar name is the list of components below the destination. */
module Files {
  import opened Wrappers
  import opened Paths

  type AbsPath = seq<string>

  datatype Node = Node(isDir: bool, regular: bool, mode: nat, data: seq<int>)

  const NEW_DIR := Node(true, true, 0x1ED, [])

  function NewFile(body: seq<int>): Node { Node(false, true, 0x1A4, body) }

  datatype Error =
    | InvalidPath
    | BodyError
    | TooLarge
    | ContainerGone
    | NotRegular
    | NotDirectory
    | PathNotFound
    | Unsupported

  datatype EntryKind = DirEntry | FileEntry | OtherEntry

  datatype TarEntry = TarEntry(kind: EntryKind, name: seq<string>, mode: nat, body: seq<int>)

  // ---------------------------------------------------------------- paths

  datatype Validated = Rejected | Accepted(path: AbsPath)

  /** ValidatePath: absolute, without a `..` component, then cleaned. */
  function ValidatePath(p: string): Validated {
    if p == "" || !HasPrefix(p, "/") || DOTDOT in Split(p) then Rejected
    else Accepted(Normal(true, Split(p)))
  }

  function Kept(cs: seq<string>): seq<string> {
    if cs == [] then [] else (if cs[0] == "" || cs[0] == DOT then [] else [cs[0]]) + Kept(cs[1..])
  }

  /** An accepted path is its own components in order, without the empty ones and the dots; as a
      string it is what path.Clean returns, and validating that again changes nothing. */
  lemma {:induction false} ValidatedIsCleaned(p: string)
    requires ValidatePath(p).Accepted?
    ensures ValidatePath(p).path == Kept(Split(p))
    ensures Clean(p) == Render(true, ValidatePath(p).path)
    ensures ValidatePath(Clean(p)) == ValidatePath(p)
  {
    hide Split, Push, NormalOk;
    assert p[..1] == "/" && Absolute(p);
    KeptIsPushed([], Split(p));
    var out := Normal(true, Split(p));
    NormalIsNormal(true, Split(p));
    RootedRendered(out);
    assert Clean(p)[..1] == "/";
    NoDotDot(out);
  }

  /** Which paths are accepted: those that start with a slash and have no two dots standing alone
      between slashes. */
  lemma {:induction false} AcceptedPaths(p: string)
    ensures ValidatePath(p).Accepted? <==> p != "" && p[0] == '/' && !exists i: nat :: StandsAt(p, DOTDOT, i)
  {
    hide Split, StandsAt;
    ComponentsStand(p, DOTDOT);
    assert p != "" ==> (p[..1] == "/" <==> p[0] == '/');
  }

  lemma {:induction false} NoDotDot(out: seq<string>)
    requires NormalOk(true, out)
    ensures DOTDOT !in Split(Render(true, out))
  {
    assert "/" + Join(out) == "" + "/" + Join(out);
    SplitOne("", Join(out));
    if out == [] {
      SplitOne("", "");
    } else {
      forall i | 0 <= i < |out| ensures '/' !in out[i] { assert Name(out[i]); }
      SplitJoin(out);
    }
  }

  lemma {:induction false} KeptIsPushed(out: seq<string>, cs: seq<string>)
    requires DOTDOT !in cs
    ensures PushAll(true, out, cs) == out + Kept(cs)
    decreases |cs|
  {
    if cs != [] {
      assert DOTDOT !in cs[1..] && cs[0] in cs;
      KeptIsPushed(Push(true, out, cs[0]), cs[1..]);
    }
  }

  // ---------------------------------------------------------------- the tree

  /** Every node's parent is there and is a directory; the root is a directory. */
  ghost predicate WellFormed(files: map<AbsPath, Node>) {
    && [] in files && files[[]].isDir
    && forall p :: p in files && p != [] ==> p[..|p| - 1] in files && files[p[..|p| - 1]].isDir
  }

  lemma {:induction false} PrefixesAreDirs(files: map<AbsPath, Node>, p: AbsPath, k: nat)
    requires WellFormed(files) && p in files && k < |p|
    ensures p[..k] in files && files[p[..k]].isDir
    decreases |p| - k
  {
    if k + 1 < |p| {
      PrefixesAreDirs(files, p, k + 1);
      assert p[..k + 1][..k] == p[..k];
    }
  }

  function Filled(files: map<AbsPath, Node>, p: AbsPath, k: nat): map<AbsPath, Node>
    requires k <= |p|
  {
    if k == 0 then files
    else
      var before := Filled(files, p, k - 1);
      if p[..k - 1] in before then before else before[p[..k - 1] := NEW_DIR]
  }

  /** What one tar entry does below a destination. */
  function Applied(files: map<AbsPath, Node>, dest: AbsPath, e: TarEntry): map<AbsPath, Node> {
    var target := dest + e.name;
    match e.kind
    case DirEntry => files[target := Node(true, true, e.mode, [])]
    case FileEntry => Filled(files, target, |target|)[target := Node(false, true, e.mode, e.body)]
    case OtherEntry => files
  }

  function AppliedAll(files: map<AbsPath, Node>, dest: AbsPath, es: seq<TarEntry>): map<AbsPath, Node> {
    if es == [] then files else Applied(AppliedAll(files, dest, es[..|es| - 1]), dest, es[|es| - 1])
  }

  /** How many entries come before the first that cannot be unpacked. */
  function Supported(es: seq<TarEntry>): (n: nat)
    ensures n <= |es|
  {
    if es == [] || es[0].kind == OtherEntry then 0 else 1 + Supported(es[1..])
  }

  lemma {:induction false} SupportedUpTo(es: seq<TarEntry>, i: nat)
    requires i <= |es| && forall j :: 0 <= j < i ==> es[j].kind != OtherEntry
    ensures i == |es| || es[i].kind == OtherEntry ==> Supported(es) == i
    decreases |es|
  {
    if i > 0 {
      SupportedUpTo(es[1..], i - 1);
    }
  }

  /** A node in the archive of a path: named by the path's base and what comes below it. */
  function NodeEntry(p: AbsPath, q: AbsPath, n: Node): TarEntry
    requires p <= q
  {
    var base := if p == [] then "/" else p[|p| - 1];
    TarEntry(if n.isDir then DirEntry else FileEntry, [base] + q[|p|..], n.mode, n.data)
  }

  class Tree {
    var files: map<AbsPath, Node>
    var gone: bool

    constructor (files: map<AbsPath, Node>)
      ensures this.files == files && !gone
    {
      this.files, gone := files, false;
    }

    method StatPath(p: AbsPath) returns (r: Option<Node>, err: Error)
      ensures r == if !gone && p in files then Some(files[p]) else None
      ensures r == None ==> err == if gone then ContainerGone else PathNotFound
    {
      if gone {
        return None, ContainerGone;
      }
      if p !in files {
        return None, PathNotFound;
      }
      return Some(files[p]), PathNotFound;
    }

    /** ReadArchive: the one entry of a file, or an entry for each node of a directory's tree. */
    method ReadArchive(p: AbsPath) returns (es: seq<TarEntry>, err: Option<Error>)
      ensures err == if gone then Some(ContainerGone) else if p !in files then Some(PathNotFound) else None
      ensures err.Some? ==> es == []
      ensures err.None? && !files[p].isDir ==> es == [NodeEntry(p, p, files[p])]
      ensures err.None? && files[p].isDir ==>
                && es != [] && es[0] == NodeEntry(p, p, files[p])
                && forall e :: e in es <==> exists q :: q in files && p <= q && e == NodeEntry(p, q, files[q])
    {
      if gone {
        return [], Some(ContainerGone);
      }
      if p !in files {
        return [], Some(PathNotFound);
      }
      if !files[p].isDir {
        return [NodeEntry(p, p, files[p])], None;
      }
      es := [NodeEntry(p, p, files[p])];
      var todo := files.Keys - {p};
      while todo != {}
        invariant todo <= files.Keys && es != [] && es[0] == NodeEntry(p, p, files[p])
        invariant forall e ::
                    e in es <==> exists q :: q in files.Keys - todo && p <= q && e == NodeEntry(p, q, files[q])
        decreases |todo|
      {
        var q :| q in todo;
        ghost var before := todo;
        todo := todo - {q};
        assert files.Keys - todo == (files.Keys - before) + {q};
        if p <= q {
          es := es + [NodeEntry(p, q, files[q])];
        }
      }
      return es, None;
    }

    /** WriteArchive: entry by entry into the map, creating missing ancestors of files, up to an
        entry that is neither directory nor regular file, which is refused. */
    method WriteArchive(dest: AbsPath, es: seq<TarEntry>) returns (err: Option<Error>)
      modifies this
      ensures gone == old(gone)
      ensures err == if gone then Some(ContainerGone)
                     else if dest !in old(files) || !old(files)[dest].isDir then Some(PathNotFound)
                     else if Supported(es) < |es| then Some(Unsupported) else None
      ensures files == if err.None? || err == Some(Unsupported) then AppliedAll(old(files), dest, es[..Supported(es)])
                       else old(files)
    {
      if gone {
        return Some(ContainerGone);
      }
      if dest !in files || !files[dest].isDir {
        return Some(PathNotFound);
      }
      assert es[..0] == [];
      for i := 0 to |es|
        invariant files == AppliedAll(old(files), dest, es[..i]) && gone == old(gone)
        invariant forall j :: 0 <= j < i ==> es[j].kind != OtherEntry
      {
        assert es[..i + 1][..i] == es[..i];
        var target := dest + es[i].name;
        SupportedUpTo(es, i);
        match es[i].kind
        case OtherEntry =>
          return Some(Unsupported);
        case DirEntry =>
          files := files[target := Node(true, true, es[i].mode, [])];
        case FileEntry =>
          ghost var before := files;
          for k := 0 to |target|
            invariant files == Filled(before, target, k) && gone == old(gone)
          {
            if target[..k] !in files {
              files := files[target[..k] := NEW_DIR];
            }
          }
          files := files[target := Node(false, true, es[i].mode, es[i].body)];
      }
      SupportedUpTo(es, |es|);
      return None;
    }
  }

  // ---------------------------------------------------------------- writing

  /** The length of the longest proper prefix of a path that exists, if any does. */
  ghost predicate DeepestIs(files: map<AbsPath, Node>, p: AbsPath, k: nat) {
    k < |p| && p[..k] in files && forall j :: k < j < |p| ==> p[..j] !in files
  }

  ghost predicate Blocked(files: map<AbsPath, Node>, p: AbsPath) {
    exists k: nat :: DeepestIs(files, p, k) && !files[p[..k]].isDir
  }

  /** deepestExistingAncestor: the anchor, the missing names below it, and with the base name they
      make up the target again. */
  method DeepestExistingAncestor(t: Tree, target: AbsPath)
    returns (anchor: AbsPath, missing: seq<string>, err: Option<Error>)
    requires target != []
    ensures err == None ==>
              && DeepestIs(t.files, target, |anchor|) && anchor == target[..|anchor|]
              && t.files[anchor].isDir && !t.gone
              && anchor + missing + [target[|target| - 1]] == target
    ensures err == Some(NotDirectory) ==>
              !t.gone && Blocked(t.files, target)
    ensures err.Some? ==> err.value == NotDirectory || (err.value == ContainerGone && t.gone) ||
                          (err.value == PathNotFound && !t.gone && [] !in t.files)
  {
    missing := [];
    var dir := target[..|target| - 1];
    while true
      invariant |dir| < |target| && dir == target[..|dir|]
      invariant missing == target[|dir|..|target| - 1]
      invariant forall j :: |dir| < j < |target| ==> target[..j] !in t.files
      decreases |dir|
    {
      var info, statErr := t.StatPath(dir);
      if info.Some? {
        if !info.value.isDir {
          assert DeepestIs(t.files, target, |dir|);
          return [], [], Some(NotDirectory);
        }
        return dir, missing, None;
      }
      if statErr != PathNotFound {
        return [], [], Some(statErr);
      }
      if dir == [] {
        return [], [], Some(PathNotFound);
      }
      missing := [dir[|dir| - 1]] + missing;
      dir := dir[..|dir| - 1];
    }
  }

  /** The archive for one file: each missing directory from the top, then the file. */
  function TarOf(missing: seq<string>, name: string, body: seq<int>): seq<TarEntry> {
    DirEntries(missing, |missing|) + [TarEntry(FileEntry, missing + [name], 0x1A4, body)]
  }

  function DirEntries(missing: seq<string>, k: nat): (es: seq<TarEntry>)
    requires k <= |missing|
    ensures |es| == k
  {
    seq(k, i requires 0 <= i < k => TarEntry(DirEntry, missing[..i + 1], 0x1ED, []))
  }

  method BuildFileTar(missing: seq<string>, name: string, body: seq<int>) returns (es: seq<TarEntry>)
    ensures es == TarOf(missing, name, body)
  {
    es := [];
    var prefix: seq<string> := [];
    for i := 0 to |missing|
      invariant prefix == missing[..i] && es == DirEntries(missing, i)
    {
      prefix := prefix + [missing[i]];
      es := es + [TarEntry(DirEntry, prefix, 0x1ED, [])];
    }
    assert prefix == missing;
    es := es + [TarEntry(FileEntry, prefix + [name], 0x1A4, body)];
  }

  /** The tree after a write: the file holds the body, its missing ancestors are new directories,
      every other node is as it was. */
  ghost predicate WrittenTo(files: map<AbsPath, Node>, files': map<AbsPath, Node>, target: AbsPath, body: seq<int>) {
    && target in files' && files'[target] == NewFile(body)
    && (forall q :: q in files && q != target ==> q in files' && files'[q] == files[q])
    && (forall q :: q in files' && q !in files && q != target ==>
          |q| < |target| && q == target[..|q|] && files'[q] == NEW_DIR)
    && (forall k :: 0 <= k < |target| ==> target[..k] in files')
  }

  /** The directories on the way to the target longer than a and up to m have been added. */
  ghost predicate DirsAdded(files: map<AbsPath, Node>, files': map<AbsPath, Node>, target: AbsPath, a: nat, m: nat) {
    && m <= |target|
    && (forall q :: q in files ==> q in files' && files'[q] == files[q])
    && (forall q :: q in files' && q !in files ==> a < |q| <= m && q == target[..|q|] && files'[q] == NEW_DIR)
    && (forall j :: a < j <= m ==> target[..j] in files')
  }

  lemma {:induction false} DirsApplied(
      files: map<AbsPath, Node>, target: AbsPath, anchor: AbsPath, missing: seq<string>, k: nat)
    requires k <= |missing| && anchor + missing <= target
    requires forall j :: |anchor| < j < |target| ==> target[..j] !in files
    requires |anchor + missing| < |target|
    ensures DirsAdded(files, AppliedAll(files, anchor, DirEntries(missing, k)), target, |anchor|, |anchor| + k)
    decreases k
  {
    hide DirsAdded, Applied;
    if k == 0 {
      NoDirsYet(files, target, |anchor|);
    } else {
      DirsApplied(files, target, anchor, missing, k - 1);
      var es := DirEntries(missing, k);
      assert es[..k - 1] == DirEntries(missing, k - 1);
      var before := AppliedAll(files, anchor, es[..k - 1]);
      assert anchor + missing[..k] == target[..|anchor| + k];
      OneMoreDir(files, before, target, |anchor|, |anchor| + k - 1);
      ApplyDir(before, anchor, missing[..k]);
    }
  }

  lemma {:induction false} ApplyDir(files: map<AbsPath, Node>, dest: AbsPath, name: seq<string>)
    ensures Applied(files, dest, TarEntry(DirEntry, name, 0x1ED, [])) == files[dest + name := NEW_DIR]
  {
  }

  lemma {:induction false} NoDirsYet(files: map<AbsPath, Node>, target: AbsPath, a: nat)
    requires a <= |target|
    ensures DirsAdded(files, files, target, a, a)
  {
  }

  lemma {:induction false} OneMoreDir(
      files: map<AbsPath, Node>, before: map<AbsPath, Node>, target: AbsPath, a: nat, m: nat)
    requires DirsAdded(files, before, target, a, m) && a <= m && m + 1 < |target| && target[..m + 1] !in files
    ensures DirsAdded(files, before[target[..m + 1] := NEW_DIR], target, a, m + 1)
  {
  }

  lemma {:induction false} NothingToFill(files: map<AbsPath, Node>, p: AbsPath, k: nat)
    requires k <= |p| && forall j :: 0 <= j < k ==> p[..j] in files
    ensures Filled(files, p, k) == files
    decreases k
  {
    if k > 0 {
      NothingToFill(files, p, k - 1);
    }
  }

  lemma {:induction false} TarWrites(
      files: map<AbsPath, Node>, target: AbsPath, anchor: AbsPath, missing: seq<string>, body: seq<int>)
    requires WellFormed(files) && target != [] && DeepestIs(files, target, |anchor|)
    requires anchor + missing + [target[|target| - 1]] == target
    ensures WrittenTo(files, AppliedAll(files, anchor, TarOf(missing, target[|target| - 1], body)), target, body)
  {
    hide DirsAdded, Applied, Filled, WellFormed;
    var n := |missing|;
    var name := target[|target| - 1];
    assert anchor + missing <= target && |target| == |anchor| + n + 1;
    DirsApplied(files, target, anchor, missing, n);
    var mid := AppliedAll(files, anchor, DirEntries(missing, n));
    AllThere(files, mid, target, |anchor|);
    var es := TarOf(missing, name, body);
    assert es[..n] == DirEntries(missing, n) && es[n] == TarEntry(FileEntry, missing + [name], 0x1A4, body);
    assert anchor + (missing + [name]) == target;
    NothingToFill(mid, target, |target|);
    ApplyFile(mid, anchor, missing + [name], body);
    FileOnTop(files, mid, target, |anchor|, body);
  }

  lemma {:induction false} ApplyFile(files: map<AbsPath, Node>, dest: AbsPath, name: seq<string>, body: seq<int>)
    requires Filled(files, dest + name, |dest + name|) == files
    ensures Applied(files, dest, TarEntry(FileEntry, name, 0x1A4, body)) == files[dest + name := NewFile(body)]
  {
  }

  lemma {:induction false} AllThere(files: map<AbsPath, Node>, mid: map<AbsPath, Node>, target: AbsPath, a: nat)
    requires WellFormed(files) && DeepestIs(files, target, a) && DirsAdded(files, mid, target, a, |target| - 1)
    ensures forall k :: 0 <= k < |target| ==> target[..k] in mid
  {
    forall k | 0 <= k < |target| ensures target[..k] in mid {
      if k < a {
        PrefixesAreDirs(files, target[..a], k);
        assert target[..a][..k] == target[..k];
      }
    }
  }

  lemma {:induction false} FileOnTop(
      files: map<AbsPath, Node>, mid: map<AbsPath, Node>, target: AbsPath, a: nat, body: seq<int>)
    requires target != [] && DirsAdded(files, mid, target, a, |target| - 1)
    requires forall k :: 0 <= k < |target| ==> target[..k] in mid
    ensures WrittenTo(files, mid[target := NewFile(body)], target, body)
  {
  }

  /** A write into a well-formed tree, over no directory, leaves it well-formed. */
  lemma {:induction false} WriteKeepsTree(
      files: map<AbsPath, Node>, files': map<AbsPath, Node>, target: AbsPath, body: seq<int>)
    requires WellFormed(files) && WrittenTo(files, files', target, body) && target != []
    requires target in files ==> !files[target].isDir
    requires forall k :: 0 <= k < |target| && target[..k] in files ==> files[target[..k]].isDir
    ensures WellFormed(files')
  {
    forall p | p in files' && p != [] ensures p[..|p| - 1] in files' && files'[p[..|p| - 1]].isDir {
      var up := p[..|p| - 1];
      if p in files {
        assert up in files && files[up].isDir;
      } else {
        assert up == target[..|up|] && |up| < |target|;
        if up !in files { assert files'[up] == NEW_DIR; }
      }
    }
  }

  /** The error a write must report, from the tree it finds. */
  ghost function WriteError(
      files: map<AbsPath, Node>, gone: bool, path: string,
      body: seq<int>, bodyFails: bool, maxBytes: nat): Option<Error>
  {
    match ValidatePath(path)
    case Rejected => Some(InvalidPath)
    case Accepted(target) =>
      if target == [] then Some(InvalidPath)
      else if bodyFails then Some(BodyError)
      else if |body| > maxBytes then Some(TooLarge)
      else if gone then Some(ContainerGone)
      else if target in files && (files[target].isDir || !files[target].regular) then Some(NotRegular)
      else if Blocked(files, target) then Some(NotDirectory)
      else None
  }

  /** When a write succeeds: the path is accepted and not the root, the body can be read and fits, the
      container is there, and neither is there something other than a regular file at the target nor
      anything but directories on the way to it. */
  lemma {:induction false} WriteSucceedsExactly(
      files: map<AbsPath, Node>, gone: bool, path: string, body: seq<int>, bodyFails: bool, maxBytes: nat)
    requires WellFormed(files)
    ensures WriteError(files, gone, path, body, bodyFails, maxBytes) == None <==>
            && ValidatePath(path).Accepted? && ValidatePath(path).path != []
            && !bodyFails && |body| <= maxBytes && !gone
            && var target := ValidatePath(path).path;
               && (target in files ==> !files[target].isDir && files[target].regular)
               && forall k :: 0 <= k < |target| && target[..k] in files ==> files[target[..k]].isDir
  {
    hide ValidatePath;
    if ValidatePath(path).Accepted? && ValidatePath(path).path != [] {
      BlockedExactly(files, ValidatePath(path).path);
    }
  }

  /** And what the error of a write that fails says is so. */
  lemma {:induction false} WriteErrorsMean(
      files: map<AbsPath, Node>, gone: bool, path: string, body: seq<int>, bodyFails: bool, maxBytes: nat)
    requires WellFormed(files)
    ensures var target := if ValidatePath(path).Accepted? then ValidatePath(path).path else [];
            match WriteError(files, gone, path, body, bodyFails, maxBytes)
            case None => true
            case Some(InvalidPath) => ValidatePath(path).Rejected? || target == []
            case Some(BodyError) => bodyFails
            case Some(TooLarge) => |body| > maxBytes
            case Some(ContainerGone) => gone
            case Some(NotRegular) => target in files && (files[target].isDir || !files[target].regular)
            case Some(NotDirectory) =>
              exists k :: 0 <= k < |target| && target[..k] in files && !files[target[..k]].isDir
            case _ => false
  {
    hide ValidatePath;
    if ValidatePath(path).Accepted? && ValidatePath(path).path != [] {
      BlockedExactly(files, ValidatePath(path).path);
    }
  }

  lemma {:induction false} BlockedExactly(files: map<AbsPath, Node>, target: AbsPath)
    requires WellFormed(files) && target != []
    ensures Blocked(files, target) <==>
            exists k :: 0 <= k < |target| && target[..k] in files && !files[target[..k]].isDir
  {
    var deepest := DeepestExists(files, target, |target|);
    DeepestIsUnique(files, target, deepest);
    if files[target[..deepest]].isDir {
      AncestorsAreDirs(files, target, deepest);
    }
  }

  lemma {:induction false} DeepestExists(files: map<AbsPath, Node>, target: AbsPath, n: nat) returns (k: nat)
    requires [] in files && 0 < n <= |target| && forall j :: n <= j < |target| ==> target[..j] !in files
    ensures DeepestIs(files, target, k)
    decreases n
  {
    assert target[..0] == [];
    if target[..n - 1] in files {
      k := n - 1;
    } else {
      k := DeepestExists(files, target, n - 1);
    }
  }

  method Write(t: Tree, path: string, body: seq<int>, bodyFails: bool, maxBytes: nat) returns (err: Option<Error>)
    requires WellFormed(t.files)
    modifies t
    ensures err == WriteError(old(t.files), old(t.gone), path, body, bodyFails, maxBytes)
    ensures WellFormed(t.files) && t.gone == old(t.gone)
    ensures err.Some? ==> t.files == old(t.files)
    ensures err.None? ==> WrittenTo(old(t.files), t.files, ValidatePath(path).path, body)
  {
    hide ValidatePath, AppliedAll, TarOf;
    var cleaned := ValidatePath(path);
    if cleaned.Rejected? {
      return Some(InvalidPath);
    }
    var target := cleaned.path;
    if target == [] {
      return Some(InvalidPath);
    }
    if bodyFails {
      return Some(BodyError);
    }
    if |body| > maxBytes {
      return Some(TooLarge);
    }
    var info, statErr := t.StatPath(target);
    if info.Some? {
      if info.value.isDir {
        return Some(NotRegular);
      }
      if !info.value.regular {
        return Some(NotRegular);
      }
    } else if statErr != PathNotFound {
      return Some(statErr);
    }
    var anchor, missing, ancestorErr := DeepestExistingAncestor(t, target);
    if ancestorErr.Some? {
      return ancestorErr;
    }
    DeepestIsUnique(t.files, target, |anchor|);
    assert !Blocked(t.files, target);
    AncestorsAreDirs(t.files, target, |anchor|);
    TarWrites(t.files, target, anchor, missing, body);
    var archive := BuildFileTar(missing, target[|target| - 1], body);
    TarIsSupported(missing, target[|target| - 1], body);
    assert target[..|anchor|] in t.files;
    ghost var before := t.files;
    err := t.WriteArchive(anchor, archive);
    WriteKeepsTree(before, t.files, target, body);
  }

  lemma {:induction false} TarIsSupported(missing: seq<string>, name: string, body: seq<int>)
    ensures var es := TarOf(missing, name, body); Supported(es) == |es| && es[..|es|] == es
  {
    var es := TarOf(missing, name, body);
    SupportedUpTo(es, |es|);
  }

  lemma {:induction false} DeepestIsUnique(files: map<AbsPath, Node>, target: AbsPath, k: nat)
    requires DeepestIs(files, target, k)
    ensures forall j :: DeepestIs(files, target, j) ==> j == k
  {
  }

  lemma {:induction false} AncestorsAreDirs(files: map<AbsPath, Node>, target: AbsPath, k: nat)
    requires WellFormed(files) && DeepestIs(files, target, k) && files[target[..k]].isDir
    ensures forall j :: 0 <= j < |target| && target[..j] in files ==> files[target[..j]].isDir
  {
    forall j | 0 <= j < |target| && target[..j] in files ensures files[target[..j]].isDir {
      if j < k {
        PrefixesAreDirs(files, target[..k], j);
        assert target[..k][..j] == target[..j];
      }
    }
  }

  // ---------------------------------------------------------------- reading

  datatype ReadResult = ReadError(error: Error) | Content(node: Node, data: seq<int>)

  /** Reading takes no lock, so the tree may have changed between looking at the file and fetching
      its archive. */
  function ReadSpec(
      files: map<AbsPath, Node>, gone: bool, later: map<AbsPath, Node>, laterGone: bool, path: string): ReadResult
  {
    match ValidatePath(path)
    case Rejected => ReadError(InvalidPath)
    case Accepted(target) =>
      if gone then ReadError(ContainerGone)
      else if target !in files then ReadError(PathNotFound)
      else if files[target].isDir || !files[target].regular then ReadError(NotRegular)
      else if laterGone then ReadError(ContainerGone)
      else if target !in later then ReadError(PathNotFound)
      else if later[target].isDir then ReadError(NotRegular)
      else Content(files[target], later[target].data)
  }

  /** Read: two looks at the container. */
  method Read(t: Tree, later: Tree, path: string) returns (r: ReadResult)
    ensures r == ReadSpec(t.files, t.gone, later.files, later.gone, path)
  {
    hide Split;
    var cleaned := ValidatePath(path);
    if cleaned.Rejected? {
      return ReadError(InvalidPath);
    }
    var info, err := t.StatPath(cleaned.path);
    if info.None? {
      return ReadError(err);
    }
    if info.value.isDir {
      return ReadError(NotRegular);
    }
    if !info.value.regular {
      return ReadError(NotRegular);
    }
    var entries, readErr := later.ReadArchive(cleaned.path);
    if readErr.Some? {
      return ReadError(readErr.value);
    }
    if entries[0].kind != FileEntry {
      return ReadError(NotRegular);
    }
    return Content(info.value, entries[0].body);
  }

  /** What a read returns when nobody changes the tree meanwhile. */
  function ReadOf(files: map<AbsPath, Node>, path: string): ReadResult {
    ReadSpec(files, false, files, false, path)
  }

  /** Round trip: what a successful write put at a path is what reading any spelling of that path
      returns, and reading any other path is as before, except that a missing ancestor has become
      a directory. */
  lemma {:induction false} WriteThenRead(
      files: map<AbsPath, Node>, files': map<AbsPath, Node>, path: string, other: string, body: seq<int>)
    requires ValidatePath(path).Accepted? && WrittenTo(files, files', ValidatePath(path).path, body)
    ensures ReadOf(files', path) == Content(NewFile(body), body)
    ensures ReadOf(files', Clean(path)) == Content(NewFile(body), body)
    ensures ValidatePath(other).Accepted? && ValidatePath(other).path != ValidatePath(path).path ==>
              ReadOf(files', other) == ReadOf(files, other) ||
              (ReadOf(files, other) == ReadError(PathNotFound) &&
               ReadOf(files', other) == ReadError(NotRegular))
  {
    ValidatedIsCleaned(path);
    hide ValidatePath, Clean;
  }

  /** When a read returns content, and which: an accepted path of a regular file in a container that is
      there. */
  lemma {:induction false} ReadSucceedsExactly(files: map<AbsPath, Node>, gone: bool, path: string)
    ensures var r := ReadSpec(files, gone, files, gone, path);
            (r.Content? <==>
             && ValidatePath(path).Accepted? && !gone
             && var p := ValidatePath(path).path; p in files && !files[p].isDir && files[p].regular) &&
            (r.Content? ==> var n := files[ValidatePath(path).path]; r.node == n && r.data == n.data)
  {
    hide ValidatePath;
  }

  /** And what the error of a read says was so at one of its two looks at the container. */
  lemma {:induction false} ReadErrorsMean(
      files: map<AbsPath, Node>, gone: bool, later: map<AbsPath, Node>, laterGone: bool, path: string)
    ensures var r := ReadSpec(files, gone, later, laterGone, path);
            var target := if ValidatePath(path).Accepted? then ValidatePath(path).path else [];
            r.ReadError? ==>
              match r.error
              case InvalidPath => ValidatePath(path).Rejected?
              case ContainerGone => gone || laterGone
              case PathNotFound => target !in files || target !in later
              case NotRegular =>
                || (target in files && (files[target].isDir || !files[target].regular))
                || (target in later && later[target].isDir)
              case _ => false
  {
    hide ValidatePath;
  }

  // ---------------------------------------------------------------- out of one tree, into another

  /** Where what is at q below p comes to be when p's archive is unpacked at dest. */
  function Moved(p: AbsPath, dest: AbsPath, q: AbsPath): AbsPath
    requires p != [] && p <= q
  {
    dest + [p[|p| - 1]] + q[|p|..]
  }

  /** What `WriteArchive` makes of regular files and plain directories is what they are. */
  ghost predicate Plain(n: Node) {
    n.regular && (n.isDir ==> n.data == [])
  }

  ghost predicate Copied(
      files: map<AbsPath, Node>, p: AbsPath, other: map<AbsPath, Node>, dest: AbsPath, es: seq<TarEntry>,
      now: map<AbsPath, Node>)
    requires p != []
  {
    && (forall t :: t in other ==> t in now && now[t] == other[t])
    && (forall t :: t in now && t !in other ==> exists q :: q in files && p <= q && t == Moved(p, dest, q))
    && (forall q :: q in files && p <= q && NodeEntry(p, q, files[q]) in es ==>
          Moved(p, dest, q) in now && now[Moved(p, dest, q)] == files[q])
  }

  /** Unpacking entries of p's archive, in whatever order, where nothing of that name is: the nodes those
      entries are of come out as they were, nothing else appears but nodes of p's tree, and everything
      that was there stays. */
  lemma {:induction false} CopyKeepsNodes(
      files: map<AbsPath, Node>, p: AbsPath, other: map<AbsPath, Node>, dest: AbsPath, es: seq<TarEntry>)
    requires WellFormed(files) && WellFormed(other) && dest in other && p != [] && p in files
    requires forall q :: q in files && p <= q ==> Plain(files[q])
    requires forall t :: t in other ==> !(dest + [p[|p| - 1]] <= t)
    requires forall e :: e in es ==> exists q :: q in files && p <= q && e == NodeEntry(p, q, files[q])
    ensures Copied(files, p, other, dest, es, AppliedAll(other, dest, es))
    decreases |es|
  {
    hide Applied, Plain, WellFormed;
    if es != [] {
      var init, e := es[..|es| - 1], es[|es| - 1];
      forall x | x in init ensures exists q :: q in files && p <= q && x == NodeEntry(p, q, files[q]) {
        assert x in es;
      }
      CopyKeepsNodes(files, p, other, dest, init);
      assert e in es;
      var q :| q in files && p <= q && e == NodeEntry(p, q, files[q]);
      OneMoreCopied(files, p, other, dest, init, AppliedAll(other, dest, init), q);
      assert es == init + [e];
    }
  }

  lemma {:induction false} OneMoreCopied(
      files: map<AbsPath, Node>, p: AbsPath, other: map<AbsPath, Node>, dest: AbsPath, es: seq<TarEntry>,
      now: map<AbsPath, Node>, q: AbsPath)
    requires WellFormed(files) && WellFormed(other) && dest in other && p != [] && q in files && p <= q
    requires Plain(files[q]) && forall t :: t in other ==> !(dest + [p[|p| - 1]] <= t)
    requires Copied(files, p, other, dest, es, now)
    ensures var e := NodeEntry(p, q, files[q]);
            Copied(files, p, other, dest, es + [e], Applied(now, dest, e))
  {
    hide WellFormed;
    var e, at := NodeEntry(p, q, files[q]), Moved(p, dest, q);
    assert dest + [p[|p| - 1]] <= at;
    var after := Applied(now, dest, e);
    OneApplied(now, dest, p, q, files[q]);
    forall t | t in after && t !in other ensures exists q' :: q' in files && p <= q' && t == Moved(p, dest, q') {
      if t !in now && t != at {
        AncestorsAreCopies(files, p, other, dest, q, t);
      }
    }
    forall q' | q' in files && p <= q' && NodeEntry(p, q', files[q']) in es + [e]
      ensures Moved(p, dest, q') in after && after[Moved(p, dest, q')] == files[q']
    {
      if q' != q {
        MovedOnce(p, dest, q, q');
        assert NodeEntry(p, q', files[q']).name != e.name;
      }
    }
  }

  lemma {:induction false} MovedOnce(p: AbsPath, dest: AbsPath, q: AbsPath, q': AbsPath)
    requires p != [] && p <= q && p <= q' && q != q'
    ensures Moved(p, dest, q) != Moved(p, dest, q') && [p[|p| - 1]] + q[|p|..] != [p[|p| - 1]] + q'[|p|..]
  {
    assert q == p + q[|p|..] && q' == p + q'[|p|..];
    var base := dest + [p[|p| - 1]];
    assert Moved(p, dest, q)[|base|..] == q[|p|..] && Moved(p, dest, q')[|base|..] == q'[|p|..];
    assert ([p[|p| - 1]] + q[|p|..])[1..] == q[|p|..] && ([p[|p| - 1]] + q'[|p|..])[1..] == q'[|p|..];
  }

  /** One entry unpacked: its node where it belongs, and of the rest only ancestors filled in. */
  lemma {:induction false} OneApplied(now: map<AbsPath, Node>, dest: AbsPath, p: AbsPath, q: AbsPath, n: Node)
    requires p != [] && p <= q && Plain(n)
    ensures var at := Moved(p, dest, q); var after := Applied(now, dest, NodeEntry(p, q, n));
            && at in after && after[at] == n
            && (forall t :: t in now && t != at ==> t in after && after[t] == now[t])
            && (forall t :: t in after && t !in now && t != at ==> t < at)
  {
    var at := Moved(p, dest, q);
    assert dest + NodeEntry(p, q, n).name == at;
    FilledOnly(now, at, |at|);
  }

  lemma {:induction false} PrefixIsThere(files: map<AbsPath, Node>, p: AbsPath, t: AbsPath)
    requires WellFormed(files) && p in files && t <= p
    ensures t in files
  {
    assert p[..|t|] == t;
    if |t| < |p| { PrefixesAreDirs(files, p, |t|); } else { assert p[..|t|] == p; }
  }

  lemma {:induction false} AncestorsAreCopies(
      files: map<AbsPath, Node>, p: AbsPath, other: map<AbsPath, Node>, dest: AbsPath, q: AbsPath, t: AbsPath)
    requires WellFormed(files) && WellFormed(other) && dest in other && p != [] && q in files && p <= q
    requires t < Moved(p, dest, q) && t !in other
    ensures exists q' :: q' in files && p <= q' && t == Moved(p, dest, q')
  {
    hide WellFormed;
    var at := Moved(p, dest, q);
    assert t == at[..|t|];
    if |t| <= |dest| {
      PrefixIsThere(other, dest, t);
    } else {
      var i := |p| + (|t| - |dest| - 1);
      PrefixesAreDirs(files, q, i);
      assert t == Moved(p, dest, q[..i]);
    }
  }

  /** Filling in keeps what is there and adds only ancestors. */
  lemma {:induction false} FilledOnly(files: map<AbsPath, Node>, p: AbsPath, k: nat)
    requires k <= |p|
    ensures forall t :: t in files ==> t in Filled(files, p, k) && Filled(files, p, k)[t] == files[t]
    ensures forall t :: t in Filled(files, p, k) && t !in files ==> exists j :: 0 <= j < k && t == p[..j]
    decreases k
  {
    if k > 0 { FilledOnly(files, p, k - 1); }
  }
}
