/** The members of a release archive: which lists are accepted, and what extracting an accepted one creates. */
module StageArchive {
  import opened Basics

  /** A member path as the texts between its slashes; the trailing slashes of a directory are already gone. */
  type Parts = seq<string>

  datatype Kind = IsFile(content: int) | IsDir | Special

  datatype Member = Member(path: Parts, kind: Kind)

  const DEPLOY_SCRIPT: Parts := ["deploy", "tencent", "deploy.sh"]

  predicate CleanPart(part: string) {
    part != "" && part != "." && part != ".." && ':' !in part && '\\' !in part
  }

  /** Canonical, relative, inside the archive root, and portable. */
  predicate CleanPath(path: Parts) {
    path != [] && forall part :: part in path ==> CleanPart(part)
  }

  ghost predicate Under(members: seq<Member>, p: Parts) {
    exists m :: m in members && p <= m.path
  }

  ghost predicate DistinctPaths(members: seq<Member>) {
    forall i, j :: 0 <= i < j < |members| ==> members[i].path != members[j].path
  }

  /** No file stands where another member needs a directory. */
  ghost predicate NoFileAbove(members: seq<Member>) {
    forall m, n :: m in members && n in members && m.kind.IsFile? && m.path <= n.path ==> m.path == n.path
  }

  ghost predicate HasScript(members: seq<Member>) {
    exists m :: m in members && m.path == DEPLOY_SCRIPT && m.kind.IsFile?
  }

  ghost predicate Regular(members: seq<Member>) {
    forall m :: m in members ==> CleanPath(m.path) && !m.kind.Special?
  }

  ghost predicate Acceptable(members: seq<Member>) {
    Regular(members) && DistinctPaths(members) && NoFileAbove(members) && HasScript(members)
  }

  /** `declared` after some members: which paths are there, and whether each is a directory. */
  ghost predicate Declares(declared: map<Parts, bool>, members: seq<Member>) {
    && (forall m :: m in members ==> m.path in declared && declared[m.path] == m.kind.IsDir?)
    && (forall p :: p in declared ==> exists m :: m in members && m.path == p)
  }

  lemma DeclareOne(declared: map<Parts, bool>, members: seq<Member>, m: Member)
    requires Declares(declared, members) && m.path !in declared
    ensures Declares(declared[m.path := m.kind.IsDir?], members + [m])
  {
    var all, more := members + [m], declared[m.path := m.kind.IsDir?];
    forall p | p in more
      ensures exists n :: n in all && n.path == p
    {
      if p == m.path {
        assert m in all;
      } else {
        var n :| n in members && n.path == p;
        assert n in all;
      }
    }
  }

  lemma DeclareNext(declared: map<Parts, bool>, members: seq<Member>, i: nat)
    requires i < |members| && Declares(declared, members[..i]) && Regular(members[..i]) && DistinctPaths(members[..i])
    requires CleanPath(members[i].path) && !members[i].kind.Special? && members[i].path !in declared
    ensures Declares(declared[members[i].path := members[i].kind.IsDir?], members[..i + 1])
    ensures Regular(members[..i + 1]) && DistinctPaths(members[..i + 1])
  {
    DeclareOne(declared, members[..i], members[i]);
    assert members[..i + 1] == members[..i] + [members[i]];
    forall j | 0 <= j < i
      ensures members[j].path != members[i].path
    {
      assert members[j] in members[..i];
    }
  }

  /** The first pass: every member has a clean, new path and is a file or a directory. */
  method Declare(members: seq<Member>) returns (ok: bool, declared: map<Parts, bool>)
    ensures ok <==> Regular(members) && DistinctPaths(members)
    ensures ok ==> Declares(declared, members)
  {
    declared := map[];
    for i := 0 to |members|
      invariant Declares(declared, members[..i])
      invariant Regular(members[..i]) && DistinctPaths(members[..i])
    {
      var m := members[i];
      assert m in members;
      if !CleanPath(m.path) || m.kind.Special? {
        return false, declared;
      }
      if m.path in declared {
        RepeatedPath(members, i);
        return false, declared;
      }
      DeclareNext(declared, members, i);
      declared := declared[m.path := m.kind.IsDir?];
    }
    assert members[..|members|] == members;
    ok := true;
  }

  lemma RepeatedPath(members: seq<Member>, i: nat)
    requires i < |members| && exists m :: m in members[..i] && m.path == members[i].path
    ensures !DistinctPaths(members)
  {
    var m :| m in members[..i] && m.path == members[i].path;
    var j :| 0 <= j < i && members[j] == m;
    assert members[j].path == members[i].path;
  }

  predicate FileAbove(declared: map<Parts, bool>, p: Parts) {
    exists k :: 0 < k < |p| && p[..k] in declared && !declared[p[..k]]
  }

  /** The second pass, over the declared names. */
  method CheckParents(members: seq<Member>, declared: map<Parts, bool>) returns (ok: bool)
    requires Regular(members) && Declares(declared, members)
    ensures ok <==> NoFileAbove(members)
  {
    for i := 0 to |members|
      invariant forall m :: m in members[..i] ==> !FileAbove(declared, m.path)
    {
      if FileAbove(declared, members[i].path) {
        FoundAbove(members, declared, members[i]);
        return false;
      }
      assert members[..i + 1] == members[..i] + [members[i]];
    }
    assert members[..|members|] == members;
    NoneAbove(members, declared);
    ok := true;
  }

  lemma FoundAbove(members: seq<Member>, declared: map<Parts, bool>, n: Member)
    requires Regular(members) && Declares(declared, members) && n in members && FileAbove(declared, n.path)
    ensures !NoFileAbove(members)
  {
    var k :| 0 < k < |n.path| && n.path[..k] in declared && !declared[n.path[..k]];
    var m :| m in members && m.path == n.path[..k];
    assert m.kind.IsFile? && m.path <= n.path && m.path != n.path;
  }

  lemma NoneAbove(members: seq<Member>, declared: map<Parts, bool>)
    requires Regular(members) && Declares(declared, members)
    requires forall m :: m in members ==> !FileAbove(declared, m.path)
    ensures NoFileAbove(members)
  {
    forall m, n | m in members && n in members && m.kind.IsFile? && m.path <= n.path
      ensures m.path == n.path
    {
      var k := |m.path|;
      assert n.path[..k] == m.path && k > 0;
      assert !FileAbove(declared, n.path);
    }
  }

  method HasDeployScript(members: seq<Member>) returns (ok: bool)
    ensures ok <==> HasScript(members)
  {
    ok := exists m :: m in members && m.path == DEPLOY_SCRIPT && m.kind.IsFile?;
  }

  /** The member checks of one archive. */
  method Validate(members: seq<Member>) returns (ok: bool)
    ensures ok <==> Acceptable(members)
  {
    var declared;
    ok, declared := Declare(members);
    if ok {
      ok := CheckParents(members, declared);
    }
    if ok {
      ok := HasDeployScript(members);
    }
  }

  // ---------------------------------------------------------------- extraction

  datatype Entry = FileEntry(content: int) | DirEntry

  /** The tree holds exactly the members and the directories above them. */
  ghost predicate Holds(tree: map<Parts, Entry>, members: seq<Member>) {
    && (forall p :: p in tree <==> p != [] && Under(members, p))
    && (forall m :: m in members && m.kind.IsFile? ==> m.path in tree && tree[m.path] == FileEntry(m.kind.content))
    && (forall p :: p in tree && tree[p].FileEntry? ==> exists m :: m in members && m.path == p && m.kind.IsFile?)
  }

  /** `mkdir(parents=True, exist_ok=True)`. */
  method MakeDirs(tree: map<Parts, Entry>, path: Parts) returns (ok: bool, more: map<Parts, Entry>)
    ensures ok <==> forall k :: 0 < k <= |path| && path[..k] in tree ==> tree[path[..k]].DirEntry?
    ensures ok ==> forall p :: p in more <==> p in tree || (p != [] && p <= path)
    ensures ok ==> forall p :: p in more ==> more[p] == if p in tree then tree[p] else DirEntry
  {
    more := tree;
    for k := 1 to |path| + 1
      invariant forall j :: 0 < j < k && path[..j] in tree ==> tree[path[..j]].DirEntry?
      invariant forall p :: p in more <==> p in tree || (p != [] && p <= path && |p| < k)
      invariant forall p :: p in more ==> more[p] == if p in tree then tree[p] else DirEntry
    {
      var p := path[..k];
      forall q: Parts | q <= path && |q| == k
        ensures q == p
      {
      }
      if p in more && more[p].FileEntry? {
        return false, more;
      }
      if p !in more {
        more := more[p := DirEntry];
      }
    }
    ok := true;
  }

  /** The member meets nothing of what is already there but directories on its way. */
  ghost predicate Fits(done: seq<Member>, m: Member) {
    && m.path != [] && !m.kind.Special?
    && forall n :: n in done ==>
         && n.path != m.path
         && (n.kind.IsFile? ==> !(n.path <= m.path))
         && (m.kind.IsFile? ==> !(m.path <= n.path))
  }

  lemma UnderMore(done: seq<Member>, m: Member, p: Parts)
    ensures Under(done + [m], p) <==> Under(done, p) || p <= m.path
  {
    if Under(done, p) {
      var n :| n in done && p <= n.path;
      assert n in done + [m];
    }
    if p <= m.path {
      assert m in done + [m];
    }
  }

  lemma HoldsMore(tree: map<Parts, Entry>, more: map<Parts, Entry>, done: seq<Member>, m: Member)
    requires Holds(tree, done) && Fits(done, m)
    requires forall p :: p in more <==> p in tree || (p != [] && p <= m.path)
    requires forall p :: p in more && p != m.path ==> more[p] == if p in tree then tree[p] else DirEntry
    requires m.path in more && more[m.path] == if m.kind.IsFile? then FileEntry(m.kind.content) else DirEntry
    ensures Holds(more, done + [m])
  {
    var all := done + [m];
    forall p
      ensures p in more <==> p != [] && Under(all, p)
    {
      UnderMore(done, m, p);
    }
    forall p | p in more && more[p].FileEntry?
      ensures exists n :: n in all && n.path == p && n.kind.IsFile?
    {
      if p == m.path {
        assert m in all;
      } else {
        var n :| n in done && n.path == p && n.kind.IsFile?;
        assert n in all;
      }
    }
  }

  lemma ClearWay(tree: map<Parts, Entry>, done: seq<Member>, m: Member, k: nat)
    requires Holds(tree, done) && Fits(done, m) && 0 < k <= |m.path| && m.path[..k] in tree
    ensures tree[m.path[..k]].DirEntry?
  {
    assert m.path[..k] <= m.path;
  }

  /** Write one member; opening a file for exclusive creation fails if anything is there. */
  method ExtractOne(tree: map<Parts, Entry>, m: Member, ghost done: seq<Member>)
    returns (ok: bool, more: map<Parts, Entry>)
    requires Holds(tree, done) && Fits(done, m)
    ensures ok && Holds(more, done + [m])
  {
    forall k | 0 < k <= |m.path| && m.path[..k] in tree
      ensures tree[m.path[..k]].DirEntry?
    {
      ClearWay(tree, done, m, k);
    }
    if m.kind.IsDir? {
      ok, more := MakeDirs(tree, m.path);
    } else {
      var parent := m.path[..|m.path| - 1];
      assert forall k :: 0 < k <= |parent| ==> parent[..k] == m.path[..k];
      ok, more := MakeDirs(tree, parent);
      if !ok || m.path in more {
        return false, more;
      }
      more := more[m.path := FileEntry(m.kind.content)];
      forall p
        ensures p in more <==> p in tree || (p != [] && p <= m.path)
      {
        PrefixSplit(p, m.path);
      }
    }
    HoldsMore(tree, more, done, m);
  }

  lemma PrefixSplit(p: Parts, path: Parts)
    requires path != []
    ensures p <= path <==> p <= path[..|path| - 1] || p == path
  {
    if p <= path && |p| == |path| {
      assert p == path;
    }
  }

  lemma FitsNext(members: seq<Member>, i: nat)
    requires Acceptable(members) && i < |members|
    ensures Fits(members[..i], members[i])
  {
    var m := members[i];
    assert m in members;
    forall n | n in members[..i]
      ensures n.path != m.path && (n.kind.IsFile? ==> !(n.path <= m.path)) && (m.kind.IsFile? ==> !(m.path <= n.path))
    {
      var j :| 0 <= j < i && members[j] == n;
      assert n in members;
    }
  }

  /** Extracting an accepted archive meets no collision, whatever the order, and creates what it lists. */
  method Extract(members: seq<Member>) returns (ok: bool, tree: map<Parts, Entry>)
    requires Acceptable(members)
    ensures ok && Holds(tree, members)
  {
    tree := map[];
    for i := 0 to |members|
      invariant Holds(tree, members[..i])
    {
      FitsNext(members, i);
      ok, tree := ExtractOne(tree, members[i], members[..i]);
      assert members[..i + 1] == members[..i] + [members[i]];
    }
    assert members[..|members|] == members;
    ok := true;
  }

  // ---------------------------------------------------------------- what a clean path is

  /** Where a path leads from the root of the tree, if it stays inside: dots stay, double dots go up. */
  function Resolve(path: Parts): Option<Parts> {
    if path == [] then Some([])
    else
      var front, last := Resolve(path[..|path| - 1]), path[|path| - 1];
      if front.None? then None
      else if last == "" || last == "." then front
      else if last == ".." then if front.value == [] then None else Some(front.value[..|front.value| - 1])
      else Some(front.value + [last])
  }

  lemma {:induction false} ResolveShortens(path: Parts)
    ensures Resolve(path).Some? ==> |Resolve(path).value| <= |path|
    ensures Resolve(path) == Some(path) <==> forall part :: part in path ==> part != "" && part != "." && part != ".."
  {
    if path != [] {
      var front, last := path[..|path| - 1], path[|path| - 1];
      assert path == front + [last];
      ResolveShortens(front);
      if Resolve(path) == Some(path) {
        assert last != "" && last != "." && last != "..";
        assert (Resolve(front).value + [last])[..|front|] == front;
        assert Resolve(front) == Some(front);
      } else if Resolve(front) == Some(front) {
        assert last in path;
      } else {
        assert forall part :: part in front ==> part in path;
      }
    }
  }

  /** A clean path is one that leads, inside the tree, to exactly the place it spells, without `:` or backslash. */
  lemma CleanPathMeans(path: Parts)
    ensures CleanPath(path) <==>
            path != [] && Resolve(path) == Some(path) && forall part :: part in path ==> ':' !in part && '\\' !in part
  {
    ResolveShortens(path);
    assert forall part :: CleanPart(part) <==>
      part != "" && part != "." && part != ".." && ':' !in part && '\\' !in part;
  }

  function Join(path: Parts): string {
    if path == [] then ""
    else if |path| == 1 then path[0]
    else Join(path[..|path| - 1]) + "/" + path[|path| - 1]
  }

  lemma ScriptIs()
    ensures Join(DEPLOY_SCRIPT) == "deploy/tencent/deploy.sh"
  {
    assert DEPLOY_SCRIPT[..2] == ["deploy", "tencent"];
    assert DEPLOY_SCRIPT[..2][..1] == ["deploy"];
    assert Join(["deploy", "tencent"]) == "deploy/tencent";
  }
}
