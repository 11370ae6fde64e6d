/** Finding the file an include names (src/cwhost/session.py, `_include_search_roots` and `_find_file`). */
module IncludeSearch {
  import opened VolumeTree
  import opened VolumeCache
  import opened VirtualVolumes
  import opened HfsPaths
  import opened IncludeWalk
  import opened Wrappers

  /** m is the first child of q, in listing order, that is no directory and whose folded name is f. */
  ghost predicate IsFileMatch(fold: string -> string, build: Path, t: Tree, q: Path, f: string, m: string) {
    FileMatches(fold, build, t, q, f, m) &&
    forall n :: FileMatches(fold, build, t, q, f, n) ==> n == m || Before(fold, m, n)
  }

  ghost predicate FileMatches(fold: string -> string, build: Path, t: Tree, q: Path, f: string, m: string) {
    m in Names(t, q) && !IsDir(t, q + [m]) && FoldsTo(fold, build, q, m, f)
  }

  /** What one search root answers: a directory its first matching file, anything else itself. */
  ghost predicate Answers(fold: string -> string, build: Path, t: Tree, root: Path, name: string, at: Path) {
    if IsDir(t, root) then at != [] && Parent(at) == root && IsFileMatch(fold, build, t, root, fold(name), Last(at))
    else at == root && fold(NameOf(build, Node(KeyOf(build, root), 0))) == fold(name)
  }

  ghost predicate AnswersNothing(fold: string -> string, build: Path, t: Tree, root: Path, name: string) {
    forall at :: !Answers(fold, build, t, root, name, at)
  }

  lemma {:induction false} AnswerIsOne(fold: string -> string, build: Path, t: Tree, root: Path, name: string, a: Path,
                                       b: Path)
    requires Answers(fold, build, t, root, name, a) && Answers(fold, build, t, root, name, b)
    ensures a == b
  {
    hide FileMatches;
    if IsDir(t, root) {
      BeforeTotal(fold, Last(a), Last(b));
      assert a == Parent(a) + [Last(a)] && b == Parent(b) + [Last(b)];
    }
  }

  /** A file found in a directory exists, is no directory and lies directly in that directory. */
  lemma {:induction false} AnswerIsFile(fold: string -> string, build: Path, t: Tree, root: Path, name: string,
                                        at: Path)
    requires IsDir(t, root) && FoldsApart(fold) && name != "" && Answers(fold, build, t, root, name, at)
    ensures at in t && t[at].File? && Parent(at) == root && Under(build, at, root)
  {
    hide Names;
    var m := Last(at);
    assert at == root + [m];
    NameIn(t, root, m);
    UnderSelf(build, root);
    StaysUnder(fold, build, root, root, name, m);
  }

  ghost predicate FirstAnswers(fold: string -> string, build: Path, t: Tree, roots: seq<Node>, name: string, i: int,
                               at: Path) {
    0 <= i < |roots| && Answers(fold, build, t, roots[i].key.host, name, at) &&
    forall j :: 0 <= j < i ==> AnswersNothing(fold, build, t, roots[j].key.host, name)
  }

  /** The first node among `children_named` that is no directory is the root's answer. */
  lemma {:induction false} ListedAnswer(fold: string -> string, build: Path, nodes: Interned, t: Tree, q: Path,
                                        c: seq<Node>, name: string, i: nat)
    requires Listed(fold, build, nodes, t, q, c) && IsDir(t, q) && i < |c|
    requires fold(NameOf(build, c[i])) == fold(name) && !IsDir(t, c[i].key.host)
    requires forall j :: 0 <= j < i ==> !(fold(NameOf(build, c[j])) == fold(name) && !IsDir(t, c[j].key.host))
    ensures Answers(fold, build, t, q, name, c[i].key.host)
  {
    hide Names, Before, NameOf;
    var f := fold(name);
    forall j | 0 <= j < |c|
      ensures FileMatches(fold, build, t, q, f, Leaf(c[j])) <==>
              fold(NameOf(build, c[j])) == f && !IsDir(t, c[j].key.host)
    {
      ChildName(build, nodes, q, c[j]);
      assert c[j].key.host == q + [Leaf(c[j])];
      assert Leaves(c)[j] in Leaves(c);
    }
    forall n | FileMatches(fold, build, t, q, f, n) ensures n == Leaf(c[i]) || Before(fold, Leaf(c[i]), n) {
      var j :| 0 <= j < |Leaves(c)| && Leaves(c)[j] == n;
      assert j > i ==> Before(fold, Leaves(c)[i], Leaves(c)[j]);
      assert Leaf(c[j]) == n;
    }
  }

  lemma {:induction false} ListedNoAnswer(fold: string -> string, build: Path, nodes: Interned, t: Tree, q: Path,
                                          c: seq<Node>, name: string)
    requires Listed(fold, build, nodes, t, q, c) && IsDir(t, q)
    requires forall j :: 0 <= j < |c| ==> !(fold(NameOf(build, c[j])) == fold(name) && !IsDir(t, c[j].key.host))
    ensures AnswersNothing(fold, build, t, q, name)
  {
    hide Names, Before, NameOf, Sorted;
    forall at ensures !Answers(fold, build, t, q, name, at) {
      if at != [] && Parent(at) == q && Last(at) in Names(t, q) {
        var j :| 0 <= j < |Leaves(c)| && Leaves(c)[j] == Last(at);
        ChildName(build, nodes, q, c[j]);
        assert c[j].key.host == q + [Leaf(c[j])];
      }
    }
  }

  /** The matches that are files, in order, are the files among the listed nodes that match. */
  lemma {:induction false} FirstFileOf(fold: string -> string, build: Path, t: Tree, c: seq<Node>, f: string,
                                       k: nat) returns (i: nat)
    requires k < |Filter(fold, build, c, f)|
    requires forall j :: 0 <= j < k ==> IsDir(t, Filter(fold, build, c, f)[j].key.host)
    ensures i < |c| && c[i] == Filter(fold, build, c, f)[k] && fold(NameOf(build, c[i])) == f
    ensures forall j :: 0 <= j < i ==> !(fold(NameOf(build, c[j])) == f && !IsDir(t, c[j].key.host))
    decreases |c|
  {
    hide NameOf, IsDir;
    var front, all := c[..|c| - 1], Filter(fold, build, c, f);
    var l := Filter(fold, build, front, f);
    assert forall j :: 0 <= j < |front| ==> c[j] == front[j];
    if k < |l| {
      assert forall j :: 0 <= j < |l| ==> all[j] == l[j];
      i := FirstFileOf(fold, build, t, front, f, k);
    } else {
      i := |c| - 1;
      forall j | 0 <= j < i && fold(NameOf(build, c[j])) == f ensures IsDir(t, c[j].key.host) {
        FilterMembers(fold, build, front, f, c[j]);
        var n :| 0 <= n < |l| && l[n] == c[j];
        assert all[n] == l[n];
      }
    }
  }

  class Finder {
    const volumes: Volumes
    const files: seq<Node>
    const user: seq<Node>
    const system: seq<Node>
    var lastLoaded: Option<Node>

    ghost predicate Valid()
      reads this, volumes
    {
      volumes.Valid() && (forall n :: n in files + user + system ==> volumes.Has(n)) &&
      (lastLoaded.Some? ==> volumes.Has(lastLoaded.value))
    }

    constructor (volumes: Volumes, files: seq<Node>, user: seq<Node>, system: seq<Node>)
      requires volumes.Valid() && forall n :: n in files + user + system ==> volumes.Has(n)
      ensures Valid() && this.volumes == volumes && lastLoaded == None
      ensures this.files == files && this.user == user && this.system == system
    {
      this.volumes, this.files, this.user, this.system := volumes, files, user, system;
      lastLoaded := None;
    }

    /** The file whose include is being resolved: by index, else the file loaded last, else the first. */
    function Including(dependent: int): Option<Node>
      reads this
    {
      if 0 <= dependent < |files| then Some(files[dependent])
      else if lastLoaded.Some? then lastLoaded
      else if files != [] then Some(files[0])
      else None
    }

    /** `_include_search_roots`: the including file's directory, unless a full search is asked for, then
        the user's and the system's directories. */
    method SearchRoots(fullsearch: bool, dependent: int) returns (roots: seq<Node>)
      requires Valid()
      modifies volumes`nodes, volumes`ids, volumes`nextId
      ensures Valid() && Extends(old(volumes.nodes), volumes.nodes) && (old(volumes.Agreeing()) ==> volumes.Agreeing())
      ensures forall i :: 0 <= i < |roots| ==> volumes.Has(roots[i])
      ensures SearchedAs(roots, fullsearch, Including(dependent))
      ensures 0 <= dependent < |files| ==> SearchedAs(roots, fullsearch, Some(files[dependent]))
      ensures !(0 <= dependent < |files|) && lastLoaded.Some? ==> SearchedAs(roots, fullsearch, lastLoaded)
      ensures !(0 <= dependent < |files|) && lastLoaded.None? && files != [] ==>
                SearchedAs(roots, fullsearch, Some(files[0]))
      ensures files == [] && lastLoaded.None? ==> SearchedAs(roots, fullsearch, None)
    {
      hide WellFormed, KeysOk, IndexOk, NodesOk, Agrees, InternedOk;
      var including := Including(dependent);
      roots := [];
      if !fullsearch && including.Some? {
        var parent := ParentOf(volumes, including.value);
        if parent.Some? {
          roots := [parent.value];
        }
      }
      roots := roots + (user + system);
    }

    /** The search by plain name. */
    method SearchByName(name: string, roots: seq<Node>) returns (r: Option<Node>)
      requires Valid() && forall i :: 0 <= i < |roots| ==> volumes.Has(roots[i])
      modifies volumes`nodes, volumes`ids, volumes`nextId, volumes`children, volumes`byName, this`lastLoaded
      ensures Valid() && Extends(old(volumes.nodes), volumes.nodes) && (old(volumes.Agreeing()) ==> volumes.Agreeing())
      ensures lastLoaded == if r.Some? then r else old(lastLoaded)
      ensures old(volumes.Agreeing()) && r.Some? ==>
                exists i :: FirstAnswers(volumes.fold, volumes.build, volumes.tree, roots, name, i, r.value.key.host)
      ensures old(volumes.Agreeing()) && r.None? ==>
                forall i :: 0 <= i < |roots| ==>
                  AnswersNothing(volumes.fold, volumes.build, volumes.tree, roots[i].key.host, name)
    {
      hide WellFormed, KeysOk, IndexOk, NodesOk, Agrees, InternedOk, Answers, IsDir, NameOf;
      var i := 0;
      while i < |roots|
        invariant i <= |roots| && Valid() && Extends(old(volumes.nodes), volumes.nodes)
        invariant lastLoaded == old(lastLoaded) && (old(volumes.Agreeing()) ==> volumes.Agreeing())
        invariant old(volumes.Agreeing()) ==>
                    forall j :: 0 <= j < i ==>
                      AnswersNothing(volumes.fold, volumes.build, volumes.tree, roots[j].key.host, name)
      {
        r := AskRoot(roots[i], name);
        if r.Some? {
          assert old(volumes.Agreeing()) ==>
                   FirstAnswers(volumes.fold, volumes.build, volumes.tree, roots, name, i, r.value.key.host);
          lastLoaded := r;
          return;
        }
        i := i + 1;
      }
      return None;
    }

    /** `_find_file`: a colon path first; otherwise, or when nothing is there, a slash path or a plain
        name in the search roots. Only the latter two move the file loaded last. */
    method FindFile(filename: string, fullsearch: bool, dependent: int)
      returns (r: Outcome<Node>, ghost roots: seq<Node>)
      requires Valid()
      modifies volumes`nodes, volumes`ids, volumes`nextId, volumes`children, volumes`byName, this`lastLoaded
      ensures Valid() && Extends(old(volumes.nodes), volumes.nodes) && (old(volumes.Agreeing()) ==> volumes.Agreeing())
      ensures r.Found? ==> volumes.Has(r.at)
      ensures old(volumes.Agreeing()) ==>
                var first := if ':' in filename
                  then Resolve(volumes.fold, volumes.build, volumes.tree, filename, Origin()) else Missing;
                if first.Missing?
                then BySearch(roots, filename, Target(r)) &&
                     lastLoaded == (if r.Found? then Some(r.at) else old(lastLoaded))
                else Target(r) == first && lastLoaded == old(lastLoaded)
      ensures var n := old(Including(dependent));
              r.Refused? || (':' in filename && r.Found? && lastLoaded == old(lastLoaded)) ||
              SearchedAs(roots, fullsearch, n)
    {
      hide WellFormed, KeysOk, IndexOk, NodesOk, Agrees, InternedOk, Resolve, BySearch, SearchedAs;
      roots := [];
      if ':' in filename {
        r := ByColonPath(filename);
        if !r.Missing? {
          return;
        }
      }
      var dirs := SearchRoots(fullsearch, dependent);
      roots := dirs;
      r := InRoots(filename, dirs);
    }

    method ByColonPath(filename: string) returns (r: Outcome<Node>)
      requires Valid()
      modifies volumes`nodes, volumes`ids, volumes`nextId, volumes`children, volumes`byName
      ensures Valid() && Extends(old(volumes.nodes), volumes.nodes) && (old(volumes.Agreeing()) ==> volumes.Agreeing())
      ensures r.Found? ==> volumes.Has(r.at)
      ensures old(volumes.Agreeing()) ==>
                Target(r) == Resolve(volumes.fold, volumes.build, volumes.tree, filename, Origin())
    {
      hide WellFormed, KeysOk, IndexOk, NodesOk, Agrees, InternedOk, Resolve;
      var origin := None;
      if files != [] {
        assert files[0] in files + user + system;
        origin := Some(files[0]);
        if !IsDir(volumes.tree, files[0].key.host) {
          origin := ParentOf(volumes, files[0]);
        }
      }
      r := ResolveHfs(volumes, filename, origin);
    }

    method InRoots(filename: string, roots: seq<Node>) returns (r: Outcome<Node>)
      requires Valid() && forall i :: 0 <= i < |roots| ==> volumes.Has(roots[i])
      modifies volumes`nodes, volumes`ids, volumes`nextId, volumes`children, volumes`byName, this`lastLoaded
      ensures Valid() && Extends(old(volumes.nodes), volumes.nodes) && (old(volumes.Agreeing()) ==> volumes.Agreeing())
      ensures r.Found? ==> volumes.Has(r.at)
      ensures lastLoaded == if r.Found? then Some(r.at) else old(lastLoaded)
      ensures old(volumes.Agreeing()) ==> BySearch(roots, filename, Target(r))
      ensures !r.Refused?
    {
      hide WellFormed, KeysOk, IndexOk, NodesOk, Agrees, InternedOk, Split, Slashed, FirstGives, FirstAnswers;
      hide GivesNothing, AnswersNothing;
      var node: Option<Node>;
      if '/' in filename {
        node := WalkSlashInclude(volumes, filename, roots);
        if node.Some? {
          lastLoaded := node;
        }
      } else {
        node := SearchByName(filename, roots);
      }
      r := if node.Some? then Found(node.value) else Missing;
    }

    /** Where a colon path that is relative starts. */
    ghost function Origin(): Option<Path>
      reads this, volumes
    {
      if files == [] then None
      else
        var p := files[0].key.host;
        if IsDir(volumes.tree, p) then Some(p)
        else if p == RootOf(volumes.build, VolumeOf(volumes.build, p)) then None
        else Some(Parent(p))
    }

    ghost predicate SearchedAs(roots: seq<Node>, fullsearch: bool, n: Option<Node>) {
      if fullsearch || n.None? || n.value.key.host == RootOf(volumes.build, VolumeOf(volumes.build, n.value.key.host))
      then roots == user + system
      else roots != [] && roots[1..] == user + system && roots[0].key.host == Parent(n.value.key.host)
    }

    /** The search roots' answer: the first root that has one decides. */
    ghost predicate BySearch(roots: seq<Node>, filename: string, r: Outcome<Path>)
      reads volumes
    {
      var fold, build, t := volumes.fold, volumes.build, volumes.tree;
      if '/' in filename then
        var comps := Split(Slashed(filename), '/');
        match r
        case Found(at) => exists i :: FirstGives(fold, build, t, roots, comps, i, at)
        case Missing => forall i :: 0 <= i < |roots| ==> GivesNothing(fold, build, t, roots[i].key.host, comps)
        case Refused => false
      else
        match r
        case Found(at) => exists i :: FirstAnswers(fold, build, t, roots, filename, i, at)
        case Missing => forall i :: 0 <= i < |roots| ==> AnswersNothing(fold, build, t, roots[i].key.host, filename)
        case Refused => false
    }

    method AskRoot(root: Node, name: string) returns (r: Option<Node>)
      requires Valid() && volumes.Has(root)
      modifies volumes`nodes, volumes`ids, volumes`nextId, volumes`children, volumes`byName
      ensures Valid() && Extends(old(volumes.nodes), volumes.nodes) && (old(volumes.Agreeing()) ==> volumes.Agreeing())
      ensures r.Some? ==> volumes.Has(r.value)
      ensures old(volumes.Agreeing()) ==>
                if r.Some?
                then Answers(volumes.fold, volumes.build, volumes.tree, root.key.host, name, r.value.key.host)
                else AnswersNothing(volumes.fold, volumes.build, volumes.tree, root.key.host, name)
    {
      hide WellFormed, KeysOk, IndexOk, InternedOk, NameOf, Filter, Listed;
      if !IsDir(volumes.tree, root.key.host) {
        KeyIsOwn(volumes, root);
        SameName(volumes.build, root);
        return if volumes.fold(NameOf(volumes.build, root)) == volumes.fold(name) then Some(root) else None;
      }
      var q := root.key.host;
      var matches := volumes.ChildrenNamed(root, name);
      ghost var c := volumes.children[root.key];
      var k := 0;
      while k < |matches|
        modifies {}
        invariant k <= |matches|
        invariant forall j :: 0 <= j < k ==> IsDir(volumes.tree, matches[j].key.host)
      {
        FilterMembers(volumes.fold, volumes.build, c, volumes.fold(name), matches[k]);
        if !IsDir(volumes.tree, matches[k].key.host) &&
           volumes.fold(NameOf(volumes.build, matches[k])) == volumes.fold(name)
        {
          if volumes.Agreeing() {
            var i := FirstFileOf(volumes.fold, volumes.build, volumes.tree, c, volumes.fold(name), k);
            ListedAnswer(volumes.fold, volumes.build, volumes.nodes, volumes.tree, q, c, name, i);
          }
          return Some(matches[k]);
        }
        k := k + 1;
      }
      if volumes.Agreeing() {
        forall j | 0 <= j < |c|
          ensures !(volumes.fold(NameOf(volumes.build, c[j])) == volumes.fold(name) &&
                  !IsDir(volumes.tree, c[j].key.host))
        {
          FilterMembers(volumes.fold, volumes.build, c, volumes.fold(name), c[j]);
        }
        ListedNoAnswer(volumes.fold, volumes.build, volumes.nodes, volumes.tree, q, c, name);
      }
      return None;
    }
  }

  lemma {:induction false} SameName(build: Path, n: Node)
    requires n.key == KeyOf(build, n.key.host)
    ensures NameOf(build, Node(KeyOf(build, n.key.host), 0)) == NameOf(build, n)
  {
  }
}
