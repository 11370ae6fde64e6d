/** Include paths written with slashes (src/cwhost/session.py, `_walk_slash_include`). */
module IncludeWalk {
  import opened VolumeTree
  import opened VolumeCache
  import opened VirtualVolumes
  import opened HfsPaths
  import opened Wrappers

  /** p is r or below it, on the same volume. */
  ghost predicate Under(build: Path, p: Path, r: Path) {
    VolumeOf(build, p) == VolumeOf(build, r) && Below(r, p)
  }

  datatype Route = Arrives(at: Path) | Fails | Escapes

  /** Where the components lead from q, going no higher than root. */
  ghost function Follow(fold: string -> string, build: Path, t: Tree, root: Path, q: Path, comps: seq<string>): Route
    decreases |comps|
  {
    if comps == [] then Arrives(q)
    else
      var c, rest := comps[0], comps[1..];
      if c == "" || c == "." then Follow(fold, build, t, root, q, rest)
      else if c == ".." then
        if q == RootOf(build, VolumeOf(build, q)) || !Under(build, Parent(q), root) then Escapes
        else Follow(fold, build, t, root, Parent(q), rest)
      else if !IsDir(t, q) then Fails
      else
        var m := Match(fold, build, t, q, fold(c));
        if m.None? then Fails else Follow(fold, build, t, root, q + [m.value], rest)
  }

  /** The root gives a file. */
  ghost predicate Gives(fold: string -> string, build: Path, t: Tree, root: Path, comps: seq<string>, at: Path) {
    IsDir(t, root) && Follow(fold, build, t, root, root, comps) == Arrives(at) && !IsDir(t, at)
  }

  ghost predicate GivesNothing(fold: string -> string, build: Path, t: Tree, root: Path, comps: seq<string>) {
    forall at :: !Gives(fold, build, t, root, comps, at)
  }

  /** Only the empty name folds like the empty name, as with any case folding. */
  ghost predicate FoldsApart(fold: string -> string) {
    forall s :: fold(s) == fold("") ==> s == ""
  }

  lemma {:induction false} FollowAppend(fold: string -> string, build: Path, t: Tree, root: Path, q: Path,
                                        a: seq<string>, b: seq<string>)
    ensures var r := Follow(fold, build, t, root, q, a);
            Follow(fold, build, t, root, q, a + b) == if r.Arrives? then Follow(fold, build, t, root, r.at, b) else r
    decreases |a|
  {
    hide Match, Under, IsDir;
    if a == [] {
      assert a + b == b;
    } else {
      assert (a + b)[0] == a[0] && (a + b)[1..] == a[1..] + b;
      var c := a[0];
      if c == "" || c == "." {
        FollowAppend(fold, build, t, root, q, a[1..], b);
      } else if c == ".." {
        if q != RootOf(build, VolumeOf(build, q)) && Under(build, Parent(q), root) {
          FollowAppend(fold, build, t, root, Parent(q), a[1..], b);
        }
      } else if IsDir(t, q) {
        var m := Match(fold, build, t, q, fold(c));
        if m.Some? { FollowAppend(fold, build, t, root, q + [m.value], a[1..], b); }
      }
    }
  }

  /** One component more: nothing and `.` stay; `..` leads up, but not out of the root or above the volume; a name
      leads from a directory to the first child it cannot be told from by case, or nowhere. */
  lemma {:induction false} ComponentFollows(fold: string -> string, build: Path, t: Tree, root: Path,
                                            comps: seq<string>, c: string)
    requires Follow(fold, build, t, root, root, comps).Arrives?
    ensures var q := Follow(fold, build, t, root, root, comps).at;
            var r := Follow(fold, build, t, root, root, comps + [c]);
            if c == "" || c == "." then r == Arrives(q)
            else if c == ".." then
              r == if q == (if Below(build, q) then build else []) || !Under(build, q[..|q| - 1], root) then Escapes
                   else Arrives(q[..|q| - 1])
            else if !(q in t && t[q].Dir?) then r == Fails
            else
              (forall m :: IsMatch(fold, build, t, q, fold(c), m) ==> r == Arrives(q + [m])) &&
              ((forall m :: !IsMatch(fold, build, t, q, fold(c), m)) ==> r == Fails)
  {
    var q := Follow(fold, build, t, root, root, comps).at;
    FollowAppend(fold, build, t, root, root, comps, [c]);
    hide IsMatch, Under;
    assert [c][1..] == [];
    if c == ".." {
      if q == [] { RootIsAbove(build, q); }
    } else {
      forall m | IsMatch(fold, build, t, q, fold(c), m) ensures Match(fold, build, t, q, fold(c)) == Some(m) {
        MatchUnique(fold, build, t, q, fold(c), m);
      }
    }
  }

  /** Whatever the path says, a route that arrives ends at something that exists, inside the root. */
  lemma {:induction false} Confined(fold: string -> string, build: Path, t: Tree, root: Path, q: Path,
                                    comps: seq<string>)
    requires WellFormed(t) && FoldsApart(fold) && q in t && Under(build, q, root)
    ensures var r := Follow(fold, build, t, root, q, comps);
            r.Arrives? ==> r.at in t && Under(build, r.at, root)
    decreases |comps|
  {
    hide Match, Names;
    if comps != [] {
      var c, rest := comps[0], comps[1..];
      if c == "" || c == "." {
        Confined(fold, build, t, root, q, rest);
      } else if c == ".." {
        if q != RootOf(build, VolumeOf(build, q)) && Under(build, Parent(q), root) {
          assert ParentIsDir(t, q);
          Confined(fold, build, t, root, Parent(q), rest);
        }
      } else {
        var m := Match(fold, build, t, q, fold(c));
        if m.Some? {
          NameIn(t, q, m.value);
          StaysUnder(fold, build, q, root, c, m.value);
          Confined(fold, build, t, root, q + [m.value], rest);
        }
      }
    }
  }

  /** A named child is on its parent's volume: the build root, seen from the Host side, has no name. */
  lemma {:induction false} StaysUnder(fold: string -> string, build: Path, q: Path, root: Path, c: string, m: string)
    requires FoldsApart(fold) && Under(build, q, root) && c != "" && FoldsTo(fold, build, q, m, fold(c))
    ensures Under(build, q + [m], root)
  {
    var p := q + [m];
    BelowChild(build, q, m);
    assert p[..|root|] == q[..|root|];
    RootHasNoName(build);
  }

  /** Every child answers to its own name, except the build root seen from the directory above it. */
  lemma {:induction false} NamedUnlessRoot(fold: string -> string, build: Path, q: Path, m: string)
    requires FoldsApart(fold) && m != ""
    ensures FoldsTo(fold, build, q, m, fold(m)) <==> q + [m] != build
  {
    RootHasNoName(build);
    var p := q + [m];
    if p != build {
      assert NameOf(build, Node(KeyOf(build, p), 0)) == m;
    }
  }

  /** So no name leads from the directory above to the build root. */
  lemma {:induction false} RootNotFoundByName(fold: string -> string, build: Path, t: Tree, name: string)
    requires FoldsApart(fold) && build != [] && name != ""
    ensures Match(fold, build, t, Parent(build), fold(name)) != Some(Last(build))
  {
    RootHasNoName(build);
    assert Parent(build) + [Last(build)] == build;
    hide Match, Names;
    assert !FoldsTo(fold, build, Parent(build), Last(build), fold(name));
  }

  lemma {:induction false} RootHasNoName(build: Path)
    ensures NameOf(build, Node(KeyOf(build, build), 0)) == ""
  {
    BelowItself(build);
  }

  /** The first root that gives a file decides; the file exists, is no directory and lies in that root. */
  lemma {:induction false} GivenIsInside(fold: string -> string, build: Path, t: Tree, root: Path, comps: seq<string>,
                                         at: Path)
    requires WellFormed(t) && FoldsApart(fold) && Gives(fold, build, t, root, comps, at)
    ensures at in t && t[at].File? && Under(build, at, root) && at != root
  {
    BelowItself(root);
    Confined(fold, build, t, root, root, comps);
  }

  ghost predicate FirstGives(fold: string -> string, build: Path, t: Tree, roots: seq<Node>, comps: seq<string>,
                             i: int, at: Path) {
    0 <= i < |roots| && Gives(fold, build, t, roots[i].key.host, comps, at) &&
    forall j :: 0 <= j < i ==> GivesNothing(fold, build, t, roots[j].key.host, comps)
  }

  function Slashed(s: string): string {
    if s == "" then "" else [if s[0] == '\\' then '/' else s[0]] + Slashed(s[1..])
  }

  /** Backslashes become slashes. */
  lemma {:induction false} SlashedIs(s: string)
    ensures |Slashed(s)| == |s|
    ensures forall i :: 0 <= i < |s| ==> Slashed(s)[i] == if s[i] == '\\' then '/' else s[i]
    decreases |s|
  {
    if s != "" { SlashedIs(s[1..]); }
  }

  method IsUnder(v: Volumes, n: Node, root: Node) returns (r: bool)
    requires v.Valid() && v.Has(n) && v.Has(root)
    modifies v`nodes, v`ids, v`nextId
    ensures v.Valid() && Extends(old(v.nodes), v.nodes) && (old(v.Agreeing()) ==> v.Agreeing())
    ensures r <==> Under(v.build, n.key.host, root.key.host)
  {
    hide WellFormed, KeysOk, IndexOk, NodesOk, Agrees, InternedOk, Under;
    var cursor, more := n, true;
    while more
      invariant v.Valid() && v.Has(cursor) && v.Has(root) && Extends(old(v.nodes), v.nodes)
      invariant old(v.Agreeing()) ==> v.Agreeing()
      invariant Under(v.build, n.key.host, root.key.host) <==> more && Under(v.build, cursor.key.host, root.key.host)
      decreases if more then 1 else 0, |cursor.key.host|
    {
      SameId(v, cursor, root);
      if cursor.id == root.id {
        UnderSelf(v.build, cursor.key.host);
        return true;
      }
      var parent := ParentOf(v, cursor);
      UnderParent(v.build, cursor.key.host, root.key.host);
      if parent.None? {
        more := false;
      } else {
        cursor := parent.value;
      }
    }
    return false;
  }

  lemma {:induction false} SameId(v: Volumes, a: Node, b: Node)
    requires v.Valid() && v.Has(a) && v.Has(b)
    ensures a.id == b.id <==> a.key.host == b.key.host
    ensures a.id == b.id ==> a == b
  {
    assert IsNode(v.build, v.nodes, v.ids, v.nextId, a.key) && IsNode(v.build, v.nodes, v.ids, v.nextId, b.key);
  }

  lemma {:induction false} UnderSelf(build: Path, p: Path)
    ensures Under(build, p, p)
  {
    BelowItself(p);
  }

  lemma {:induction false} UnderParent(build: Path, p: Path, r: Path)
    requires p != r
    ensures Under(build, p, r) <==> p != RootOf(build, VolumeOf(build, p)) && Under(build, Parent(p), r)
  {
    RootIsAbove(build, r);
    if p != RootOf(build, VolumeOf(build, p)) {
      ParentVolume(build, p);
      if Below(r, p) {
        SameLength(r, p);
        assert Parent(p)[..|r|] == p[..|r|];
      }
      if Below(r, Parent(p)) { BelowParent(r, p); }
    } else if Below(r, p) && VolumeOf(build, p) == VolumeOf(build, r) {
      Chain(p, r, p);
    }
  }

  /** `_walk_slash_include` */
  method WalkSlashInclude(v: Volumes, filename: string, roots: seq<Node>) returns (r: Option<Node>)
    requires v.Valid() && forall i :: 0 <= i < |roots| ==> v.Has(roots[i])
    modifies v`nodes, v`ids, v`nextId, v`children, v`byName
    ensures v.Valid() && Extends(old(v.nodes), v.nodes) && (old(v.Agreeing()) ==> v.Agreeing())
    ensures r.Some? ==> v.Has(r.value)
    ensures old(v.Agreeing()) && r.Some? ==>
              exists i :: FirstGives(v.fold, v.build, v.tree, roots, Split(Slashed(filename), '/'), i, r.value.key.host)
    ensures old(v.Agreeing()) && r.None? ==>
              forall i :: 0 <= i < |roots| ==>
                GivesNothing(v.fold, v.build, v.tree, roots[i].key.host, Split(Slashed(filename), '/'))
  {
    hide WellFormed, KeysOk, IndexOk, NodesOk, Agrees, InternedOk, Follow, Split, Slashed;
    var components := Split(Slashed(filename), '/');
    var i := 0;
    while i < |roots|
      invariant i <= |roots| && v.Valid() && Extends(old(v.nodes), v.nodes) && (old(v.Agreeing()) ==> v.Agreeing())
      invariant old(v.Agreeing()) ==>
                  forall j :: 0 <= j < i ==> GivesNothing(v.fold, v.build, v.tree, roots[j].key.host, components)
    {
      if IsDir(v.tree, roots[i].key.host) {
        var found := FollowFrom(v, roots[i], components);
        if found.Some? && !IsDir(v.tree, found.value.key.host) {
          assert old(v.Agreeing()) ==>
                   FirstGives(v.fold, v.build, v.tree, roots, components, i, found.value.key.host);
          return found;
        }
      }
      i := i + 1;
    }
    return None;
  }

  /** The components followed from one root. */
  method FollowFrom(v: Volumes, root: Node, components: seq<string>) returns (r: Option<Node>)
    requires v.Valid() && v.Has(root)
    modifies v`nodes, v`ids, v`nextId, v`children, v`byName
    ensures v.Valid() && Extends(old(v.nodes), v.nodes) && (old(v.Agreeing()) ==> v.Agreeing())
    ensures r.Some? ==> v.Has(r.value)
    ensures old(v.Agreeing()) ==>
              var route := Follow(v.fold, v.build, v.tree, root.key.host, root.key.host, components);
              if r.Some? then route == Arrives(r.value.key.host) else !route.Arrives?
  {
    hide WellFormed, KeysOk, IndexOk, NodesOk, Agrees, InternedOk, Match, Under;
    var current, i := root, 0;
    assert components[0..] == components;
    while i < |components|
      invariant i <= |components| && v.Valid() && v.Has(current) && v.Has(root) && Extends(old(v.nodes), v.nodes)
      invariant old(v.Agreeing()) ==> v.Agreeing()
      invariant old(v.Agreeing()) ==>
                  Follow(v.fold, v.build, v.tree, root.key.host, root.key.host, components) ==
                  Follow(v.fold, v.build, v.tree, root.key.host, current.key.host, components[i..])
    {
      var component := components[i];
      assert components[i..][1..] == components[i + 1..];
      i := i + 1;
      if component == "" || component == "." {
        continue;
      }
      if component == ".." {
        var parent := ParentOf(v, current);
        if parent.None? {
          return None;
        }
        var inside := IsUnder(v, parent.value, root);
        if !inside {
          return None;
        }
        current := parent.value;
        continue;
      }
      if !IsDir(v.tree, current.key.host) {
        return None;
      }
      var matches := MatchesIn(v, current, component);
      if matches == [] {
        return None;
      }
      current := matches[0];
    }
    return Some(current);
  }
}
