/** Colon-separated paths and include paths over the virtual volumes (src/cwhost/vfs.py, `hfs_path` and
    `resolve_hfs`; src/cwhost/session.py, `_walk_slash_include`). */
module HfsPaths {
  import opened VolumeTree
  import opened VolumeCache
  import opened VirtualVolumes
  import opened Wrappers

  // ----- splitting and joining

  function Split(s: string, c: char): (parts: seq<string>)
    ensures |parts| > 0
  {
    if s == "" then [""]
    else if s[0] == c then [""] + Split(s[1..], c)
    else var rest := Split(s[1..], c); [[s[0]] + rest[0]] + rest[1..]
  }

  function Join(parts: seq<string>, c: char): string {
    if parts == [] then "" else if |parts| == 1 then parts[0] else parts[0] + [c] + Join(parts[1..], c)
  }

  lemma {:induction false} SplitHead(a: string, c: char, b: string)
    requires c !in a
    ensures Split(a + [c] + b, c) == [a] + Split(b, c)
    decreases |a|
  {
    var s := a + [c] + b;
    if a == "" {
      assert s[1..] == b;
    } else {
      assert s[1..] == a[1..] + [c] + b;
      SplitHead(a[1..], c, b);
      assert a == [a[0]] + a[1..];
    }
  }

  lemma {:induction false} SplitNone(a: string, c: char)
    requires c !in a
    ensures Split(a, c) == [a]
    decreases |a|
  {
    if a != "" {
      SplitNone(a[1..], c);
      assert a == [a[0]] + a[1..];
    }
  }

  lemma {:induction false} SplitJoin(parts: seq<string>, c: char)
    requires parts != [] && forall i :: 0 <= i < |parts| ==> c !in parts[i]
    ensures Split(Join(parts, c), c) == parts
    decreases |parts|
  {
    if |parts| == 1 {
      SplitNone(parts[0], c);
    } else {
      SplitJoin(parts[1..], c);
      SplitHead(parts[0], c, Join(parts[1..], c));
    }
  }

  function NonEmpty(parts: seq<string>): seq<string> {
    if parts == [] then [] else (if parts[0] == "" then [] else [parts[0]]) + NonEmpty(parts[1..])
  }

  lemma {:induction false} AllNonEmpty(parts: seq<string>)
    requires forall i :: 0 <= i < |parts| ==> parts[i] != ""
    ensures NonEmpty(parts) == parts
    decreases |parts|
  {
    if parts != [] {
      AllNonEmpty(parts[1..]);
      assert parts == [parts[0]] + parts[1..];
    }
  }

  // ----- one component

  /** m is the first child of q, in listing order, whose folded name is f. */
  ghost predicate IsMatch(fold: string -> string, build: Path, t: Tree, q: Path, f: string, m: string) {
    m in Names(t, q) && FoldsTo(fold, build, q, m, f) &&
    forall n :: n in Names(t, q) && FoldsTo(fold, build, q, n, f) ==> n == m || Before(fold, m, n)
  }

  ghost predicate FoldsTo(fold: string -> string, build: Path, q: Path, m: string, f: string) {
    fold(NameOf(build, Node(KeyOf(build, q + [m]), 0))) == f
  }

  ghost function Match(fold: string -> string, build: Path, t: Tree, q: Path, f: string): (r: Option<string>)
    ensures r.Some? ==> IsMatch(fold, build, t, q, f, r.value)
    ensures r.None? ==> !exists m :: IsMatch(fold, build, t, q, f, m)
  {
    if exists m :: IsMatch(fold, build, t, q, f, m) then
      var m :| IsMatch(fold, build, t, q, f, m); Some(m)
    else None
  }

  lemma {:induction false} MatchUnique(fold: string -> string, build: Path, t: Tree, q: Path, f: string, m: string)
    requires IsMatch(fold, build, t, q, f, m)
    ensures Match(fold, build, t, q, f) == Some(m)
  {
    hide FoldsTo, Names, Before;
    var r := Match(fold, build, t, q, f);
    BeforeTotal(fold, m, r.value);
  }

  /** `children_named` keeps exactly the nodes whose name folds to f. */
  lemma {:induction false} FilterMembers(fold: string -> string, build: Path, c: seq<Node>, f: string, n: Node)
    ensures n in Filter(fold, build, c, f) <==> n in c && fold(NameOf(build, n)) == f
    decreases |c|
  {
    hide NameOf;
    if c != [] {
      FilterMembers(fold, build, c[..|c| - 1], f, n);
      assert c == c[..|c| - 1] + [c[|c| - 1]];
    }
  }

  /** The first node of a listing that folds to f, at i. */
  ghost predicate FirstAt(fold: string -> string, build: Path, c: seq<Node>, f: string, i: int) {
    0 <= i < |c| && fold(NameOf(build, c[i])) == f && forall j :: 0 <= j < i ==> fold(NameOf(build, c[j])) != f
  }

  lemma {:induction false} FilterFirst(fold: string -> string, build: Path, c: seq<Node>, f: string) returns (i: int)
    ensures Filter(fold, build, c, f) == [] ==> forall j :: 0 <= j < |c| ==> fold(NameOf(build, c[j])) != f
    ensures Filter(fold, build, c, f) != [] ==> FirstAt(fold, build, c, f, i) && Filter(fold, build, c, f)[0] == c[i]
    decreases |c|
  {
    hide NameOf;
    i := 0;
    if c != [] {
      var front := c[..|c| - 1];
      i := FilterFirst(fold, build, front, f);
      assert forall j :: 0 <= j < |front| ==> c[j] == front[j];
      if Filter(fold, build, front, f) == [] {
        i := |c| - 1;
      }
    }
  }

  /** In a truthful listing the first hit of `children_named` is the match, and no hit means no match. */
  lemma {:induction false} NamedIsMatch(fold: string -> string, build: Path, nodes: Interned, t: Tree, q: Path,
                                        c: seq<Node>, f: string)
    requires Listed(fold, build, nodes, t, q, c)
    ensures var hits := Filter(fold, build, c, f);
            if hits == [] then Match(fold, build, t, q, f).None?
            else ChildOf(build, nodes, q, hits[0]) && Match(fold, build, t, q, f) == Some(Leaf(hits[0]))
  {
    hide Names, Before, NameOf, Sorted;
    var i := FilterFirst(fold, build, c, f);
    var hits := Filter(fold, build, c, f);
    forall j | 0 <= j < |c|
      ensures FoldsTo(fold, build, q, Leaf(c[j]), f) <==> fold(NameOf(build, c[j])) == f
    {
      ChildName(build, nodes, q, c[j]);
    }
    if hits == [] {
      forall m ensures !IsMatch(fold, build, t, q, f, m) {
        if m in Names(t, q) {
          var j :| 0 <= j < |Leaves(c)| && Leaves(c)[j] == m;
          assert Leaf(c[j]) == m;
        }
      }
    } else {
      FirstIsMatch(fold, build, t, q, c, f, i);
      MatchUnique(fold, build, t, q, f, Leaf(c[i]));
    }
  }

  lemma {:induction false} ChildName(build: Path, nodes: Interned, q: Path, n: Node)
    requires ChildOf(build, nodes, q, n)
    ensures NameOf(build, Node(KeyOf(build, q + [Leaf(n)]), 0)) == NameOf(build, n)
  {
    assert n.key.host == q + [Leaf(n)];
  }

  lemma {:induction false} FirstIsMatch(fold: string -> string, build: Path, t: Tree, q: Path, c: seq<Node>, f: string,
                                        i: nat)
    requires i < |c| && IsListing(fold, Names(t, q), Leaves(c))
    requires FoldsTo(fold, build, q, Leaf(c[i]), f)
    requires forall j :: 0 <= j < i ==> !FoldsTo(fold, build, q, Leaf(c[j]), f)
    ensures IsMatch(fold, build, t, q, f, Leaf(c[i]))
  {
    hide Names, Before, FoldsTo;
    assert Leaves(c)[i] in Leaves(c);
    forall n | n in Names(t, q) && FoldsTo(fold, build, q, n, f)
      ensures n == Leaf(c[i]) || Before(fold, Leaf(c[i]), n)
    {
      var j :| 0 <= j < |Leaves(c)| && Leaves(c)[j] == n;
      assert j > i ==> Before(fold, Leaves(c)[i], Leaves(c)[j]);
    }
  }

  // ----- whole paths

  datatype Outcome<T> = Found(at: T) | Missing | Refused

  /** Where a list of components leads. */
  ghost function Walk(fold: string -> string, build: Path, t: Tree, q: Path, comps: seq<string>): Outcome<Path>
    decreases |comps|
  {
    if comps == [] then Found(q)
    else
      var c, rest := comps[0], comps[1..];
      if c == "" || c == "." then Walk(fold, build, t, q, rest)
      else if c == ".." then
        if q == RootOf(build, VolumeOf(build, q)) then Refused else Walk(fold, build, t, Parent(q), rest)
      else
        var m := Match(fold, build, t, q, fold(c));
        if m.None? then Missing else Walk(fold, build, t, q + [m.value], rest)
  }

  function VolumeName(v: Volume): string {
    if v.Build? then "Build" else "Host"
  }

  /** The path as it is shown: the volume, then the names below its root. */
  function Print(build: Path, p: Path): string
    requires Below(RootOf(build, VolumeOf(build, p)), p)
  {
    VolumeName(VolumeOf(build, p)) + ":" + Join(p[|RootOf(build, VolumeOf(build, p))|..], ':')
  }

  function FindVolume(fold: string -> string, name: string): Option<Volume> {
    if fold(name) == fold("Host") then Some(Host) else if fold(name) == fold("Build") then Some(Build) else None
  }

  function Leading(path: string): nat {
    if path != "" && path[0] == ':' then 1 + Leading(path[1..]) else 0
  }

  function Climb(build: Path, q: Path, n: nat): Outcome<Path>
    decreases n
  {
    if n == 0 then Found(q)
    else if q == RootOf(build, VolumeOf(build, q)) then Refused
    else Climb(build, Parent(q), n - 1)
  }

  lemma {:induction false} LeadingFits(path: string)
    ensures Leading(path) <= |path|
  {
    if path != "" && path[0] == ':' { LeadingFits(path[1..]); }
  }

  /** What a path resolves to. */
  ghost function Resolve(fold: string -> string, build: Path, t: Tree, path: string, cwd: Option<Path>): Outcome<Path> {
    if path == "" then Refused
    else if path[0] == ':' then
      if cwd.None? then Refused
      else
        LeadingFits(path);
        match Climb(build, cwd.value, Leading(path) - 1)
        case Found(q) => Walk(fold, build, t, q, NonEmpty(Split(path[Leading(path)..], ':')))
        case other => other
    else
      var parts := Split(path, ':');
      var volume := FindVolume(fold, parts[0]);
      if volume.None? then Refused
      else Walk(fold, build, t, RootOf(build, volume.value), NonEmpty(parts[1..]))
  }

  /** A name a directory entry can have; a colon is allowed in it. */
  predicate EntryName(name: string) {
    name != "" && name != "." && name != ".."
  }

  /** No name below the first k holds a colon. */
  predicate ColonFree(p: Path, k: nat) {
    forall i :: k <= i < |p| ==> ':' !in p[i]
  }

  /** Folding neither adds nor removes a colon, as with any case folding. */
  ghost predicate ColonApart(fold: string -> string) {
    forall a, b :: ':' in a && ':' !in b ==> fold(a) != fold(b)
  }

  /** From q on, each name is the first in listing order among the names that fold alike. */
  ghost predicate FirstOfItsCase(fold: string -> string, build: Path, t: Tree, p: Path, k: nat) {
    forall i {:trigger p[i]} :: k <= i < |p| ==> IsMatch(fold, build, t, p[..i], fold(p[i]), p[i])
  }

  lemma {:induction false} WalkGrows(fold: string -> string, build: Path, t: Tree, q: Path, comps: seq<string>)
    requires forall i :: 0 <= i < |comps| ==> EntryName(comps[i])
    ensures var w := Walk(fold, build, t, q, comps);
            w.Found? ==> |w.at| == |q| + |comps| && w.at[..|q|] == q
    decreases |comps|
  {
    hide Match;
    if comps != [] {
      var m := Match(fold, build, t, q, fold(comps[0]));
      if m.Some? {
        WalkGrows(fold, build, t, q + [m.value], comps[1..]);
        var w := Walk(fold, build, t, q + [m.value], comps[1..]);
        assert w.Found? ==> w.at[..|q|] == (q + [m.value])[..|q|] == q;
      }
    }
  }

  /** Walking along p's own names leads to p exactly when each name comes first among its case variants. */
  lemma {:induction false} WalkFinds(fold: string -> string, build: Path, t: Tree, p: Path, k: nat)
    requires k <= |p| && forall i :: k <= i < |p| ==> EntryName(p[i])
    ensures Walk(fold, build, t, p[..k], p[k..]) == Found(p) <==> FirstOfItsCase(fold, build, t, p, k)
    decreases |p| - k
  {
    hide IsMatch;
    if k == |p| {
      assert p[..k] == p;
    } else {
      var comps, m := p[k..], Match(fold, build, t, p[..k], fold(p[k]));
      assert comps[0] == p[k] && comps[1..] == p[k + 1..] && p[..k] + [p[k]] == p[..k + 1];
      WalkFinds(fold, build, t, p, k + 1);
      if IsMatch(fold, build, t, p[..k], fold(p[k]), p[k]) {
        MatchUnique(fold, build, t, p[..k], fold(p[k]), p[k]);
      } else if m.Some? {
        WalkGrows(fold, build, t, p[..k] + [m.value], comps[1..]);
        assert (p[..k] + [m.value])[k] == m.value;
      }
    }
  }

  lemma {:induction false} SplitPieces(s: string, c: char)
    ensures forall i :: 0 <= i < |Split(s, c)| ==> c !in Split(s, c)[i]
    decreases |s|
  {
    if s != "" { SplitPieces(s[1..], c); }
  }

  lemma {:induction false} NonEmptyMembers(parts: seq<string>)
    ensures forall n :: n in NonEmpty(parts) ==> n in parts && n != ""
    decreases |parts|
  {
    if parts != [] {
      NonEmptyMembers(parts[1..]);
      assert parts == [parts[0]] + parts[1..];
    }
  }

  /** The names a walk can have reached: from k on none holds a colon, the build root's own excepted. */
  ghost predicate Reachable(build: Path, q: Path, k: nat) {
    forall j {:trigger q[j]} :: k <= j < |q| && q[..j + 1] != build ==> ':' !in q[j]
  }

  lemma {:induction false} StepReachable(fold: string -> string, build: Path, q: Path, k: nat, c: string, m: string)
    requires ColonApart(fold) && ':' !in c && FoldsTo(fold, build, q, m, fold(c)) && Reachable(build, q, k)
    ensures Reachable(build, q + [m], k)
  {
    var r := q + [m];
    forall j {:trigger r[j]} | k <= j < |r| && r[..j + 1] != build ensures ':' !in r[j] {
      if j < |q| {
        assert r[..j + 1] == q[..j + 1] && r[j] == q[j];
      } else {
        assert r[..j + 1] == r;
        OwnNameAt(build, q, m);
      }
    }
  }

  /** Whatever the components, as long as they hold no colon, they lead to names without one. */
  lemma {:induction false} WalkReaches(fold: string -> string, build: Path, t: Tree, q: Path, comps: seq<string>,
                                       k: nat)
    requires ColonApart(fold) && Reachable(build, q, k) && forall c :: c in comps ==> ':' !in c
    ensures var w := Walk(fold, build, t, q, comps); w.Found? ==> Reachable(build, w.at, k)
    decreases |comps|
  {
    hide IsMatch, FoldsTo;
    if comps != [] {
      var c, rest := comps[0], comps[1..];
      if c == "" || c == "." {
        WalkReaches(fold, build, t, q, rest, k);
      } else if c == ".." {
        if q != RootOf(build, VolumeOf(build, q)) {
          ParentReachable(build, q, k);
          WalkReaches(fold, build, t, Parent(q), rest, k);
        }
      } else {
        var m := Match(fold, build, t, q, fold(c));
        if m.Some? {
          MatchFolds(fold, build, t, q, c, m.value);
          StepReachable(fold, build, q, k, c, m.value);
          WalkReaches(fold, build, t, q + [m.value], rest, k);
        }
      }
    }
  }

  lemma {:induction false} MatchFolds(fold: string -> string, build: Path, t: Tree, q: Path, c: string, m: string)
    requires Match(fold, build, t, q, fold(c)) == Some(m)
    ensures FoldsTo(fold, build, q, m, fold(c))
  {
  }

  lemma {:induction false} ParentReachable(build: Path, q: Path, k: nat)
    requires Reachable(build, q, k) && q != RootOf(build, VolumeOf(build, q))
    ensures q != [] && Reachable(build, Parent(q), k)
  {
    ParentVolume(build, q);
    var r := Parent(q);
    forall j {:trigger r[j]} | k <= j < |r| && r[..j + 1] != build ensures ':' !in r[j] {
      assert r[..j + 1] == q[..j + 1] && r[j] == q[j];
    }
  }

  /** A node of a volume is not on the way to the build root. */
  lemma {:induction false} ReachedColonFree(build: Path, p: Path)
    requires Reachable(build, p, |RootOf(build, VolumeOf(build, p))|)
    ensures ColonFree(p, |RootOf(build, VolumeOf(build, p))|)
  {
    var k := |RootOf(build, VolumeOf(build, p))|;
    forall i | k <= i < |p| ensures ':' !in p[i] {
      assert Below(p[..i + 1], p);
    }
  }

  /** Resolving a printed path walks the pieces between its colons from the root of its volume. */
  lemma {:induction false} PrintedWalk(fold: string -> string, build: Path, t: Tree, p: Path)
    requires fold("Build") != fold("Host") && Below(RootOf(build, VolumeOf(build, p)), p)
    ensures var k := |RootOf(build, VolumeOf(build, p))|;
            Resolve(fold, build, t, Print(build, p), None) ==
            Walk(fold, build, t, p[..k], NonEmpty(Split(Join(p[k..], ':'), ':')))
  {
    hide Walk;
    var v := VolumeOf(build, p);
    var text, rest := Print(build, p), Join(p[|RootOf(build, v)|..], ':');
    SplitHead(VolumeName(v), ':', rest);
    assert text == VolumeName(v) + [':'] + rest;
    var parts := Split(text, ':');
    assert parts[1..] == Split(rest, ':') && parts[0] == VolumeName(v);
    assert text[0] != ':';
  }

  /** Printing and resolving are inverse exactly on the paths whose names hold no colon and each come
      first, in listing order, among the names they cannot be told from by case. */
  lemma {:induction false} PrintResolves(fold: string -> string, build: Path, t: Tree, p: Path)
    requires fold("Build") != fold("Host") && ColonApart(fold)
    requires var k := |RootOf(build, VolumeOf(build, p))|; forall i :: k <= i < |p| ==> EntryName(p[i])
    ensures Below(RootOf(build, VolumeOf(build, p)), p)
    ensures var k := |RootOf(build, VolumeOf(build, p))|;
            Resolve(fold, build, t, Print(build, p), None) == Found(p) <==>
            ColonFree(p, k) && FirstOfItsCase(fold, build, t, p, k)
  {
    hide Walk, FirstOfItsCase, Resolve, Print, Split, Join, NonEmpty;
    RootIsAbove(build, p);
    var k := |RootOf(build, VolumeOf(build, p))|;
    var rest := Join(p[k..], ':');
    PrintedWalk(fold, build, t, p);
    if ColonFree(p, k) {
      PiecesAreNames(p[k..]);
      WalkFinds(fold, build, t, p, k);
    } else {
      SplitPieces(rest, ':');
      NonEmptyMembers(Split(rest, ':'));
      WalkReaches(fold, build, t, p[..k], NonEmpty(Split(rest, ':')), k);
      if Reachable(build, p, k) { ReachedColonFree(build, p); }
    }
  }

  lemma {:induction false} PiecesAreNames(names: seq<string>)
    requires forall i :: 0 <= i < |names| ==> names[i] != "" && ':' !in names[i]
    ensures NonEmpty(Split(Join(names, ':'), ':')) == names
  {
    if names == [] {
      assert Split("", ':') == [""] && NonEmpty([""]) == [];
    } else {
      SplitJoin(names, ':');
      AllNonEmpty(names);
    }
  }

  // ----- a path and the same path with one component more

  lemma {:induction false} SplitAppend(a: string, c: char, b: string)
    ensures Split(a + [c] + b, c) == Split(a, c) + Split(b, c)
    decreases |a|
  {
    var s := a + [c] + b;
    if a == "" {
      assert s[1..] == b;
    } else {
      assert s[1..] == a[1..] + [c] + b && s[0] == a[0];
      SplitAppend(a[1..], c, b);
    }
  }

  lemma {:induction false} NonEmptyAppend(a: seq<string>, b: seq<string>)
    ensures NonEmpty(a + b) == NonEmpty(a) + NonEmpty(b)
    decreases |a|
  {
    if a == [] {
      assert a + b == b;
    } else {
      assert (a + b)[0] == a[0] && (a + b)[1..] == a[1..] + b;
      NonEmptyAppend(a[1..], b);
    }
  }

  lemma {:induction false} WalkAppend(fold: string -> string, build: Path, t: Tree, q: Path, a: seq<string>,
                                      b: seq<string>)
    ensures var w := Walk(fold, build, t, q, a);
            Walk(fold, build, t, q, a + b) == if w.Found? then Walk(fold, build, t, w.at, b) else w
    decreases |a|
  {
    hide Match;
    if a == [] {
      assert a + b == b;
    } else {
      assert (a + b)[0] == a[0] && (a + b)[1..] == a[1..] + b;
      var c := a[0];
      if c == "" || c == "." {
        WalkAppend(fold, build, t, q, a[1..], b);
      } else if c == ".." {
        if q != RootOf(build, VolumeOf(build, q)) { WalkAppend(fold, build, t, Parent(q), a[1..], b); }
      } else {
        var m := Match(fold, build, t, q, fold(c));
        if m.Some? { WalkAppend(fold, build, t, q + [m.value], a[1..], b); }
      }
    }
  }

  /** An absolute path with more behind it goes on from where it leads, and fails as it fails. */
  lemma {:induction false} AbsoluteGoesOn(fold: string -> string, build: Path, t: Tree, path: string, more: string,
                                          cwd: Option<Path>)
    requires path != "" && path[0] != ':'
    ensures var r := Resolve(fold, build, t, path, cwd);
            Resolve(fold, build, t, path + ":" + more, cwd) ==
            if r.Found? then Walk(fold, build, t, r.at, NonEmpty(Split(more, ':'))) else r
  {
    hide Walk;
    var all, parts := path + ":" + more, Split(path, ':');
    assert all == path + [':'] + more && all[0] == path[0];
    SplitAppend(path, ':', more);
    var both := parts + Split(more, ':');
    assert both[0] == parts[0] && both[1..] == parts[1..] + Split(more, ':');
    NonEmptyAppend(parts[1..], Split(more, ':'));
    var volume := FindVolume(fold, parts[0]);
    if volume.Some? {
      WalkAppend(fold, build, t, RootOf(build, volume.value), NonEmpty(parts[1..]), NonEmpty(Split(more, ':')));
    }
  }

  lemma {:induction false} OnePiece(c: string)
    requires c != "" && ':' !in c
    ensures NonEmpty(Split(c, ':')) == [c]
  {
    SplitNone(c, ':');
    assert [c][1..] == [];
  }

  /** A volume's name, in any case, is the path of its root; any other first component is refused. */
  lemma {:induction false} VolumeResolves(fold: string -> string, build: Path, t: Tree, name: string,
                                          cwd: Option<Path>)
    requires name != "" && ':' !in name
    ensures Resolve(fold, build, t, name, cwd) ==
            if fold(name) == fold("Host") then Found([])
            else if fold(name) == fold("Build") then Found(build)
            else Refused
  {
    SplitNone(name, ':');
    assert [name][1..] == [];
  }

  /** One component more: `..` leads up, but not above the volume's root; `.` and nothing stay; a name leads to the
      first child it cannot be told from by case, or nowhere. */
  lemma {:induction false} ComponentResolves(fold: string -> string, build: Path, t: Tree, path: string, c: string,
                                             cwd: Option<Path>)
    requires path != "" && path[0] != ':' && ':' !in c && Resolve(fold, build, t, path, cwd).Found?
    ensures var q, r := Resolve(fold, build, t, path, cwd).at, Resolve(fold, build, t, path + ":" + c, cwd);
            if c == "" || c == "." then r == Found(q)
            else if c == ".." then
              r == if q == (if Below(build, q) then build else []) then Refused else Found(q[..|q| - 1])
            else
              (forall m :: IsMatch(fold, build, t, q, fold(c), m) ==> r == Found(q + [m])) &&
              ((forall m :: !IsMatch(fold, build, t, q, fold(c), m)) ==> r == Missing)
  {
    var q := Resolve(fold, build, t, path, cwd).at;
    AbsoluteGoesOn(fold, build, t, path, c, cwd);
    hide Resolve, IsMatch;
    if c == "" {
      assert Split("", ':') == [""] && NonEmpty([""]) == [];
    } else {
      OnePiece(c);
      assert [c][1..] == [];
      forall m | IsMatch(fold, build, t, q, fold(c), m) ensures Match(fold, build, t, q, fold(c)) == Some(m) {
        MatchUnique(fold, build, t, q, fold(c), m);
      }
    }
  }

  /** n colons. */
  function Colons(n: nat): (s: string)
    ensures |s| == n && forall i :: 0 <= i < n ==> s[i] == ':'
  {
    seq(n, _ => ':')
  }

  lemma {:induction false} LeadingIs(n: nat, rest: string)
    requires rest == "" || rest[0] != ':'
    ensures Leading(Colons(n) + rest) == n
    decreases n
  {
    var s := Colons(n) + rest;
    if n == 0 {
      assert s == rest;
    } else {
      assert s[1..] == Colons(n - 1) + rest;
      LeadingIs(n - 1, rest);
    }
  }

  lemma {:induction false} ClimbIs(build: Path, q: Path, n: nat)
    ensures var root := RootOf(build, VolumeOf(build, q));
            Below(root, q) &&
            Climb(build, q, n) == if |root| + n <= |q| then Found(q[..|q| - n]) else Refused
    decreases n
  {
    var root := RootOf(build, VolumeOf(build, q));
    RootIsAbove(build, q);
    if n == 0 {
      assert q[..|q|] == q;
    } else if q != root {
      SameLength(root, q);
      ParentVolume(build, q);
      ClimbIs(build, Parent(q), n - 1);
      if |root| + n <= |q| { assert Parent(q)[..|q| - n] == q[..|q| - n]; }
    }
  }

  /** A path that starts with n colons is relative: the first colon stands for the current directory, and each further
      one climbs, at most to the volume's root; then it goes on like any other. */
  lemma {:induction false} RelativeResolves(fold: string -> string, build: Path, t: Tree, n: nat, rest: string,
                                            cwd: Option<Path>)
    requires n > 0 && (rest == "" || rest[0] != ':')
    ensures Resolve(fold, build, t, Colons(n) + rest, cwd) ==
            if cwd.None? then Refused
            else
              var q := cwd.value;
              if (if Below(build, q) then |build| else 0) + (n - 1) > |q| then Refused
              else Walk(fold, build, t, q[..|q| - (n - 1)], NonEmpty(Split(rest, ':')))
  {
    hide Walk, Climb;
    var s := Colons(n) + rest;
    LeadingIs(n, rest);
    assert s[0] == ':' && s[n..] == rest;
    if cwd.Some? {
      ClimbIs(build, cwd.value, n - 1);
    }
  }

  /** From the current directory up n - 1 levels and down again: the path leads to p exactly when each of its names
      comes first among its case variants. */
  lemma {:induction false} RelativeFinds(fold: string -> string, build: Path, t: Tree, n: nat, q: Path, p: Path)
    requires n > 0 && (if Below(build, q) then |build| else 0) + (n - 1) <= |q|
    requires var k := |q| - (n - 1);
             k <= |p| && p[..k] == q[..k] && forall i :: k <= i < |p| ==> EntryName(p[i]) && ':' !in p[i]
    ensures var k := |q| - (n - 1);
            Resolve(fold, build, t, Colons(n) + Join(p[k..], ':'), Some(q)) == Found(p) <==>
            FirstOfItsCase(fold, build, t, p, k)
  {
    var k := |q| - (n - 1);
    var rest := Join(p[k..], ':');
    PiecesAreNames(p[k..]);
    JoinStart(p[k..]);
    RelativeResolves(fold, build, t, n, rest, Some(q));
    WalkFinds(fold, build, t, p, k);
  }

  lemma {:induction false} JoinStart(names: seq<string>)
    requires forall i :: 0 <= i < |names| ==> names[i] != "" && ':' !in names[i]
    ensures Join(names, ':') == "" || Join(names, ':')[0] != ':'
  {
    if names != [] {
      assert names[0][0] in names[0];
    }
  }

  ghost predicate CaseUnique(fold: string -> string, build: Path, t: Tree, p: Path, k: nat) {
    forall i, n :: k <= i < |p| && n in Names(t, p[..i]) && FoldsTo(fold, build, p[..i], n, fold(p[i])) ==> n == p[i]
  }

  function FoldsCapital(): string -> string {
    s => if s == "A" then "a" else s
  }

  /** An instance: of two files A and a, the path printed for a leads to A. */
  lemma {:induction false} SecondCaseIsLost()
    ensures var t: Tree := map[[] := Dir, ["A"] := File([]), ["a"] := File([])];
            Print(["b"], ["a"]) == "Host:a" &&
            Resolve(FoldsCapital(), ["b"], t, "Host:a", None) != Found(["a"])
  {
    var fold, build: Path, p: Path := FoldsCapital(), ["b"], ["a"];
    var t: Tree := map[[] := Dir, ["A"] := File([]), p := File([])];
    assert p[..1] == p && build[0] == "b" && p[0] == "a" && !Below(build, p);
    assert p[0..] == p && Join(p, ':') == "a" && Print(build, p) == "Host:a";
    NameIn(t, [], "A");
    assert [] + ["A"] == ["A"] && ["A"][..1][0] == "A";
    assert FoldsTo(fold, build, [], "A", "a");
    assert !Less("a", "A") && !Before(fold, "a", "A");
    assert p[..0] == [] && !IsMatch(fold, build, t, p[..0], fold(p[0]), p[0]);
    PrintResolves(fold, build, t, p);
  }

  /** An instance: the file a:b is the only one there is, and the path printed for it does not lead to it. */
  lemma {:induction false} ColonIsLost()
    ensures var t: Tree := map[[] := Dir, ["a:b"] := File([])];
            Print(["z"], ["a:b"]) == "Host:a:b" && FirstOfItsCase(s => s, ["z"], t, ["a:b"], 0) &&
            Resolve(s => s, ["z"], t, "Host:a:b", None) != Found(["a:b"])
  {
    var fold, build: Path, p: Path := (s: string) => s, ["z"], ["a:b"];
    var t: Tree := map[[] := Dir, p := File([])];
    assert p[..1] == p && build[0] == "z" && p[0] == "a:b" && !Below(build, p);
    assert p[0..] == p && Join(p, ':') == "a:b" && Print(build, p) == "Host:a:b";
    assert p[..0] == [] && [] + ["a:b"] == p;
    NameIn(t, [], "a:b");
    assert FirstOfItsCase(fold, build, t, p, 0) by {
      forall n | n in Names(t, []) ensures n == "a:b" {
        NameIn(t, [], n);
        assert ([] + [n])[0] == n;
      }
    }
    assert ':' == "a:b"[1];
    PrintResolves(fold, build, t, p);
  }

  /** In particular, an existing path whose names are case-unique among their siblings resolves to itself
      exactly when none of them holds a colon. */
  lemma {:induction false} UniqueResolves(fold: string -> string, build: Path, t: Tree, p: Path)
    requires fold("Build") != fold("Host") && ColonApart(fold) && WellFormed(t) && p in t
    requires var k := |RootOf(build, VolumeOf(build, p))|; forall i :: k <= i < |p| ==> EntryName(p[i])
    requires CaseUnique(fold, build, t, p, |RootOf(build, VolumeOf(build, p))|)
    ensures Below(RootOf(build, VolumeOf(build, p)), p)
    ensures Resolve(fold, build, t, Print(build, p), None) == Found(p) <==>
            ColonFree(p, |RootOf(build, VolumeOf(build, p))|)
  {
    hide Names, Resolve, Print, WellFormed;
    RootIsAbove(build, p);
    var k := |RootOf(build, VolumeOf(build, p))|;
    forall i {:trigger p[i]} | k <= i < |p| ensures IsMatch(fold, build, t, p[..i], fold(p[i]), p[i]) {
      AncestorsExist(t, p, i + 1);
      NameIn(t, p[..i], p[i]);
      assert p[..i + 1] == p[..i] + [p[i]];
      OwnName(build, p, i);
    }
    PrintResolves(fold, build, t, p);
  }

  lemma {:induction false} OwnName(build: Path, p: Path, i: nat)
    requires |RootOf(build, VolumeOf(build, p))| <= i < |p|
    ensures NameOf(build, Node(KeyOf(build, p[..i] + [p[i]]), 0)) == p[i]
  {
    var r := p[..i] + [p[i]];
    if Below(build, p) {
      assert r[..|build|] == p[..|build|];
    }
    assert Below(r, p);
    Chain(build, r, p);
  }

  lemma {:induction false} OwnNameAt(build: Path, q: Path, m: string)
    requires q + [m] != build
    ensures NameOf(build, Node(KeyOf(build, q + [m]), 0)) == m
  {
  }

  // ----- the loops

  ghost function Target(r: Outcome<Node>): Outcome<Path> {
    match r
    case Found(n) => Found(n.key.host)
    case Missing => Missing
    case Refused => Refused
  }

  /** `Node.parent`: none at a volume root. */
  method ParentOf(v: Volumes, n: Node) returns (r: Option<Node>)
    requires v.Valid() && v.Has(n)
    modifies v`nodes, v`ids, v`nextId
    ensures v.Valid() && Extends(old(v.nodes), v.nodes) && (old(v.Agreeing()) ==> v.Agreeing())
    ensures r.None? <==> n.key.host == RootOf(v.build, VolumeOf(v.build, n.key.host))
    ensures r.Some? ==> v.Has(r.value) && r.value.key.host == Parent(n.key.host) && r.value.key.volume == n.key.volume
    ensures r.Some? ==> |r.value.key.host| < |n.key.host|
  {
    hide WellFormed, KeysOk, IndexOk, NodesOk, Agrees;
    assert IsNode(v.build, v.nodes, v.ids, v.nextId, n.key);
    hide InternedOk;
    if n.key.host == RootOf(v.build, n.key.volume) {
      return None;
    }
    ParentVolume(v.build, n.key.host);
    var parent := v.NodeAt(Parent(n.key.host));
    return Some(parent);
  }

  lemma {:induction false} SameLength(a: Path, b: Path)
    requires Below(a, b)
    ensures |a| == |b| ==> a == b
  {
    if |a| == |b| { assert b[..|a|] == b; }
  }

  lemma {:induction false} ParentVolume(build: Path, p: Path)
    requires p != RootOf(build, VolumeOf(build, p))
    ensures p != [] && VolumeOf(build, Parent(p)) == VolumeOf(build, p)
  {
    if Below(build, p) {
      SameLength(build, p);
      assert Parent(p)[..|build|] == p[..|build|];
    } else if p != [] {
      if Below(build, Parent(p)) { BelowParent(build, p); }
    }
  }

  /** The cursor is between the node and its volume's root; `current` holds the names it has passed. */
  ghost predicate OnTheWay(build: Path, host: Path, cursor: Path, current: seq<string>) {
    var root := RootOf(build, VolumeOf(build, host));
    Below(cursor, host) && Below(root, cursor) && VolumeOf(build, cursor) == VolumeOf(build, host) &&
    current == host[|cursor|..]
  }

  lemma {:induction false} StepsUp(build: Path, host: Path, cursor: Path, current: seq<string>)
    requires OnTheWay(build, host, cursor, current) && cursor != RootOf(build, VolumeOf(build, cursor))
    ensures cursor != [] && OnTheWay(build, host, Parent(cursor), [Last(cursor)] + current)
  {
    Climbs(RootOf(build, VolumeOf(build, host)), host, cursor);
    ParentVolume(build, cursor);
  }

  lemma {:induction false} WayEnds(build: Path, host: Path, current: seq<string>)
    ensures OnTheWay(build, host, host, [])
    ensures OnTheWay(build, host, RootOf(build, VolumeOf(build, host)), current) ==>
              VolumeName(VolumeOf(build, host)) + ":" + Join(current, ':') == Print(build, host)
  {
    RootIsAbove(build, host);
    BelowItself(host);
  }

  /** `hfs_path` */
  method HfsPath(v: Volumes, n: Node) returns (text: string)
    requires v.Valid() && v.Has(n)
    modifies v`nodes, v`ids, v`nextId
    ensures v.Valid() && Extends(old(v.nodes), v.nodes) && (old(v.Agreeing()) ==> v.Agreeing())
    ensures Below(RootOf(v.build, VolumeOf(v.build, n.key.host)), n.key.host) && text == Print(v.build, n.key.host)
  {
    hide WellFormed, KeysOk, IndexOk, NodesOk, Agrees, InternedOk, OnTheWay, Print, Below;
    RootIsAbove(v.build, n.key.host);
    WayEnds(v.build, n.key.host, []);
    var current: seq<string>, cursor := [], n;
    var parent := ParentOf(v, cursor);
    while parent.Some?
      invariant v.Valid() && Extends(old(v.nodes), v.nodes) && (old(v.Agreeing()) ==> v.Agreeing())
      invariant v.Has(cursor) && OnTheWay(v.build, n.key.host, cursor.key.host, current)
      invariant parent.None? <==> cursor.key.host == RootOf(v.build, VolumeOf(v.build, cursor.key.host))
      invariant parent.Some? ==> v.Has(parent.value) && parent.value.key.host == Parent(cursor.key.host) &&
                                 |parent.value.key.host| < |cursor.key.host|
      decreases |cursor.key.host|
    {
      StepsUp(v.build, n.key.host, cursor.key.host, current);
      KeyIsOwn(v, cursor);
      current := [NameOf(v.build, cursor)] + current;
      cursor := parent.value;
      parent := ParentOf(v, cursor);
    }
    KeyIsOwn(v, cursor);
    SameVolume(v.build, n.key.host, cursor.key.host, current);
    WayEnds(v.build, n.key.host, current);
    return VolumeName(cursor.key.volume) + ":" + Join(current, ':');
  }

  lemma {:induction false} SameVolume(build: Path, host: Path, cursor: Path, current: seq<string>)
    requires OnTheWay(build, host, cursor, current)
    ensures VolumeOf(build, cursor) == VolumeOf(build, host)
  {
  }

  lemma {:induction false} Climbs(root: Path, host: Path, q: Path)
    requires Below(q, host) && Below(root, q) && q != root
    ensures q != [] && Below(Parent(q), host) && Below(root, Parent(q))
    ensures host[|q| - 1..] == [Last(q)] + host[|q|..]
  {
    SameLength(root, q);
    assert Parent(q) == host[..|q| - 1];
    assert Parent(q)[..|root|] == q[..|root|];
    assert Last(q) == host[..|q|][|q| - 1];
  }

  /** `resolve_hfs`: with a truthful cache, it returns the one interned node at the place resolved. */
  method ResolveHfs(v: Volumes, path: string, cwd: Option<Node>) returns (r: Outcome<Node>)
    requires v.Valid() && (cwd.Some? ==> v.Has(cwd.value))
    modifies v`nodes, v`ids, v`nextId, v`children, v`byName
    ensures v.Valid() && Extends(old(v.nodes), v.nodes) && (old(v.Agreeing()) ==> v.Agreeing())
    ensures r.Found? ==> v.Has(r.at) && r.at.key == KeyOf(v.build, r.at.key.host)
    ensures old(v.Agreeing()) ==>
              Target(r) == Resolve(v.fold, v.build, v.tree, path, if cwd.Some? then Some(cwd.value.key.host) else None)
  {
    hide WellFormed, KeysOk, IndexOk, NodesOk, Agrees, InternedOk, Walk, FindVolume;
    if path == "" {
      return Refused;
    }
    var current: Node, components;
    if path[0] == ':' {
      if cwd.None? {
        return Refused;
      }
      LeadingFits(path);
      var top := ClimbFrom(v, cwd.value, Leading(path) - 1);
      if !top.Found? {
        return top;
      }
      current, components := top.at, NonEmpty(Split(path[Leading(path)..], ':'));
    } else {
      var parts := Split(path, ':');
      var volume := FindVolume(v.fold, parts[0]);
      if volume.None? {
        return Refused;
      }
      current := v.NodeAt(RootOf(v.build, volume.value));
      components := NonEmpty(parts[1..]);
    }
    r := WalkFrom(v, current, components);
  }

  method ClimbFrom(v: Volumes, n: Node, count: nat) returns (r: Outcome<Node>)
    requires v.Valid() && v.Has(n)
    modifies v`nodes, v`ids, v`nextId
    ensures v.Valid() && Extends(old(v.nodes), v.nodes) && (old(v.Agreeing()) ==> v.Agreeing())
    ensures r.Found? ==> v.Has(r.at)
    ensures Target(r) == Climb(v.build, n.key.host, count)
  {
    hide WellFormed, KeysOk, IndexOk, NodesOk, Agrees, InternedOk;
    var current, i := n, 0;
    while i < count
      invariant i <= count && v.Valid() && v.Has(current) && Extends(old(v.nodes), v.nodes)
      invariant old(v.Agreeing()) ==> v.Agreeing()
      invariant Climb(v.build, n.key.host, count) == Climb(v.build, current.key.host, count - i)
    {
      var parent := ParentOf(v, current);
      if parent.None? {
        return Refused;
      }
      current, i := parent.value, i + 1;
    }
    return Found(current);
  }

  method WalkFrom(v: Volumes, start: Node, components: seq<string>) returns (r: Outcome<Node>)
    requires v.Valid() && v.Has(start)
    modifies v`nodes, v`ids, v`nextId, v`children, v`byName
    ensures v.Valid() && Extends(old(v.nodes), v.nodes) && (old(v.Agreeing()) ==> v.Agreeing())
    ensures r.Found? ==> v.Has(r.at) && r.at.key == KeyOf(v.build, r.at.key.host)
    ensures old(v.Agreeing()) ==> Target(r) == Walk(v.fold, v.build, v.tree, start.key.host, components)
  {
    hide WellFormed, KeysOk, IndexOk, NodesOk, Agrees, InternedOk, Match, Listed, Filter;
    var current, i := start, 0;
    assert components[0..] == components;
    while i < |components|
      invariant i <= |components| && v.Valid() && v.Has(current) && Extends(old(v.nodes), v.nodes)
      invariant old(v.Agreeing()) ==> v.Agreeing()
      invariant old(v.Agreeing()) ==>
                  Walk(v.fold, v.build, v.tree, start.key.host, components) ==
                  Walk(v.fold, v.build, v.tree, current.key.host, components[i..])
    {
      var component := components[i];
      assert components[i..][1..] == components[i + 1..];
      i := i + 1;
      if component == "." || component == "" {
        continue;
      }
      if component == ".." {
        var parent := ParentOf(v, current);
        if parent.None? {
          return Refused;
        }
        current := parent.value;
        continue;
      }
      var q := current.key.host;
      var matches := MatchesIn(v, current, component);
      if matches == [] {
        return Missing;
      }
      current := matches[0];
    }
    KeyIsOwn(v, current);
    return Found(current);
  }

  lemma {:induction false} KeyIsOwn(v: Volumes, n: Node)
    requires v.Valid() && v.Has(n)
    ensures n.key == KeyOf(v.build, n.key.host)
  {
    assert IsNode(v.build, v.nodes, v.ids, v.nextId, n.key);
  }

  /** `children_named`, read as one step of a path. */
  method MatchesIn(v: Volumes, n: Node, name: string) returns (hits: seq<Node>)
    requires v.Valid() && v.Has(n)
    modifies v`nodes, v`ids, v`nextId, v`children, v`byName
    ensures v.Valid() && Extends(old(v.nodes), v.nodes) && (old(v.Agreeing()) ==> v.Agreeing())
    ensures old(v.Agreeing()) ==>
              var m := Match(v.fold, v.build, v.tree, n.key.host, v.fold(name));
              if hits == [] then m.None? else m.Some? && hits[0].key.host == n.key.host + [m.value]
    ensures hits != [] ==> v.Has(hits[0])
  {
    hide WellFormed, KeysOk, IndexOk, InternedOk, Match, Filter, Listed;
    hits := v.ChildrenNamed(n, name);
    if hits != [] {
      FilterMembers(v.fold, v.build, v.children[n.key], v.fold(name), hits[0]);
    }
    if v.Agreeing() {
      NamedIsMatch(v.fold, v.build, v.nodes, v.tree, n.key.host, v.children[n.key], v.fold(name));
    }
  }
}
