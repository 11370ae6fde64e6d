/** The host's directory tree as the virtual volumes see it (src/cwhost/vfs.py): canonical paths, no
    symbolic links. */
module VolumeTree {
  import opened Bytes
  import opened Wrappers

  type Path = seq<string>

  datatype Entry = Dir | File(data: seq<Byte>)

  type Tree = map<Path, Entry>

  function Parent(p: Path): Path {
    if p == [] then [] else p[..|p| - 1]
  }

  function Last(p: Path): string
    requires p != []
  {
    p[|p| - 1]
  }

  predicate IsDir(t: Tree, p: Path) {
    p in t && t[p].Dir?
  }

  predicate ParentIsDir(t: Tree, p: Path) {
    p != [] ==> IsDir(t, Parent(p))
  }

  ghost predicate WellFormed(t: Tree) {
    IsDir(t, []) && forall p {:trigger ParentIsDir(t, p)} :: p in t ==> ParentIsDir(t, p)
  }

  /** The names in a directory. */
  function Names(t: Tree, q: Path): set<string> {
    set p | p in t && |p| == |q| + 1 && p[..|q|] == q :: p[|q|]
  }

  predicate Above(q: Path, p: Path) {
    |q| < |p| && p[..|q|] == q
  }

  lemma {:induction false} NameIn(t: Tree, q: Path, n: string)
    ensures n in Names(t, q) <==> q + [n] in t
  {
    if q + [n] in t {
      var p := q + [n];
      assert p[..|q|] == q && p[|q|] == n;
    }
    if n in Names(t, q) {
      var p :| p in t && |p| == |q| + 1 && p[..|q|] == q && p[|q|] == n;
      assert p == q + [n];
    }
  }

  lemma {:induction false} SameNames<T(!new)>(a: set<T>, b: set<T>)
    requires forall x :: x in a <==> x in b
    ensures a == b
  {
  }

  lemma {:induction false} OnlyDirsHaveNames(t: Tree, q: Path)
    requires WellFormed(t) && !IsDir(t, q)
    ensures Names(t, q) == {}
  {
    forall n ensures n !in Names(t, q) {
      NameIn(t, q, n);
      assert Parent(q + [n]) == q;
      assert ParentIsDir(t, q + [n]) || q + [n] !in t;
    }
    SameNames(Names(t, q), {});
  }

  lemma {:induction false} AncestorsExist(t: Tree, p: Path, k: nat)
    requires WellFormed(t) && p in t && k <= |p|
    ensures p[..k] in t && (k < |p| ==> IsDir(t, p[..k]))
    decreases |p|
  {
    assert ParentIsDir(t, p);
    if k == |p| {
      assert p[..k] == p;
    } else {
      AncestorsExist(t, Parent(p), k);
      assert Parent(p)[..k] == p[..k];
      if k == |p| - 1 { assert p[..k] == Parent(p); }
    }
  }

  // ----- writing a file

  /** `mkdir(parents=True, exist_ok=True)`; nothing happens when it fails. */
  predicate CanMake(t: Tree, q: Path)
    decreases |q|
  {
    if q in t then t[q].Dir? else q != [] && CanMake(t, Parent(q))
  }

  function MakeDirs(t: Tree, q: Path): Tree
    decreases |q|
  {
    if q in t || q == [] then t else MakeDirs(t, Parent(q))[q := Dir]
  }

  function Write(t: Tree, p: Path, data: seq<Byte>): Option<Tree> {
    if p == [] || !CanMake(t, Parent(p)) || IsDir(t, p) then None
    else Some(MakeDirs(t, Parent(p))[p := File(data)])
  }

  lemma {:induction false} Made(t: Tree, q: Path, p: Path)
    requires WellFormed(t) && CanMake(t, q)
    ensures p in MakeDirs(t, q) <==> p in t || (|p| <= |q| && q[..|p|] == p)
    ensures p in t ==> MakeDirs(t, q)[p] == t[p]
    ensures p in MakeDirs(t, q) && p !in t ==> MakeDirs(t, q)[p] == Dir
    decreases |q|
  {
    if q in t {
      if |p| <= |q| && q[..|p|] == p { AncestorsExist(t, q, |p|); }
    } else {
      Made(t, Parent(q), p);
      if |p| == |q| && q[..|p|] == p { assert p == q; }
      if |p| < |q| { assert Parent(q)[..|p|] == q[..|p|]; }
    }
  }

  lemma {:induction false} WriteKeeps(t: Tree, p: Path, data: seq<Byte>)
    requires WellFormed(t) && Write(t, p, data).Some?
    ensures var t2 := Write(t, p, data).value;
            WellFormed(t2) && t2[p] == File(data) && forall r :: r in t && r != p ==> r in t2 && t2[r] == t[r]
  {
    hide MakeDirs, CanMake;
    var t2 := Write(t, p, data).value;
    forall r | r in t2 ensures ParentIsDir(t2, r) {
      if r != [] { ParentMade(t, p, data, r); }
    }
    forall r | r in t && r != p ensures r in t2 && t2[r] == t[r] {
      Made(t, Parent(p), r);
    }
    Made(t, Parent(p), []);
  }

  /** A file can be written where no directory is and nothing above is a file. */
  lemma {:induction false} WriteSucceeds(t: Tree, p: Path, data: seq<Byte>)
    requires WellFormed(t)
    ensures Write(t, p, data).Some? <==>
            p != [] && !IsDir(t, p) && forall k :: 0 <= k < |p| && p[..k] in t ==> t[p[..k]].Dir?
  {
    if p != [] {
      CanMakeIs(t, Parent(p));
      forall k | 0 <= k < |p| ensures Parent(p)[..k] == p[..k] {
      }
    }
  }

  lemma {:induction false} CanMakeIs(t: Tree, q: Path)
    requires WellFormed(t)
    ensures CanMake(t, q) <==> forall k :: 0 <= k <= |q| && q[..k] in t ==> t[q[..k]].Dir?
    decreases |q|
  {
    assert q[..|q|] == q;
    if q in t {
      forall k | 0 <= k < |q| && q[..k] in t ensures t[q[..k]].Dir? {
        AncestorsExist(t, q, k);
      }
    } else if q != [] {
      CanMakeIs(t, Parent(q));
      forall k | 0 <= k < |q| ensures Parent(q)[..k] == q[..k] {
      }
    }
  }

  lemma {:induction false} ParentMade(t: Tree, p: Path, data: seq<Byte>, r: Path)
    requires WellFormed(t) && Write(t, p, data).Some? && r in Write(t, p, data).value && r != []
    ensures IsDir(Write(t, p, data).value, Parent(r))
  {
    hide MakeDirs, CanMake;
    Made(t, Parent(p), r);
    Made(t, Parent(p), Parent(r));
    MadeDir(t, Parent(p));
    if r == p {
    } else if r in t {
      assert ParentIsDir(t, r) && Parent(r) != p;
    } else {
      assert Parent(p)[..|r| - 1] == Parent(r);
      assert Parent(r) != p;
      MakeDirsPath(t, Parent(p), |r| - 1);
    }
  }

  lemma {:induction false} MadeDir(t: Tree, q: Path)
    requires CanMake(t, q)
    ensures IsDir(MakeDirs(t, q), q)
  {
  }

  lemma {:induction false} MakeDirsPath(t: Tree, q: Path, k: nat)
    requires WellFormed(t) && CanMake(t, q) && k <= |q|
    ensures IsDir(MakeDirs(t, q), q[..k])
    decreases |q|
  {
    if k == |q| {
      assert q[..k] == q;
    } else if q in t {
      AncestorsExist(t, q, k);
    } else {
      MakeDirsPath(t, Parent(q), k);
      assert Parent(q)[..k] == q[..k];
    }
  }

  /** A write adds to each directory above the file the next name on the way to it, and no other name. */
  lemma {:induction false} WriteNames(t: Tree, p: Path, data: seq<Byte>, q: Path, n: string)
    requires WellFormed(t) && Write(t, p, data).Some?
    ensures n in Names(Write(t, p, data).value, q) <==> n in Names(t, q) || (Above(q, p) && n == p[|q|])
  {
    hide MakeDirs, CanMake, Names;
    var t2, r := Write(t, p, data).value, q + [n];
    NameIn(t, q, n);
    NameIn(t2, q, n);
    Made(t, Parent(p), r);
    assert r[..|q|] == q;
    if |r| <= |p| {
      assert p[..|r|] == r <==> Above(q, p) && n == p[|q|] by {
        if p[..|r|] == r {
          assert p[..|q|] == r[..|q|] == q && p[|q|] == r[|q|];
        }
        if Above(q, p) && n == p[|q|] {
          assert p[..|q| + 1] == p[..|q|] + [p[|q|]];
        }
      }
    }
    if |r| < |p| {
      assert Parent(p)[..|r|] == p[..|r|];
    } else if |r| == |p| {
      assert p[..|r|] == p;
    }
  }

  // ----- deleting

  /** A deletion takes a file or an empty directory away, and nothing else. */
  lemma {:induction false} DeleteIs(t: Tree, p: Path)
    requires WellFormed(t)
    ensures Delete(t, p).Some? <==> p != [] && p in t && forall q :: q in t && Above(p, q) ==> false
    ensures Delete(t, p).Some? ==> forall q :: q in Delete(t, p).value <==> q in t && q != p
    ensures Delete(t, p).Some? ==> forall q :: q in Delete(t, p).value ==> Delete(t, p).value[q] == t[q]
  {
    forall q | q in t && Above(p, q) ensures q[|p|] in Names(t, p) {
      AncestorsExist(t, q, |p| + 1);
      assert q[..|p| + 1] == p + [q[|p|]];
      NameIn(t, p, q[|p|]);
    }
    forall n | n in Names(t, p) ensures p + [n] in t && Above(p, p + [n]) {
      NameIn(t, p, n);
    }
  }

  function Delete(t: Tree, p: Path): Option<Tree> {
    if p == [] || p !in t || Names(t, p) != {} then None else Some(t - {p})
  }

  lemma {:induction false} DeleteKeeps(t: Tree, p: Path)
    requires WellFormed(t) && Delete(t, p).Some?
    ensures WellFormed(Delete(t, p).value)
  {
    hide Names;
    var t2 := Delete(t, p).value;
    forall r | r in t2 ensures ParentIsDir(t2, r) {
      if r != [] {
        NameIn(t, Parent(r), Last(r));
        assert r == Parent(r) + [Last(r)] && ParentIsDir(t, r);
      }
    }
  }

  lemma {:induction false} DeleteNames(t: Tree, p: Path, q: Path, n: string)
    requires WellFormed(t) && Delete(t, p).Some?
    ensures n in Names(Delete(t, p).value, q) <==> n in Names(t, q) && !(q == Parent(p) && n == Last(p))
  {
    hide Names;
    NameIn(t, q, n);
    NameIn(Delete(t, p).value, q, n);
    assert (q + [n] == p) <==> (q == Parent(p) && n == Last(p)) by {
      assert Parent(q + [n]) == q && Last(q + [n]) == n;
      assert p == Parent(p) + [Last(p)];
    }
  }

  // ----- renaming

  predicate Below(p: Path, q: Path) {
    |p| <= |q| && q[..|p|] == p
  }

  function Targets(t: Tree, p: Path, d: Path): set<Path> {
    set q | q in t && Below(p, q) :: d + q[|p|..]
  }

  function MovedEntry(t: Tree, p: Path, d: Path, r: Path): Entry {
    if Below(d, r) && p + r[|d|..] in t then t[p + r[|d|..]] else Dir
  }

  /** Everything at or below p, at or below d instead. */
  function Move(t: Tree, p: Path, d: Path): Tree {
    (map q | q in t && !Below(p, q) :: t[q]) + (map r | r in Targets(t, p, d) :: MovedEntry(t, p, d, r))
  }

  /** `rename`: a file may replace a file, a directory only an empty directory. */
  function Rename(t: Tree, p: Path, d: Path): Option<Tree> {
    if p !in t || p == [] || d == [] then None
    else if p == d then Some(t)
    else if !IsDir(t, Parent(d)) || Below(p, d) then None
    else if d in t && (t[p].Dir? != t[d].Dir? || Names(t, d) != {}) then None
    else Some(Move(t, p, d))
  }

  lemma {:induction false} TargetIn(t: Tree, p: Path, d: Path, r: Path)
    ensures r in Targets(t, p, d) <==> Below(d, r) && p + r[|d|..] in t
  {
    if r in Targets(t, p, d) {
      var q :| q in t && Below(p, q) && r == d + q[|p|..];
      assert r[..|d|] == d && r[|d|..] == q[|p|..];
      assert q == q[..|p|] + q[|p|..];
    }
    if Below(d, r) && p + r[|d|..] in t {
      var q := p + r[|d|..];
      assert q[..|p|] == p && q[|p|..] == r[|d|..];
      assert r == d + q[|p|..];
    }
  }

  lemma {:induction false} Moved(t: Tree, p: Path, d: Path, r: Path)
    ensures Below(d, r) && p + r[|d|..] in t ==> r in Move(t, p, d) && Move(t, p, d)[r] == t[p + r[|d|..]]
    ensures !(Below(d, r) && p + r[|d|..] in t) ==>
              (r in Move(t, p, d) <==> r in t && !Below(p, r)) && (r in Move(t, p, d) ==> Move(t, p, d)[r] == t[r])
  {
    hide Targets;
    TargetIn(t, p, d, r);
  }

  lemma {:induction false} RenameKeeps(t: Tree, p: Path, d: Path)
    requires WellFormed(t) && Rename(t, p, d).Some?
    ensures WellFormed(Rename(t, p, d).value)
  {
    hide Move, Names, Below;
    if p != d {
      forall r | r in Move(t, p, d) ensures ParentIsDir(Move(t, p, d), r) {
        if r != [] { MoveParent(t, p, d, r); }
      }
      Moved(t, p, d, []);
      BelowNothing(p);
      BelowNothing(d);
    }
  }

  lemma {:induction false} BelowNothing(p: Path)
    requires p != []
    ensures !Below(p, [])
  {
  }

  lemma {:induction false} MoveParent(t: Tree, p: Path, d: Path, r: Path)
    requires WellFormed(t) && Rename(t, p, d).Some? && p != d && r in Move(t, p, d) && r != []
    ensures IsDir(Move(t, p, d), Parent(r))
  {
    hide Move, Names;
    Moved(t, p, d, r);
    Moved(t, p, d, Parent(r));
    if Below(d, r) && p + r[|d|..] in t {
      var s := p + r[|d|..];
      assert ParentIsDir(t, s);
      if r == d {
      } else {
        assert Parent(r)[..|d|] == d;
        assert Parent(s) == p + Parent(r)[|d|..];
      }
    } else {
      assert ParentIsDir(t, r);
      if Below(p, Parent(r)) { BelowParent(p, r); }
      if Below(d, Parent(r)) { BelowParent(d, r); }
      NothingBelow(t, p, d, r);
    }
  }

  lemma {:induction false} HasName(t: Tree, d: Path, r: Path)
    requires WellFormed(t) && r in t && Below(d, r) && r != d
    ensures IsDir(t, d) && r[|d|] in Names(t, d)
  {
    hide Names;
    AncestorsExist(t, r, |d|);
    AncestorsExist(t, r, |d| + 1);
    NameIn(t, d, r[|d|]);
    assert r[..|d| + 1] == d + [r[|d|]];
  }

  /** The destination of a rename is missing, a file or an empty directory. */
  lemma {:induction false} NothingBelow(t: Tree, p: Path, d: Path, r: Path)
    requires WellFormed(t) && Rename(t, p, d).Some? && p != d && r in t
    ensures Below(d, r) ==> r == d
  {
    hide Move, Names;
    if Below(d, r) && r != d {
      HasName(t, d, r);
    }
  }

  lemma {:induction false} BelowParent(d: Path, r: Path)
    requires r != [] && Below(d, Parent(r))
    ensures Below(d, r) && r != d
  {
    assert r[..|d|] == Parent(r)[..|d|];
  }

  lemma {:induction false} BelowChild(d: Path, q: Path, n: string)
    ensures Below(d, q + [n]) <==> Below(d, q) || q + [n] == d
    ensures d != [] ==> (q + [n] == d <==> q == Parent(d) && n == Last(d))
    ensures Below(d, q) ==> (q + [n])[|d|..] == q[|d|..] + [n]
  {
    var r := q + [n];
    assert r[..|q|] == q && r[|q|] == n;
    if Below(d, q) {
      assert r[..|d|] == q[..|d|];
    }
    if |d| == |r| {
      assert r[..|d|] == r;
    } else if |d| < |r| {
      assert r[..|d|] == q[..|d|];
    }
    if d != [] {
      assert d == Parent(d) + [Last(d)];
    }
  }

  lemma {:induction false} RenameNames(t: Tree, p: Path, d: Path, q: Path, n: string)
    requires WellFormed(t) && Rename(t, p, d).Some? && p != d
    ensures n in Names(Rename(t, p, d).value, q) <==>
            if Below(d, q) then n in Names(t, p + q[|d|..])
            else !Below(p, q) &&
                 ((n in Names(t, q) && !(q == Parent(p) && n == Last(p))) || (q == Parent(d) && n == Last(d)))
  {
    hide Move, Names;
    var t2, r := Rename(t, p, d).value, q + [n];
    NameIn(t2, q, n);
    NameIn(t, q, n);
    Moved(t, p, d, r);
    BelowChild(d, q, n);
    BelowChild(p, q, n);
    if Below(d, q) {
      NameIn(t, p + q[|d|..], n);
      assert p + (q[|d|..] + [n]) == p + q[|d|..] + [n];
      if r in t { NothingBelow(t, p, d, r); }
      LongerThan(d, q, n);
    } else if r == d {
      assert r[|d|..] == [] && p + [] == p;
    }
  }

  lemma {:induction false} LongerThan(d: Path, q: Path, n: string)
    ensures Below(d, q) ==> q + [n] != d
  {
    if Below(d, q) { assert |q + [n]| > |d|; }
  }
}
