/** Cached directory listings, and when they still tell the truth (src/cwhost/vfs.py). */
module VolumeCache {
  import opened Bytes
  import opened VolumeTree

  datatype Volume = Build | Host

  datatype Key = Key(volume: Volume, host: Path)

  /** A node is identified by its key; the id is what the guest sees. */
  datatype Node = Node(key: Key, id: nat)

  type Interned = map<Key, Node>
  type Listings = map<Key, seq<Node>>

  /** The Build volume is what lies at or below the build root, everything else is Host. */
  function VolumeOf(build: Path, p: Path): Volume {
    if Below(build, p) then Build else Host
  }

  function KeyOf(build: Path, p: Path): Key {
    Key(VolumeOf(build, p), p)
  }

  function RootOf(build: Path, v: Volume): Path {
    if v.Build? then build else []
  }

  /** A volume root has no name. */
  function NameOf(build: Path, n: Node): string {
    if n.key.host == RootOf(build, n.key.volume) then "" else Leaf(n)
  }

  function Leaf(n: Node): string {
    if n.key.host == [] then "" else Last(n.key.host)
  }

  // ----- the order of a listing

  predicate Less(a: string, b: string) {
    b != "" && (a == "" || a[0] < b[0] || (a[0] == b[0] && Less(a[1..], b[1..])))
  }

  /** The first k characters agree; then a ends, or has the smaller character. */
  ghost predicate LessAt(a: string, b: string, k: int) {
    0 <= k <= |a| && k < |b| && a[..k] == b[..k] && (k == |a| || a[k] < b[k])
  }

  lemma {:induction false} LessAtHead(a: string, b: string, k: int)
    ensures LessAt(a, b, k) && k > 0 ==> a != "" && a[0] == b[0] && LessAt(a[1..], b[1..], k - 1)
    ensures a != "" && b != "" && a[0] == b[0] && LessAt(a[1..], b[1..], k) ==> LessAt(a, b, k + 1)
  {
    if LessAt(a, b, k) && k > 0 {
      assert a[..k][0] == b[..k][0];
      assert a[1..][..k - 1] == a[..k][1..] && b[1..][..k - 1] == b[..k][1..];
    }
    if a != "" && b != "" && a[0] == b[0] && LessAt(a[1..], b[1..], k) {
      assert a[..k + 1] == [a[0]] + a[1..][..k] && b[..k + 1] == [b[0]] + b[1..][..k];
    }
  }

  /** Character by character: at the first difference the smaller one decides, and a prefix comes first. */
  lemma {:induction false} LessIs(a: string, b: string)
    ensures Less(a, b) <==> exists k :: LessAt(a, b, k)
    decreases |a|
  {
    if Less(a, b) && (a == "" || a[0] < b[0]) {
      assert LessAt(a, b, 0);
    } else if a != "" && b != "" && a[0] == b[0] {
      LessIs(a[1..], b[1..]);
      if Less(a, b) {
        var k :| LessAt(a[1..], b[1..], k);
        LessAtHead(a, b, k);
      }
    }
    if k :| LessAt(a, b, k) {
      LessAtHead(a, b, k);
      assert k == 0 || LessAt(a[1..], b[1..], k - 1);
    }
  }

  lemma {:induction false} LessTotal(a: string, b: string)
    ensures Less(a, b) || a == b || Less(b, a)
    ensures !(Less(a, b) && Less(b, a)) && !Less(a, a)
    decreases |a| + |b|
  {
    if a != "" && b != "" {
      LessTotal(a[1..], b[1..]);
      assert a == [a[0]] + a[1..] && b == [b[0]] + b[1..];
    }
    if a != "" { LessSelf(a); }
  }

  lemma {:induction false} LessSelf(a: string)
    ensures !Less(a, a)
  {
    if a != "" { LessSelf(a[1..]); }
  }

  lemma {:induction false} LessTransitive(a: string, b: string, c: string)
    requires Less(a, b) && Less(b, c)
    ensures Less(a, c)
    decreases |a|
  {
    if a != "" && a[0] == b[0] == c[0] { LessTransitive(a[1..], b[1..], c[1..]); }
  }

  /** By folded name, then by name. */
  predicate Before(fold: string -> string, a: string, b: string) {
    Less(fold(a), fold(b)) || (fold(a) == fold(b) && Less(a, b))
  }

  lemma {:induction false} BeforeTotal(fold: string -> string, a: string, b: string)
    ensures Before(fold, a, b) || a == b || Before(fold, b, a)
    ensures !(Before(fold, a, b) && Before(fold, b, a)) && !Before(fold, a, a)
  {
    LessTotal(fold(a), fold(b));
    LessTotal(fold(a), fold(a));
    LessTotal(a, b);
    LessTotal(a, a);
  }

  lemma {:induction false} BeforeTransitive(fold: string -> string, a: string, b: string, c: string)
    requires Before(fold, a, b) && Before(fold, b, c)
    ensures Before(fold, a, c)
  {
    if Less(fold(a), fold(b)) && Less(fold(b), fold(c)) { LessTransitive(fold(a), fold(b), fold(c)); }
    if Less(a, b) && Less(b, c) { LessTransitive(a, b, c); }
  }

  ghost predicate Sorted(fold: string -> string, l: seq<string>) {
    forall i, j :: 0 <= i < j < |l| ==> Before(fold, l[i], l[j])
  }

  ghost predicate IsListing(fold: string -> string, names: set<string>, l: seq<string>) {
    Sorted(fold, l) && forall n :: n in names <==> n in l
  }

  lemma {:induction false} HeadLeast(fold: string -> string, names: set<string>, a: seq<string>)
    requires IsListing(fold, names, a)
    ensures a == [] <==> forall n :: n !in names
    ensures a != [] ==> a[0] in names && forall n :: n in names ==> n == a[0] || Before(fold, a[0], n)
  {
    hide Before;
    if a != [] {
      assert a[0] in a;
      forall n | n in names ensures n == a[0] || Before(fold, a[0], n) {
        var i :| 0 <= i < |a| && a[i] == n;
      }
    }
  }

  /** A set of names has one listing. */
  lemma {:induction false} ListingUnique(fold: string -> string, names: set<string>, a: seq<string>, b: seq<string>)
    requires IsListing(fold, names, a) && IsListing(fold, names, b)
    ensures a == b
    decreases |a|
  {
    hide Before;
    HeadLeast(fold, names, a);
    HeadLeast(fold, names, b);
    if a != [] && b != [] {
      BeforeTotal(fold, a[0], b[0]);
      RestIsListing(fold, names, a);
      RestIsListing(fold, names, b);
      ListingUnique(fold, names - {a[0]}, a[1..], b[1..]);
      assert a == [a[0]] + a[1..] && b == [b[0]] + b[1..];
    }
  }

  lemma {:induction false} RestIsListing(fold: string -> string, names: set<string>, a: seq<string>)
    requires IsListing(fold, names, a) && a != []
    ensures IsListing(fold, names - {a[0]}, a[1..])
  {
    hide Before;
    forall n ensures n in names - {a[0]} <==> n in a[1..] {
      BeforeTotal(fold, a[0], a[0]);
      if n in a[1..] {
        var i :| 0 <= i < |a[1..]| && a[1..][i] == n;
        assert a[i + 1] == n && Before(fold, a[0], a[i + 1]);
      }
      if n in names && n != a[0] {
        var i :| 0 <= i < |a| && a[i] == n;
        assert a[1..][i - 1] == n;
      }
    }
  }

  // ----- listings of nodes

  function Leaves(c: seq<Node>): (l: seq<string>)
    ensures |l| == |c| && forall i :: 0 <= i < |c| ==> l[i] == Leaf(c[i])
  {
    seq(|c|, i requires 0 <= i < |c| => Leaf(c[i]))
  }

  /** n is the interned node of a child of q. */
  ghost predicate ChildOf(build: Path, nodes: Interned, q: Path, n: Node) {
    n.key.host != [] && Parent(n.key.host) == q && n.key == KeyOf(build, n.key.host) && n.key in nodes &&
      nodes[n.key] == n
  }

  /** c is what listing q afresh gives. */
  ghost predicate Listed(fold: string -> string, build: Path, nodes: Interned, t: Tree, q: Path, c: seq<Node>) {
    IsListing(fold, Names(t, q), Leaves(c)) && forall i :: 0 <= i < |c| ==> ChildOf(build, nodes, q, c[i])
  }

  lemma {:induction false} FreshIsUnique(fold: string -> string, build: Path, nodes: Interned, t: Tree, q: Path,
                                         a: seq<Node>, b: seq<Node>)
    requires Listed(fold, build, nodes, t, q, a) && Listed(fold, build, nodes, t, q, b)
    ensures a == b
  {
    hide IsListing, Names;
    ListingUnique(fold, Names(t, q), Leaves(a), Leaves(b));
    assert |a| == |Leaves(a)| == |b|;
    forall i | 0 <= i < |a| ensures a[i] == b[i] {
      assert Leaves(a)[i] == Leaves(b)[i];
      assert a[i].key.host == q + [Leaf(a[i])] && b[i].key.host == q + [Leaf(b[i])];
    }
  }

  lemma {:induction false} SameNamesListed(fold: string -> string, build: Path, nodes: Interned, t: Tree, t2: Tree,
                                           q: Path, c: seq<Node>)
    requires Listed(fold, build, nodes, t, q, c)
    ensures Listed(fold, build, nodes, t2, q, c) <==> forall n :: n in Names(t, q) <==> n in Names(t2, q)
  {
    hide Names, ChildOf, Sorted;
    if Listed(fold, build, nodes, t2, q, c) {
      forall n ensures n in Names(t, q) <==> n in Names(t2, q) {
        assert n in Names(t, q) <==> n in Leaves(c);
      }
    }
  }

  // ----- the cache

  ghost predicate Agrees(fold: string -> string, build: Path, nodes: Interned, t: Tree, cache: Listings) {
    forall k :: k in cache ==> Listed(fold, build, nodes, t, k.host, cache[k])
  }

  ghost predicate KeysOk(build: Path, cache: Listings) {
    forall k :: k in cache ==> k == KeyOf(build, k.host)
  }

  /** The keys `invalidate_path` visits: from the path up to its volume's root. */
  predicate OnChain(build: Path, p: Path, k: Key) {
    k.volume == VolumeOf(build, p) && Below(k.host, p) && |RootOf(build, k.volume)| <= |k.host|
  }

  function Invalidate<V>(build: Path, cache: map<Key, V>, p: Path): map<Key, V> {
    map k | k in cache && !OnChain(build, p, k) :: cache[k]
  }

  /** What survives an invalidation above the path is above the build root. */
  lemma {:induction false} SurvivesAbove(build: Path, p: Path, k: Key)
    requires k == KeyOf(build, k.host) && Below(k.host, p)
    ensures !OnChain(build, p, k) <==> Below(build, p) && Above(k.host, build)
    ensures !OnChain(build, p, k) ==> k.volume.Host?
  {
    if Below(build, p) && !Below(build, k.host) {
      assert |k.host| < |build|;
      assert build[..|k.host|] == p[..|k.host|];
    }
    if Below(build, k.host) {
      assert p[..|build|] == k.host[..|build|];
    }
    if Above(k.host, build) { assert !Below(build, k.host); }
  }

  /** Every cached listing above the build root already holds the next name on the way to it. */
  ghost predicate RouteSeen(build: Path, t: Tree, cache: Listings) {
    forall k :: k in cache && Above(k.host, build) ==> build[..|k.host| + 1] in t
  }

  lemma {:induction false} SameRoute(build: Path, p: Path, q: Path)
    requires Below(build, p) && Above(q, build)
    ensures Above(q, p) && p[|q|] == build[|q|] && build[..|q| + 1] == q + [build[|q|]]
  {
    assert p[..|q|] == build[..|q|];
    assert build[|q|] == p[..|build|][|q|];
  }

  /** After a write the cache is right exactly when it already knew the way to the build root, or the
      file is on the Host volume. */
  lemma {:induction false} WriteAgrees(fold: string -> string, build: Path, nodes: Interned, t: Tree, cache: Listings,
                                       p: Path, data: seq<Byte>)
    requires WellFormed(t) && Write(t, p, data).Some? && KeysOk(build, cache) && Agrees(fold, build, nodes, t, cache)
    ensures Agrees(fold, build, nodes, Write(t, p, data).value, Invalidate(build, cache, p)) <==>
            (Below(build, p) ==> RouteSeen(build, t, cache))
  {
    hide Listed, Names, Write, OnChain, WellFormed;
    var t2, c2 := Write(t, p, data).value, Invalidate(build, cache, p);
    if Below(build, p) ==> RouteSeen(build, t, cache) {
      forall k | k in c2 ensures Listed(fold, build, nodes, t2, k.host, c2[k]) {
        WriteKeepsListing(fold, build, nodes, t, cache, p, data, k);
      }
    }
    if Agrees(fold, build, nodes, t2, c2) && Below(build, p) {
      forall k | k in cache && Above(k.host, build) ensures build[..|k.host| + 1] in t {
        SameRoute(build, p, k.host);
        SurvivesAbove(build, p, k);
        assert k in c2;
        SameNamesListed(fold, build, nodes, t, t2, k.host, cache[k]);
        WriteNames(t, p, data, k.host, build[|k.host|]);
        NameIn(t, k.host, build[|k.host|]);
      }
    }
  }

  lemma {:induction false} WriteKeepsListing(fold: string -> string, build: Path, nodes: Interned, t: Tree,
                                             cache: Listings, p: Path, data: seq<Byte>, k: Key)
    requires WellFormed(t) && Write(t, p, data).Some? && KeysOk(build, cache) && Agrees(fold, build, nodes, t, cache)
    requires Below(build, p) ==> RouteSeen(build, t, cache)
    requires k in Invalidate(build, cache, p)
    ensures Listed(fold, build, nodes, Write(t, p, data).value, k.host, cache[k])
  {
    hide Listed, Names, Write, OnChain, WellFormed;
    var t2 := Write(t, p, data).value;
    forall n ensures n in Names(t, k.host) <==> n in Names(t2, k.host) {
      WriteNames(t, p, data, k.host, n);
      if Above(k.host, p) && n == p[|k.host|] {
        SurvivesAbove(build, p, k);
        SameRoute(build, p, k.host);
        NameIn(t, k.host, n);
      }
    }
    SameNamesListed(fold, build, nodes, t, t2, k.host, cache[k]);
  }

  /** After a deletion the cache is right exactly when it was not the build root itself that went, or
      the directory above it is not cached. */
  lemma {:induction false} DeleteAgrees(fold: string -> string, build: Path, nodes: Interned, t: Tree, cache: Listings,
                                        p: Path)
    requires WellFormed(t) && Delete(t, p).Some? && KeysOk(build, cache) && Agrees(fold, build, nodes, t, cache)
    ensures Agrees(fold, build, nodes, Delete(t, p).value, Invalidate(build, cache, p)) <==>
            (p == build ==> Key(Host, Parent(build)) !in cache)
  {
    hide Listed, Names, OnChain, WellFormed;
    var t2, c2, k0 := Delete(t, p).value, Invalidate(build, cache, p), Key(Host, Parent(p));
    AboveParent(p);
    assert p == Parent(p) + [Last(p)];
    if p == build ==> k0 !in cache {
      forall k | k in c2 ensures Listed(fold, build, nodes, t2, k.host, c2[k]) {
        forall n ensures n in Names(t, k.host) <==> n in Names(t2, k.host) {
          DeleteNames(t, p, k.host, n);
          if k.host == Parent(p) {
            SurvivesAbove(build, p, k);
            AboveBelow(Parent(p), p, build);
          }
        }
        SameNamesListed(fold, build, nodes, t, t2, k.host, cache[k]);
      }
    }
    if Agrees(fold, build, nodes, t2, c2) && p == build && k0 in cache {
      SurvivesAbove(build, p, k0);
      SameNamesListed(fold, build, nodes, t, t2, k0.host, cache[k0]);
      DeleteNames(t, p, Parent(p), Last(p));
      NameIn(t, Parent(p), Last(p));
    }
  }

  lemma {:induction false} AboveParent(p: Path)
    requires p != []
    ensures Above(Parent(p), p) && Below(Parent(p), p) && Below(p, p)
  {
  }

  /** Only the directory right above the build root is above it and above nothing shorter. */
  lemma {:induction false} AboveBelow(q: Path, p: Path, build: Path)
    requires p != [] && q == Parent(p)
    ensures Below(build, p) && Above(q, build) ==> p == build
  {
    if Below(build, p) && Above(q, build) {
      assert p == p[..|build|];
    }
  }

  /** What a rename must find in the cache: nothing listed below what moves, nothing listed below the
      destination that now has children, and, where the build root itself comes or goes, the directory
      above it not listed or above both ends. */
  ghost predicate RenameSeen(build: Path, t: Tree, cache: Listings, p: Path, d: Path) {
    (forall k :: k in cache && Above(p, k.host) ==> cache[k] == []) &&
    (forall k :: k in cache && Above(d, k.host) ==> Names(t, p + k.host[|d|..]) == {}) &&
    (p == build || (d == build && d !in t) ==>
       Key(Host, Parent(build)) !in cache || (Below(Parent(build), p) && Below(Parent(build), d)))
  }

  function InvalidateBoth(build: Path, cache: Listings, p: Path, d: Path): Listings {
    Invalidate(build, Invalidate(build, cache, p), d)
  }

  lemma {:induction false} Comparable(a: Path, b: Path, q: Path)
    requires Below(a, q) && Below(b, q)
    ensures if |a| <= |b| then Below(a, b) else Below(b, a)
  {
    if |a| <= |b| {
      assert b[..|a|] == q[..|a|];
    } else {
      assert a[..|b|] == q[..|b|];
    }
  }

  /** The two ends of a rename lie apart. */
  lemma {:induction false} Apart(t: Tree, p: Path, d: Path)
    requires WellFormed(t) && Rename(t, p, d).Some? && p != d
    ensures !Below(p, d) && !Below(d, p)
  {
    hide Names, Move;
    if Below(d, p) {
      HasName(t, d, p);
    }
  }

  lemma {:induction false} ApartBelow(t: Tree, p: Path, d: Path, q: Path)
    requires WellFormed(t) && Rename(t, p, d).Some? && p != d
    ensures Below(p, q) && q != p ==> !Below(q, p) && !Below(q, d) && !Below(d, q)
    ensures Below(d, q) && q != d ==> !Below(q, d) && !Below(q, p) && !Below(p, q) && Names(t, q) == {}
  {
    hide Names, Rename, WellFormed;
    Apart(t, p, d);
    BelowOf(p, q, d);
    BelowOf(d, q, p);
    if Below(d, q) && q != d {
      forall n ensures n !in Names(t, q) {
        NameIn(t, q, n);
        BelowChild(d, q, n);
        if q + [n] in t { NothingBelow(t, p, d, q + [n]); }
        LongerThan(d, q, n);
      }
      SameNames(Names(t, q), {});
    }
  }

  lemma {:induction false} BelowOf(p: Path, q: Path, d: Path)
    requires !Below(p, d) && !Below(d, p)
    ensures Below(p, q) && q != p ==> !Below(q, p) && !Below(q, d) && !Below(d, q)
  {
    Chain(p, q, p);
    Chain(p, q, d);
    if Below(p, q) && Below(d, q) { Comparable(p, d, q); }
  }

  lemma {:induction false} Chain(a: Path, b: Path, c: Path)
    ensures Below(a, b) && Below(b, c) ==> Below(a, c) && (a == c ==> a == b)
  {
    if Below(a, b) && Below(b, c) {
      assert c[..|a|] == b[..|a|];
    }
  }

  lemma {:induction false} EmptyListed(fold: string -> string, build: Path, nodes: Interned, t: Tree, q: Path,
                                       c: seq<Node>)
    requires Listed(fold, build, nodes, t, q, c)
    ensures c == [] <==> Names(t, q) == {}
  {
    hide Names, ChildOf, Sorted;
    if c != [] {
      assert Leaves(c)[0] in Leaves(c);
    }
    if c == [] {
      SameNames(Names(t, q), {});
    }
  }

  /** After a rename of a file or directory the cache is right exactly under that condition. */
  lemma {:induction false} RenameAgrees(fold: string -> string, build: Path, nodes: Interned, t: Tree, cache: Listings,
                                        p: Path, d: Path)
    requires WellFormed(t) && Rename(t, p, d).Some? && p != d && KeysOk(build, cache) &&
             Agrees(fold, build, nodes, t, cache)
    ensures Agrees(fold, build, nodes, Rename(t, p, d).value, InvalidateBoth(build, cache, p, d)) <==>
            RenameSeen(build, t, cache, p, d)
  {
    hide Listed, Names, Move, OnChain, WellFormed;
    var t2, c2 := Rename(t, p, d).value, InvalidateBoth(build, cache, p, d);
    if RenameSeen(build, t, cache, p, d) {
      forall k | k in c2 ensures Listed(fold, build, nodes, t2, k.host, c2[k]) {
        RenameKeepsListing(fold, build, nodes, t, cache, p, d, k);
      }
    }
    if Agrees(fold, build, nodes, t2, c2) {
      forall k | k in cache && (Above(p, k.host) || Above(d, k.host))
        ensures Above(p, k.host) ==> cache[k] == []
        ensures Above(d, k.host) ==> Names(t, p + k.host[|d|..]) == {}
      {
        ApartBelow(t, p, d, k.host);
        SurvivesBelow(build, p, k);
        SurvivesBelow(build, d, k);
        assert k in c2;
        NamesAfterMove(t, p, d, k.host);
        EmptyListed(fold, build, nodes, t, k.host, cache[k]);
        EmptyListed(fold, build, nodes, t2, k.host, cache[k]);
      }
      if p == build || (d == build && d !in t) {
        RootMoved(fold, build, nodes, t, cache, p, d);
      }
    }
  }

  lemma {:induction false} SurvivesBelow(build: Path, p: Path, k: Key)
    requires !Below(k.host, p)
    ensures !OnChain(build, p, k)
  {
  }

  lemma {:induction false} NamesAfterMove(t: Tree, p: Path, d: Path, q: Path)
    requires WellFormed(t) && Rename(t, p, d).Some? && p != d
    ensures Above(p, q) ==> Names(Rename(t, p, d).value, q) == {}
    ensures Above(d, q) ==> Names(Rename(t, p, d).value, q) == Names(t, p + q[|d|..])
  {
    hide Names, Rename, WellFormed;
    ApartBelow(t, p, d, q);
    var names := Names(Rename(t, p, d).value, q);
    if Above(p, q) {
      forall n ensures n !in names { RenameNames(t, p, d, q, n); }
      SameNames(names, {});
    }
    if Above(d, q) {
      forall n ensures n in names <==> n in Names(t, p + q[|d|..]) { RenameNames(t, p, d, q, n); }
      SameNames(names, Names(t, p + q[|d|..]));
    }
  }

  lemma {:induction false} RenameKeepsListing(fold: string -> string, build: Path, nodes: Interned, t: Tree,
                                              cache: Listings, p: Path, d: Path, k: Key)
    requires WellFormed(t) && Rename(t, p, d).Some? && p != d && KeysOk(build, cache) &&
             Agrees(fold, build, nodes, t, cache)
    requires RenameSeen(build, t, cache, p, d) && k in InvalidateBoth(build, cache, p, d)
    ensures Listed(fold, build, nodes, Rename(t, p, d).value, k.host, cache[k])
  {
    hide Listed, Names, Rename, OnChain, WellFormed;
    var t2, q := Rename(t, p, d).value, k.host;
    ApartBelow(t, p, d, q);
    if Above(p, q) || Above(d, q) {
      NamesAfterMove(t, p, d, q);
      EmptyListed(fold, build, nodes, t, q, cache[k]);
    } else {
      if Below(q, p) { SurvivesAbove(build, p, k); }
      if Below(q, d) { SurvivesAbove(build, d, k); }
      forall n ensures n in Names(t, q) <==> n in Names(t2, q) {
        RenameKeepsName(build, t, cache, p, d, k, n);
      }
    }
    SameNamesListed(fold, build, nodes, t, t2, q, cache[k]);
  }

  lemma {:induction false} RenameKeepsName(build: Path, t: Tree, cache: Listings, p: Path, d: Path, k: Key, n: string)
    requires WellFormed(t) && Rename(t, p, d).Some? && p != d && k in cache && k == KeyOf(build, k.host)
    requires RenameSeen(build, t, cache, p, d) && !Above(p, k.host) && !Above(d, k.host)
    requires !OnChain(build, p, k) && !OnChain(build, d, k)
    ensures n in Names(t, k.host) <==> n in Names(Rename(t, p, d).value, k.host)
  {
    hide Names, Rename, OnChain, WellFormed;
    var q := k.host;
    Apart(t, p, d);
    RenameNames(t, p, d, q, n);
    NameIn(t, q, n);
    AboveParent(p);
    AboveParent(d);
    AboveBelow(Parent(p), p, build);
    AboveBelow(Parent(d), d, build);
    assert d == Parent(d) + [Last(d)];
    if Below(q, p) { SurvivesAbove(build, p, k); }
    if Below(q, d) { SurvivesAbove(build, d, k); }
  }

  lemma {:induction false} RootMoved(fold: string -> string, build: Path, nodes: Interned, t: Tree, cache: Listings,
                                     p: Path, d: Path)
    requires WellFormed(t) && Rename(t, p, d).Some? && p != d && KeysOk(build, cache) &&
             Agrees(fold, build, nodes, t, cache)
    requires Agrees(fold, build, nodes, Rename(t, p, d).value, InvalidateBoth(build, cache, p, d))
    requires (p == build || (d == build && d !in t)) && build != []
    ensures Key(Host, Parent(build)) !in cache || (Below(Parent(build), p) && Below(Parent(build), d))
  {
    hide Listed, Names, Move, OnChain, WellFormed;
    var t2, k, q := Rename(t, p, d).value, Key(Host, Parent(build)), Parent(build);
    var n := Last(build);
    Apart(t, p, d);
    AboveParent(build);
    assert build == q + [n] && p == Parent(p) + [Last(p)] && d == Parent(d) + [Last(d)];
    NameIn(t, q, n);
    RenameNames(t, p, d, q, n);
    BelowChild(p, q, n);
    BelowChild(d, q, n);
    if k in cache && !(Below(q, p) && Below(q, d)) {
      if Below(q, p) { SurvivesAbove(build, p, k); } else { SurvivesBelow(build, p, k); }
      if Below(q, d) { SurvivesAbove(build, d, k); } else { SurvivesBelow(build, d, k); }
      SameNamesListed(fold, build, nodes, t, t2, q, cache[k]);
    }
  }

  lemma {:induction false} OneNameListed(fold: string -> string, build: Path, nodes: Interned, t: Tree, q: Path,
                                         n: Node)
    requires ChildOf(build, nodes, q, n) && Names(t, q) == {Leaf(n)}
    ensures Listed(fold, build, nodes, t, q, [n])
  {
    hide Names;
    assert Leaves([n]) == [Leaf(n)];
  }

  /** Writing the first file below a build root that does not exist yet leaves the listing above it wrong. */
  lemma {:induction false} FirstWriteGoesStale(fold: string -> string)
    ensures var t: Tree := map[[] := Dir];
            var cache: Listings := map[Key(Host, []) := []];
            Agrees(fold, ["b"], map[], t, cache) && Write(t, ["b", "f"], []).Some? &&
            !Agrees(fold, ["b"], map[], Write(t, ["b", "f"], []).value, Invalidate(["b"], cache, ["b", "f"]))
  {
    var build: Path, p: Path := ["b"], ["b", "f"];
    var t: Tree := map[[] := Dir];
    var cache: Listings := map[Key(Host, []) := []];
    forall n ensures n !in Names(t, []) { NameIn(t, [], n); }
    assert Listed(fold, build, map[], t, [], []);
    assert Parent(p) == build && Parent(build) == [] && CanMake(t, build);
    assert p[..1] == build && Key(Host, []) == KeyOf(build, []);
    WriteAgrees(fold, build, map[], t, cache, p, []);
    assert build[..1] == build && build !in t;
    assert Above(Key(Host, []).host, build) && !RouteSeen(build, t, cache);
  }

  /** Deleting the build root leaves the listing above it wrong. */
  lemma {:induction false} RootDeletionGoesStale(fold: string -> string)
    ensures var t: Tree := map[[] := Dir, ["b"] := Dir];
            var n := Node(Key(Build, ["b"]), 2);
            var nodes, cache := map[n.key := n], map[Key(Host, []) := [n]];
            Agrees(fold, ["b"], nodes, t, cache) && Delete(t, ["b"]).Some? &&
            !Agrees(fold, ["b"], nodes, Delete(t, ["b"]).value, Invalidate(["b"], cache, ["b"]))
  {
    var build: Path := ["b"];
    var t: Tree := map[[] := Dir, build := Dir];
    var n := Node(Key(Build, build), 2);
    var nodes, cache := map[n.key := n], map[Key(Host, []) := [n]];
    forall m ensures m in Names(t, []) <==> m == "b" {
      NameIn(t, [], m);
      assert [] + [m] == [m];
    }
    SameNames(Names(t, []), {"b"});
    assert Parent(build) == [] && Leaf(n) == "b" && n.key == KeyOf(build, build);
    hide Names;
    OneNameListed(fold, build, nodes, t, [], n);
    forall m ensures m !in Names(t, build) { NameIn(t, build, m); }
    SameNames(Names(t, build), {});
    DeleteAgrees(fold, build, nodes, t, cache, build);
  }

  /** Renaming a directory whose contents are listed leaves a listing behind that is wrong. */
  lemma {:induction false} DirectoryRenameGoesStale(fold: string -> string)
    ensures var build, p, d, q := ["b"], ["d"], ["e"], ["d", "x"];
            var t: Tree := map[[] := Dir, build := Dir, p := Dir, q := Dir, ["d", "x", "f"] := File([])];
            var n := Node(Key(Host, ["d", "x", "f"]), 3);
            var nodes, cache := map[n.key := n], map[Key(Host, q) := [n]];
            Agrees(fold, build, nodes, t, cache) && Rename(t, p, d).Some? &&
            !Agrees(fold, build, nodes, Rename(t, p, d).value, InvalidateBoth(build, cache, p, d))
  {
    hide Listed, Names, Move;
    var build, p, d, q := ["b"], ["d"], ["e"], ["d", "x"];
    var t: Tree := map[[] := Dir, build := Dir, p := Dir, q := Dir, ["d", "x", "f"] := File([])];
    var n := Node(Key(Host, ["d", "x", "f"]), 3);
    var nodes, cache := map[n.key := n], map[Key(Host, q) := [n]];
    forall m ensures m in Names(t, q) <==> m == "f" {
      NameIn(t, q, m);
      assert q + [m] == ["d", "x", m];
    }
    SameNames(Names(t, q), {"f"});
    assert n.key.host[..1][0] == "d" && q[..1][0] == "d" && build[0] == "b";
    assert Parent(n.key.host) == q && Leaf(n) == "f" && n.key == KeyOf(build, n.key.host);
    OneNameListed(fold, build, nodes, t, q, n);
    assert Above(p, q) && cache[Key(Host, q)] != [];
    RenameAgrees(fold, build, nodes, t, cache, p, d);
  }
}
