/** The virtual volumes (src/cwhost/vfs.py, `VFS` and `Node`): interned nodes, cached listings and the
    operations that must drop them. */
module VirtualVolumes {
  import opened Bytes
  import opened VolumeTree
  import opened VolumeCache
  import opened Wrappers

  /** The listing's nodes whose folded name is f, in listing order. */
  function Filter(fold: string -> string, build: Path, c: seq<Node>, f: string): seq<Node> {
    if c == [] then []
    else
      var front, last := Filter(fold, build, c[..|c| - 1], f), c[|c| - 1];
      if fold(NameOf(build, last)) == f then front + [last] else front
  }

  function Lookup(index: map<string, seq<Node>>, f: string): seq<Node> {
    if f in index then index[f] else []
  }

  ghost predicate Indexes(fold: string -> string, build: Path, c: seq<Node>, index: map<string, seq<Node>>) {
    forall f :: Lookup(index, f) == Filter(fold, build, c, f)
  }

  ghost predicate IndexOk(fold: string -> string, build: Path, cache: Listings,
                          index: map<Key, map<string, seq<Node>>>) {
    index.Keys == cache.Keys && forall k :: k in cache ==> Indexes(fold, build, cache[k], index[k])
  }

  /** Keys and nodes, and ids and nodes, correspond one to one. */
  ghost predicate InternedOk(build: Path, nodes: Interned, ids: map<nat, Node>, next: nat) {
    (forall k :: k in nodes ==> IsNode(build, nodes, ids, next, k)) &&
    (forall i :: i in ids ==> ids[i].id == i && ids[i].key in nodes && nodes[ids[i].key] == ids[i])
  }

  ghost predicate IsNode(build: Path, nodes: Interned, ids: map<nat, Node>, next: nat, k: Key)
    requires k in nodes
  {
    var n := nodes[k];
    n.key == k == KeyOf(build, k.host) && n.id < next && n.id in ids && ids[n.id] == n
  }

  /** What is cached are interned nodes. */
  ghost predicate NodesOk(nodes: Interned, cache: Listings) {
    forall k, n :: k in cache && n in cache[k] ==> n.key in nodes && nodes[n.key] == n
  }

  ghost predicate Extends(small: Interned, big: Interned) {
    forall k :: k in small ==> k in big && big[k] == small[k]
  }

  lemma {:induction false} ListedGrows(fold: string -> string, build: Path, nodes: Interned, nodes2: Interned, t: Tree,
                                       q: Path, c: seq<Node>)
    requires Extends(nodes, nodes2) && Listed(fold, build, nodes, t, q, c)
    ensures Listed(fold, build, nodes2, t, q, c)
  {
    hide Names, Sorted;
  }

  lemma {:induction false} AgreesGrows(fold: string -> string, build: Path, nodes: Interned, nodes2: Interned, t: Tree,
                                       cache: Listings)
    requires Extends(nodes, nodes2) && Agrees(fold, build, nodes, t, cache)
    ensures Agrees(fold, build, nodes2, t, cache)
  {
    hide Listed;
    forall k | k in cache ensures Listed(fold, build, nodes2, t, k.host, cache[k]) {
      ListedGrows(fold, build, nodes, nodes2, t, k.host, cache[k]);
    }
  }

  /** `sorted(iterdir())` */
  method SortNames(fold: string -> string, names: set<string>) returns (l: seq<string>)
    ensures IsListing(fold, names, l)
  {
    l := [];
    var rest, done: set<string> := names, {};
    while rest != {}
      invariant rest !! done && rest + done == names && IsListing(fold, done, l)
      decreases |rest|
    {
      var n :| n in rest;
      l := Insert(fold, done, l, n);
      done, rest := done + {n}, rest - {n};
    }
    SameNames(done, names);
  }

  method Insert(fold: string -> string, names: set<string>, l: seq<string>, n: string) returns (r: seq<string>)
    requires IsListing(fold, names, l) && n !in names
    ensures IsListing(fold, names + {n}, r)
  {
    var i := 0;
    while i < |l| && Before(fold, l[i], n)
      invariant i <= |l| && forall j :: 0 <= j < i ==> Before(fold, l[j], n)
    {
      i := i + 1;
    }
    r := l[..i] + [n] + l[i..];
    Inserted(fold, names, l, n, i);
  }

  lemma {:induction false} Inserted(fold: string -> string, names: set<string>, l: seq<string>, n: string, i: nat)
    requires IsListing(fold, names, l) && n !in names && i <= |l|
    requires forall j :: 0 <= j < i ==> Before(fold, l[j], n)
    requires i < |l| ==> !Before(fold, l[i], n)
    ensures IsListing(fold, names + {n}, l[..i] + [n] + l[i..])
  {
    hide Before;
    var r := l[..i] + [n] + l[i..];
    forall j | i <= j < |l| ensures Before(fold, n, l[j]) {
      assert l[i] in l && l[i] in names;
      BeforeTotal(fold, l[i], n);
      if j > i { BeforeTransitive(fold, n, l[i], l[j]); }
    }
    forall a, b | 0 <= a < b < |r| ensures Before(fold, r[a], r[b]) {
      var x, y := if a <= i then a else a - 1, if b <= i then b else b - 1;
      assert a < i ==> r[a] == l[a];
      assert b < i ==> r[b] == l[b];
      assert b > i ==> r[b] == l[y];
      assert a > i ==> r[a] == l[x];
    }
    forall m ensures m in names + {n} <==> m in r {
      assert m in r <==> m in l[..i] || m == n || m in l[i..];
      assert m in l <==> m in l[..i] || m in l[i..] by { assert l == l[..i] + l[i..]; }
    }
  }

  /** The dictionary from folded name to matches, filled in listing order. */
  method BuildIndex(fold: string -> string, build: Path, c: seq<Node>) returns (index: map<string, seq<Node>>)
    ensures Indexes(fold, build, c, index)
  {
    index := map[];
    var i := 0;
    while i < |c|
      invariant i <= |c| && Indexes(fold, build, c[..i], index)
    {
      var name := fold(NameOf(build, c[i]));
      ghost var was := index;
      index := index[name := Lookup(index, name) + [c[i]]];
      assert c[..i + 1][..i] == c[..i];
      i := i + 1;
    }
    assert c[..|c|] == c;
  }

  // ----- runs

  datatype VolumeState = VolumeState(tree: Tree, nodes: Interned, children: Listings)

  datatype Request = List(k: Key) | Put(p: Path, data: seq<Byte>) | Remove(p: Path) | Change(p: Path, d: Path)

  /** What one request does; the methods of `Volumes` are proved to do just this. */
  ghost predicate Step(fold: string -> string, build: Path, s: VolumeState, r: Request, s2: VolumeState) {
    Extends(s.nodes, s2.nodes) &&
    match r
    case List(k) =>
      s2.tree == s.tree && k in s2.children &&
      if k in s.children then s2.children == s.children
      else s2.children == s.children[k := s2.children[k]] && k == KeyOf(build, k.host) &&
           Listed(fold, build, s2.nodes, s.tree, k.host, s2.children[k])
    case Put(p, data) =>
      var t := Write(s.tree, p, data);
      if t.None? then s2.tree == s.tree && s2.children == s.children
      else s2.tree == t.value && s2.children == Invalidate(build, s.children, p)
    case Remove(p) =>
      var t := Delete(s.tree, p);
      if t.None? then s2.tree == s.tree && s2.children == s.children
      else s2.tree == t.value && s2.children == Invalidate(build, s.children, p)
    case Change(p, d) =>
      var t := Rename(s.tree, p, d);
      if t.None? then s2.tree == s.tree && s2.children == s.children
      else s2.tree == t.value && s2.children == InvalidateBoth(build, s.children, p, d)
  }

  /** No request touches the build root or what is above it, and only files are renamed. */
  predicate Tame(build: Path, t: Tree, r: Request) {
    match r
    case List(_) => true
    case Put(p, _) => !Below(p, build)
    case Remove(p) => !Below(p, build)
    case Change(p, d) => !Below(p, build) && !Below(d, build) && !IsDir(t, p)
  }

  ghost predicate Sound(fold: string -> string, build: Path, s: VolumeState) {
    WellFormed(s.tree) && IsDir(s.tree, build) && KeysOk(build, s.children) &&
    Agrees(fold, build, s.nodes, s.tree, s.children)
  }

  lemma {:induction false} RootKeepsRoute(build: Path, t: Tree, cache: Listings)
    requires WellFormed(t) && IsDir(t, build)
    ensures RouteSeen(build, t, cache)
  {
    hide WellFormed;
    forall k | k in cache && Above(k.host, build) ensures build[..|k.host| + 1] in t {
      AncestorsExist(t, build, |k.host| + 1);
    }
  }

  lemma {:induction false} InvalidatedAgrees(fold: string -> string, build: Path, nodes: Interned, t: Tree,
                                             cache: Listings, p: Path)
    requires KeysOk(build, cache)
    ensures KeysOk(build, Invalidate(build, cache, p))
    ensures Agrees(fold, build, nodes, t, cache) ==> Agrees(fold, build, nodes, t, Invalidate(build, cache, p))
  {
    hide Listed, OnChain;
  }

  lemma {:induction false} PutKeeps(fold: string -> string, build: Path, nodes: Interned, t: Tree, cache: Listings,
                                    p: Path, data: seq<Byte>)
    requires Sound(fold, build, VolumeState(t, nodes, cache)) && !Below(p, build) && Write(t, p, data).Some?
    ensures Sound(fold, build, VolumeState(Write(t, p, data).value, nodes, Invalidate(build, cache, p)))
  {
    hide WellFormed, Write, Invalidate, RouteSeen, Agrees, KeysOk;
    WriteKeeps(t, p, data);
    BelowItself(p);
    RootKeepsRoute(build, t, cache);
    WriteAgrees(fold, build, nodes, t, cache, p, data);
    InvalidatedAgrees(fold, build, nodes, t, cache, p);
  }

  lemma {:induction false} RemoveKeeps(fold: string -> string, build: Path, nodes: Interned, t: Tree, cache: Listings,
                                       p: Path)
    requires Sound(fold, build, VolumeState(t, nodes, cache)) && !Below(p, build) && Delete(t, p).Some?
    ensures Sound(fold, build, VolumeState(Delete(t, p).value, nodes, Invalidate(build, cache, p)))
  {
    hide WellFormed, Invalidate, Agrees, KeysOk;
    DeleteKeeps(t, p);
    BelowItself(p);
    DeleteAgrees(fold, build, nodes, t, cache, p);
    InvalidatedAgrees(fold, build, nodes, t, cache, p);
  }

  lemma {:induction false} FileRenameSeen(fold: string -> string, build: Path, nodes: Interned, t: Tree,
                                          cache: Listings, p: Path, d: Path)
    requires WellFormed(t) && Rename(t, p, d).Some? && !IsDir(t, p) && Agrees(fold, build, nodes, t, cache)
    requires p != build && d != build
    ensures RenameSeen(build, t, cache, p, d)
  {
    hide Listed, WellFormed, Names, Move, Agrees;
    forall k | k in cache && Above(p, k.host) ensures cache[k] == [] {
      NothingInFile(t, p, k.host);
      CachedEmpty(fold, build, nodes, t, cache, k);
    }
    forall k | k in cache && Above(d, k.host) ensures Names(t, p + k.host[|d|..]) == {} {
      assert (p + k.host[|d|..])[..|p|] == p;
      NothingInFile(t, p, p + k.host[|d|..]);
    }
  }

  lemma {:induction false} CachedEmpty(fold: string -> string, build: Path, nodes: Interned, t: Tree, cache: Listings,
                                       k: Key)
    requires Agrees(fold, build, nodes, t, cache) && k in cache && Names(t, k.host) == {}
    ensures cache[k] == []
  {
    EmptyListed(fold, build, nodes, t, k.host, cache[k]);
  }

  lemma {:induction false} NothingInFile(t: Tree, p: Path, q: Path)
    requires WellFormed(t) && p in t && !IsDir(t, p) && Above(p, q)
    ensures Names(t, q) == {}
  {
    hide WellFormed, Names;
    if IsDir(t, q) { AncestorsExist(t, q, |p|); }
    OnlyDirsHaveNames(t, q);
  }

  lemma {:induction false} ChangeKeeps(fold: string -> string, build: Path, nodes: Interned, t: Tree, cache: Listings,
                                       p: Path, d: Path)
    requires Sound(fold, build, VolumeState(t, nodes, cache)) && Rename(t, p, d).Some?
    requires !Below(p, build) && !Below(d, build) && !IsDir(t, p)
    ensures Sound(fold, build, VolumeState(Rename(t, p, d).value, nodes, InvalidateBoth(build, cache, p, d)))
  {
    hide WellFormed, Invalidate, Agrees, KeysOk, RenameSeen, Names, Move;
    InvalidatedAgrees(fold, build, nodes, t, cache, p);
    InvalidatedAgrees(fold, build, nodes, t, Invalidate(build, cache, p), d);
    if p != d {
      RenameKeeps(t, p, d);
      BelowItself(p);
      BelowItself(d);
      Moved(t, p, d, build);
      FileRenameSeen(fold, build, nodes, t, cache, p, d);
      RenameAgrees(fold, build, nodes, t, cache, p, d);
    }
  }

  lemma {:induction false} StepKeepsSound(fold: string -> string, build: Path, s: VolumeState, r: Request,
                                          s2: VolumeState)
    requires Sound(fold, build, s) && Tame(build, s.tree, r) && Step(fold, build, s, r, s2)
    ensures Sound(fold, build, s2)
  {
    hide WellFormed, Invalidate, Extends, Write, Delete, Rename, Listed;
    hide Below;
    var mid := VolumeState(s.tree, s2.nodes, s.children);
    assert Sound(fold, build, mid) by { AgreesGrows(fold, build, s.nodes, s2.nodes, s.tree, s.children); }
    hide Agrees;
    match r
    case List(k) => ListKeeps(fold, build, s, k, s2);
    case Put(p, data) =>
      if Write(s.tree, p, data).Some? { PutKeeps(fold, build, s2.nodes, s.tree, s.children, p, data); }
    case Remove(p) =>
      if Delete(s.tree, p).Some? { RemoveKeeps(fold, build, s2.nodes, s.tree, s.children, p); }
    case Change(p, d) =>
      if Rename(s.tree, p, d).Some? { ChangeKeeps(fold, build, s2.nodes, s.tree, s.children, p, d); }
  }

  lemma {:induction false} ListKeeps(fold: string -> string, build: Path, s: VolumeState, k: Key, s2: VolumeState)
    requires Sound(fold, build, s) && Step(fold, build, s, List(k), s2)
    ensures Sound(fold, build, s2)
  {
    hide Listed, Extends, WellFormed;
    AgreesGrows(fold, build, s.nodes, s2.nodes, s.tree, s.children);
  }

  ghost predicate Run(fold: string -> string, build: Path, states: seq<VolumeState>, requests: seq<Request>) {
    |states| == |requests| + 1 &&
    forall i :: 0 <= i < |requests| ==>
      var after := states[i + 1];
      Step(fold, build, states[i], requests[i], after) && Tame(build, states[i].tree, requests[i])
  }

  /** Over any run of listings, writes, deletions and file renames that leaves the build root alone,
      every cached listing is what a fresh listing would be. */
  lemma {:induction false} RunAgrees(fold: string -> string, build: Path, states: seq<VolumeState>,
                                     requests: seq<Request>, i: nat)
    requires Run(fold, build, states, requests) && Sound(fold, build, states[0]) && i <= |requests|
    ensures Sound(fold, build, states[i])
    decreases i
  {
    hide Step, Sound, Tame;
    if i > 0 {
      RunAgrees(fold, build, states, requests, i - 1);
      StepKeepsSound(fold, build, states[i - 1], requests[i - 1], states[i]);
    }
  }

  class Volumes {
    const fold: string -> string
    const build: Path
    var tree: Tree
    var nodes: Interned
    var ids: map<nat, Node>
    var children: Listings
    var byName: map<Key, map<string, seq<Node>>>
    var nextId: nat

    ghost predicate Valid()
      reads this
    {
      WellFormed(tree) && InternedOk(build, nodes, ids, nextId) && KeysOk(build, children) &&
      NodesOk(nodes, children) && IndexOk(fold, build, children, byName)
    }

    /** Every cached listing equals a fresh one. */
    ghost predicate Agreeing()
      reads this
    {
      Agrees(fold, build, nodes, tree, children)
    }

    predicate Has(n: Node)
      reads this
    {
      n.key in nodes && nodes[n.key] == n
    }

    constructor (fold: string -> string, build: Path, tree: Tree)
      requires WellFormed(tree)
      ensures Valid() && Agreeing() && this.fold == fold && this.build == build && this.tree == tree
      ensures Has(Node(Key(Build, build), 2))
    {
      this.fold, this.build, this.tree := fold, build, tree;
      nodes, ids, children, byName, nextId := map[], map[], map[], map[], 2;
      new;
      BelowItself(build);
      var root := NodeAt(build);
    }

    /** `node`: one node for each path, for ever. */
    method NodeAt(host: Path) returns (n: Node)
      requires Valid()
      modifies this`nodes, this`ids, this`nextId
      ensures Valid() && Extends(old(nodes), nodes) && Has(n) && n.key == KeyOf(build, host)
      ensures n.key in old(nodes) ==> nodes == old(nodes) && nextId == old(nextId)
      ensures n.key !in old(nodes) ==> n.id == old(nextId) && nodes == old(nodes)[n.key := n]
      ensures old(Agreeing()) ==> Agreeing()
    {
      hide KeysOk, IndexOk, WellFormed, Agrees;
      var key := KeyOf(build, host);
      if key in nodes {
        return nodes[key];
      }
      n := Node(key, nextId);
      ghost var was := nodes;
      Interns(build, nodes, ids, nextId, key);
      nextId := nextId + 1;
      nodes := nodes[key := n];
      ids := ids[n.id := n];
      if Agrees(fold, build, was, tree, children) {
        AgreesGrows(fold, build, was, nodes, tree, children);
      }
    }

    /** `children`: from the cache if it is there, else from the file system. */
    method Children(n: Node) returns (c: seq<Node>)
      requires Valid() && Has(n)
      modifies this`nodes, this`ids, this`nextId, this`children, this`byName
      ensures Valid() && Extends(old(nodes), nodes)
      ensures n.key in children && c == children[n.key]
      ensures n.key in old(children) ==> children == old(children)
      ensures n.key !in old(children) ==>
                children == old(children)[n.key := c] && Listed(fold, build, nodes, tree, n.key.host, c)
      ensures Step(fold, build, old(State()), List(n.key), State())
      ensures old(Agreeing()) ==> Agreeing()
    {
      hide KeysOk, IndexOk, NodesOk, WellFormed, Agrees, Indexes, Listed;
      var key := n.key;
      if key in children {
        return children[key];
      }
      c := [];
      var names := if IsDir(tree, key.host) then Names(tree, key.host) else {};
      if !IsDir(tree, key.host) { OnlyDirsHaveNames(tree, key.host); }
      var sorted := SortNames(fold, names);
      c := NodesFor(key.host, sorted);
      ghost var was, nodes1 := children, nodes;
      var index := BuildIndex(fold, build, c);
      Caches(fold, build, nodes, tree, children, byName, key, c, index);
      children := children[key := c];
      byName := byName[key := index];
    }

    /** `tuple(self.vfs.node(path) for path in paths)` */
    method NodesFor(q: Path, names: seq<string>) returns (c: seq<Node>)
      requires Valid()
      modifies this`nodes, this`ids, this`nextId
      ensures Valid() && Extends(old(nodes), nodes) && Leaves(c) == names
      ensures forall i :: 0 <= i < |c| ==> ChildOf(build, nodes, q, c[i])
      ensures old(Agreeing()) ==> Agreeing()
    {
      hide KeysOk, IndexOk, NodesOk, WellFormed, Agrees, InternedOk;
      c := [];
      var i := 0;
      assert Leaves(c) == names[..0];
      while i < |names|
        invariant i <= |names| && Valid() && Extends(old(nodes), nodes) && Leaves(c) == names[..i]
        invariant forall j :: 0 <= j < |c| ==> ChildOf(build, nodes, q, c[j])
        invariant old(Agreeing()) ==> Agreeing()
      {
        var n := NodeAt(q + [names[i]]);
        assert Parent(n.key.host) == q && Leaf(n) == names[i];
        LeavesSnoc(c, n);
        c, i := c + [n], i + 1;
        assert names[..i] == names[..i - 1] + [names[i - 1]];
      }
      assert names[..i] == names;
    }

    /** `children_named` */
    method ChildrenNamed(n: Node, name: string) returns (c: seq<Node>)
      requires Valid() && Has(n)
      modifies this`nodes, this`ids, this`nextId, this`children, this`byName
      ensures Valid() && Extends(old(nodes), nodes)
      ensures n.key in children && c == Filter(fold, build, children[n.key], fold(name))
      ensures n.key in old(children) ==> children == old(children)
      ensures n.key !in old(children) ==>
                children == old(children)[n.key := children[n.key]] &&
                Listed(fold, build, nodes, tree, n.key.host, children[n.key])
      ensures old(Agreeing()) ==> Agreeing()
    {
      hide KeysOk, NodesOk, WellFormed, Agrees, Listed, InternedOk;
      if n.key !in children {
        var listing := Children(n);
      }
      assert Indexes(fold, build, children[n.key], byName[n.key]);
      return Lookup(byName[n.key], fold(name));
    }

    /** `invalidate_path`: a cursor climbs from the path to its volume's root. */
    method InvalidatePath(host: Path)
      requires Valid()
      modifies this`children, this`byName
      ensures Valid() && children == Invalidate(build, old(children), host)
    {
      hide InternedOk, NodesOk, WellFormed, IndexOk, KeysOk, OnChain, DropFrom, Invalidate;
      InvalidateOk(fold, build, children, byName, host);
      DropEnds(build, children, host);
      DropEnds(build, byName, host);
      var volume := VolumeOf(build, host);
      var root, current := RootOf(build, volume), host;
      RootIsAbove(build, host);
      ghost var c0, b0 := children, byName;
      while true
        invariant Below(current, host) && |root| <= |current|
        invariant children == DropFrom(build, c0, host, |current| + 1) &&
                  byName == DropFrom(build, b0, host, |current| + 1)
        decreases |current|
      {
        DropStep(build, c0, host, current);
        DropStep(build, b0, host, current);
        var key := Key(volume, current);
        children := children - {key};
        byName := byName - {key};
        if current == root || Parent(current) == current {
          assert |current| == |root|;
          break;
        }
        current := Parent(current);
      }
    }

    ghost function State(): VolumeState
      reads this
    {
      VolumeState(tree, nodes, children)
    }

    /** `write_data_fork`; the cache is right afterwards exactly under the stated condition. */
    method WriteDataFork(n: Node, data: seq<Byte>) returns (ok: bool)
      requires Valid() && Has(n)
      modifies this`tree, this`children, this`byName
      ensures Valid() && Step(fold, build, old(State()), Put(n.key.host, data), State())
      ensures ok <==> Write(old(tree), n.key.host, data).Some?
      ensures ok && old(Agreeing()) ==>
                (Agreeing() <==> (Below(build, n.key.host) ==> RouteSeen(build, old(tree), old(children))))
    {
      hide InternedOk, IndexOk, NodesOk, KeysOk, Write, WellFormed, Agrees, Invalidate, RouteSeen;
      var written := Write(tree, n.key.host, data);
      if written.None? {
        return false;
      }
      WriteKeeps(tree, n.key.host, data);
      if Agrees(fold, build, nodes, tree, children) {
        WriteAgrees(fold, build, nodes, tree, children, n.key.host, data);
      }
      tree := written.value;
      InvalidatePath(n.key.host);
      return true;
    }

    /** `delete` */
    method DeleteNode(n: Node) returns (ok: bool)
      requires Valid() && Has(n)
      modifies this`tree, this`children, this`byName
      ensures Valid() && Step(fold, build, old(State()), Remove(n.key.host), State())
      ensures ok <==> Delete(old(tree), n.key.host).Some?
      ensures ok && old(Agreeing()) ==>
                (Agreeing() <==> (n.key.host == build ==> Key(Host, Parent(build)) !in old(children)))
    {
      hide InternedOk, IndexOk, NodesOk, KeysOk, Delete, WellFormed, Agrees, Invalidate;
      var deleted := Delete(tree, n.key.host);
      if deleted.None? {
        return false;
      }
      DeleteKeeps(tree, n.key.host);
      if Agrees(fold, build, nodes, tree, children) {
        DeleteAgrees(fold, build, nodes, tree, children, n.key.host);
      }
      tree := deleted.value;
      InvalidatePath(n.key.host);
      return true;
    }

    /** `rename` */
    method RenameNode(n: Node, d: Path) returns (r: Option<Node>)
      requires Valid() && Has(n)
      modifies this
      ensures Valid() && Step(fold, build, old(State()), Change(n.key.host, d), State())
      ensures r.Some? <==> Rename(old(tree), n.key.host, d).Some?
      ensures r.Some? ==> Has(r.value) && r.value.key == KeyOf(build, d)
      ensures r.Some? && old(Agreeing()) && n.key.host != d ==>
                (Agreeing() <==> RenameSeen(build, old(tree), old(children), n.key.host, d))
    {
      hide InternedOk, IndexOk, NodesOk, KeysOk, Rename, WellFormed, Agrees, Invalidate, RenameSeen;
      var p := n.key.host;
      var renamed := Rename(tree, p, d);
      if renamed.None? {
        return None;
      }
      RenameKeeps(tree, p, d);
      ghost var t0, c0, n0 := tree, children, nodes;
      tree := renamed.value;
      InvalidatePath(p);
      InvalidatePath(d);
      var moved := NodeAt(d);
      if Agrees(fold, build, n0, t0, c0) && p != d {
        AgreesGrows(fold, build, n0, nodes, t0, c0);
        RenameAgrees(fold, build, nodes, t0, c0, p, d);
      }
      return Some(moved);
    }
  }

  lemma {:induction false} LeavesSnoc(c: seq<Node>, n: Node)
    ensures Leaves(c + [n]) == Leaves(c) + [Leaf(n)]
  {
  }

  lemma {:induction false} RootIsAbove(build: Path, host: Path)
    ensures Below(RootOf(build, VolumeOf(build, host)), host)
  {
  }

  lemma {:induction false} Caches(fold: string -> string, build: Path, nodes: Interned, t: Tree, cache: Listings,
                                  index: map<Key, map<string, seq<Node>>>, k: Key, c: seq<Node>,
                                  entry: map<string, seq<Node>>)
    requires KeysOk(build, cache) && IndexOk(fold, build, cache, index) && k == KeyOf(build, k.host) &&
             NodesOk(nodes, cache)
    requires Indexes(fold, build, c, entry) && IsListing(fold, Names(t, k.host), Leaves(c))
    requires forall i :: 0 <= i < |c| ==> ChildOf(build, nodes, k.host, c[i])
    ensures Listed(fold, build, nodes, t, k.host, c)
    ensures KeysOk(build, cache[k := c]) && NodesOk(nodes, cache[k := c]) &&
            IndexOk(fold, build, cache[k := c], index[k := entry])
    ensures Agrees(fold, build, nodes, t, cache) ==> Agrees(fold, build, nodes, t, cache[k := c])
  {
    hide IsListing, Names, Indexes, ChildOf;
    forall n | n in c ensures n.key in nodes && nodes[n.key] == n {
      var i :| 0 <= i < |c| && c[i] == n;
      ChildIsNode(build, nodes, k.host, c[i]);
    }
  }

  lemma {:induction false} ChildIsNode(build: Path, nodes: Interned, q: Path, n: Node)
    requires ChildOf(build, nodes, q, n)
    ensures n.key in nodes && nodes[n.key] == n
  {
  }

  /** What is left when the keys of the chain of length n or more are gone. */
  function DropFrom<V>(build: Path, cache: map<Key, V>, host: Path, n: nat): map<Key, V> {
    map k | k in cache && !(OnChain(build, host, k) && n <= |k.host|) :: cache[k]
  }

  lemma {:induction false} DropStep<V>(build: Path, cache: map<Key, V>, host: Path, current: Path)
    requires Below(current, host) && |RootOf(build, VolumeOf(build, host))| <= |current|
    ensures DropFrom(build, cache, host, |current| + 1) - {Key(VolumeOf(build, host), current)} ==
            DropFrom(build, cache, host, |current|)
  {
    var n := |current|;
    var a := DropFrom(build, cache, host, n + 1) - {Key(VolumeOf(build, host), current)};
    var b := DropFrom(build, cache, host, n);
    forall k ensures k in a <==> k in b {
      if OnChain(build, host, k) && |k.host| == n { assert k.host == current; }
    }
    SameMaps(a, b);
  }

  lemma {:induction false} DropEnds<V>(build: Path, cache: map<Key, V>, host: Path)
    ensures DropFrom(build, cache, host, |host| + 1) == cache
    ensures DropFrom(build, cache, host, |RootOf(build, VolumeOf(build, host))|) == Invalidate(build, cache, host)
  {
    SameMaps(DropFrom(build, cache, host, |host| + 1), cache);
    SameMaps(DropFrom(build, cache, host, |RootOf(build, VolumeOf(build, host))|), Invalidate(build, cache, host));
  }

  lemma {:induction false} SameMaps<K(!new), V>(a: map<K, V>, b: map<K, V>)
    requires forall k :: k in a <==> k in b
    requires forall k :: k in a && k in b ==> a[k] == b[k]
    ensures a == b
  {
    assert a.Keys == b.Keys;
  }

  lemma {:induction false} InvalidateOk(fold: string -> string, build: Path, cache: Listings,
                                        index: map<Key, map<string, seq<Node>>>, p: Path)
    requires KeysOk(build, cache) && IndexOk(fold, build, cache, index)
    ensures KeysOk(build, Invalidate(build, cache, p))
    ensures forall nodes :: NodesOk(nodes, cache) ==> NodesOk(nodes, Invalidate(build, cache, p))
    ensures IndexOk(fold, build, Invalidate(build, cache, p), Invalidate(build, index, p))
  {
    hide Indexes, OnChain;
    assert forall k :: k in index <==> k in index.Keys;
  }

  lemma {:induction false} BelowItself(p: Path)
    ensures Below(p, p)
  {
  }

  lemma {:induction false} Interns(build: Path, nodes: Interned, ids: map<nat, Node>, next: nat, k: Key)
    requires InternedOk(build, nodes, ids, next) && k == KeyOf(build, k.host) && k !in nodes
    ensures forall cache :: NodesOk(nodes, cache) ==> NodesOk(nodes[k := Node(k, next)], cache)
    ensures InternedOk(build, nodes[k := Node(k, next)], ids[next := Node(k, next)], next + 1)
    ensures Extends(nodes, nodes[k := Node(k, next)])
  {
    var n := Node(k, next);
    var nodes2, ids2 := nodes[k := n], ids[next := n];
    forall j | j in nodes2 ensures IsNode(build, nodes2, ids2, next + 1, j) {
      if j != k { assert IsNode(build, nodes, ids, next, j); }
    }
    forall i | i in ids2 ensures ids2[i].id == i && ids2[i].key in nodes2 && nodes2[ids2[i].key] == ids2[i] {
      if i != next { assert IsNode(build, nodes, ids, next, ids[i].key); }
    }
  }
}
