/** The chain of open resource files (src/cwhost/resources.py, `ResourceChain`). */
module ResourceChains {
  import opened Bytes
  import opened ResourceFiles
  import opened Wrappers

  /** A node as the chain sees it: the volume set it belongs to, and its resource fork. */
  datatype FileNode = FileNode(vfs: int, fork: seq<Byte>)

  datatype ChainState = ChainState(files: map<int, Resources>, order: seq<int>, current: Option<int>)

  /** No file stands twice in the order, the order is the open files, and the current one is in it. */
  ghost predicate Good(s: ChainState) {
    NoRepeats(s.order) && (forall r :: r in s.files <==> r in s.order) && (forall r :: r in s.files ==> r >= 1) &&
    match s.current
    case None => s.order == []
    case Some(r) => r in s.order
  }

  ghost predicate NoRepeats(order: seq<int>) {
    forall i, j :: 0 <= i < j < |order| ==> order[i] != order[j]
  }

  /** The least number not in use. */
  ghost predicate LeastFree(files: map<int, Resources>, r: int) {
    r >= 1 && r !in files && forall q :: 1 <= q < r ==> q in files
  }

  function Without(order: seq<int>, r: int): seq<int> {
    if order == [] then [] else if order[0] == r then order[1..] else [order[0]] + Without(order[1..], r)
  }

  function LastOf(order: seq<int>): Option<int> {
    if order == [] then None else Some(order[|order| - 1])
  }

  function OpenStep(s: ChainState, r: int, res: Resources): ChainState {
    ChainState(s.files[r := res], s.order + [r], Some(r))
  }

  function CloseStep(s: ChainState, r: int): ChainState {
    var order := Without(s.order, r);
    ChainState(s.files - {r}, order, LastOf(order))
  }

  // ----- what the steps keep

  lemma {:induction false} OpenKeeps(s: ChainState, r: int, res: Resources)
    requires Good(s) && LeastFree(s.files, r)
    ensures Good(OpenStep(s, r, res))
  {
    var s2 := OpenStep(s, r, res);
    assert r in s2.order by { assert s2.order[|s.order|] == r; }
    forall q | q in s.order ensures q in s2.order {}
  }

  lemma {:induction false} WithoutIs(order: seq<int>, r: int)
    requires NoRepeats(order)
    ensures NoRepeats(Without(order, r))
    ensures forall q :: q in Without(order, r) <==> q in order && q != r
    decreases |order|
  {
    if order != [] {
      var rest := order[1..];
      WithoutIs(rest, r);
      assert forall q :: q in order <==> q == order[0] || q in rest by { assert order == [order[0]] + rest; }
      assert order[0] !in rest;
      if order[0] != r {
        HeadedNoRepeats(order[0], Without(rest, r));
      }
    }
  }

  lemma {:induction false} HeadedNoRepeats(x: int, l: seq<int>)
    requires NoRepeats(l) && x !in l
    ensures NoRepeats([x] + l) && forall q :: q in [x] + l <==> q == x || q in l
  {
  }

  lemma {:induction false} CloseKeeps(s: ChainState, r: int)
    requires Good(s) && r in s.files
    ensures Good(CloseStep(s, r))
  {
    WithoutIs(s.order, r);
    var s2 := CloseStep(s, r);
    if s2.order != [] { assert s2.order[|s2.order| - 1] in s2.order; }
  }

  lemma {:induction false} WithoutAppended(order: seq<int>, r: int)
    requires r !in order
    ensures Without(order + [r], r) == order
    decreases |order|
  {
    if order != [] {
      WithoutAppended(order[1..], r);
      assert (order + [r])[1..] == order[1..] + [r];
      assert order == [order[0]] + order[1..];
    }
  }

  /** Closing the file just opened restores the files and their order; the current file comes back only
      if it was the last one. */
  lemma {:induction false} CloseUndoesOpen(s: ChainState, r: int, res: Resources)
    requires Good(s) && LeastFree(s.files, r)
    ensures var s2 := CloseStep(OpenStep(s, r, res), r);
            s2.files == s.files && s2.order == s.order && (s2 == s <==> s.current == LastOf(s.order))
  {
    assert r !in s.order;
    WithoutAppended(s.order, r);
    assert s.files[r := res] - {r} == s.files;
  }

  /** An instance: with files 1 and 2 open and 1 current, opening and closing a third makes 2 current. */
  lemma {:induction false} CloseMovesCurrent()
    ensures var s := ChainState(map[1 := map[], 2 := map[]], [1, 2], Some(1));
            Good(s) && LeastFree(s.files, 3) && CloseStep(OpenStep(s, 3, map[]), 3) == s.(current := Some(2))
  {
    var s := ChainState(map[1 := map[], 2 := map[]], [1, 2], Some(1));
    CloseUndoesOpen(s, 3, map[]);
    assert LastOf([1, 2]) == Some(2);
  }

  lemma {:induction false} CountUsed(files: map<int, Resources>, n: nat)
    requires forall q :: 1 <= q <= n ==> q in files
    ensures n <= |files|
    decreases n
  {
    if n > 0 {
      var rest := files - {n};
      assert files.Keys == rest.Keys + {n};
      forall q | 1 <= q <= n - 1 ensures q in rest {}
      CountUsed(rest, n - 1);
      assert |files| == |files.Keys| && |rest| == |rest.Keys|;
    }
  }

  // ----- looking up

  /** Position of the last file at or before i that has the resource. */
  ghost predicate FoundAt(s: ChainState, i: int, t: seq<Byte>, id: int, k: int)
    requires Good(s) && i < |s.order|
  {
    0 <= k <= i && Find(s.files[s.order[k]], t, id).Ok? &&
    forall j :: k < j <= i ==> Find(s.files[s.order[j]], t, id).Error?
  }

  ghost predicate NotFound(s: ChainState, i: int, t: seq<Byte>, id: int)
    requires Good(s) && i < |s.order|
  {
    forall j :: 0 <= j <= i ==> Find(s.files[s.order[j]], t, id).Error?
  }

  function IndexOf(order: seq<int>, r: int): nat {
    if order == [] || order[0] == r then 0 else 1 + IndexOf(order[1..], r)
  }

  lemma {:induction false} IndexIs(order: seq<int>, r: int)
    requires r in order
    ensures IndexOf(order, r) < |order| && order[IndexOf(order, r)] == r
    decreases |order|
  {
    if order[0] != r {
      assert r in order[1..];
      IndexIs(order[1..], r);
    }
  }

  /** What `get` returns: the resource of the latest file, from the current one back, that has it. */
  ghost predicate IsGet(s: ChainState, t: seq<Byte>, id: int, r: Option<seq<Byte>>)
    requires Good(s)
  {
    if s.current.None? then r == None
    else
      IndexIs(s.order, s.current.value);
      var i := IndexOf(s.order, s.current.value);
      match r
      case None => NotFound(s, i, t, id)
      case Some(data) => exists k :: FoundAt(s, i, t, id, k) && Find(s.files[s.order[k]], t, id).value == data
  }

  lemma {:induction false} GetIsOne(s: ChainState, t: seq<Byte>, id: int, a: Option<seq<Byte>>, b: Option<seq<Byte>>)
    requires Good(s) && IsGet(s, t, id, a) && IsGet(s, t, id, b)
    ensures a == b
  {
    hide Find;
    if s.current.Some? && a.Some? && b.Some? {
      IndexIs(s.order, s.current.value);
      var i := IndexOf(s.order, s.current.value);
      var k :| FoundAt(s, i, t, id, k) && Find(s.files[s.order[k]], t, id).value == a.value;
      var l :| FoundAt(s, i, t, id, l) && Find(s.files[s.order[l]], t, id).value == b.value;
      assert k == l;
    }
  }

  /** The search for a number: at most one more than there are open files. */
  method FreeNumber(files: map<int, Resources>) returns (r: int)
    ensures LeastFree(files, r) && r <= |files| + 1
  {
    r := 1;
    while r in files
      invariant r >= 1 && forall q :: 1 <= q < r ==> q in files
      decreases |files| + 1 - r
    {
      CountUsed(files, r);
      r := r + 1;
    }
    CountUsed(files, r - 1);
  }

  class Chain {
    const vfs: int
    var files: map<int, Resources>
    var nodes: map<int, FileNode>
    var order: seq<int>
    var current: Option<int>

    ghost function State(): ChainState
      reads this
    {
      ChainState(files, order, current)
    }

    ghost predicate Valid()
      reads this
    {
      Good(State()) && nodes.Keys == files.Keys
    }

    constructor (vfs: int)
      ensures Valid() && this.vfs == vfs && State() == ChainState(map[], [], None)
    {
      this.vfs := vfs;
      files, nodes, order, current := map[], map[], [], None;
    }

    /** `open`: the least unused number; nothing changes when the fork does not parse. */
    method Open(node: FileNode) returns (r: Result<int>)
      requires Valid()
      modifies this
      ensures Valid()
      ensures r.Ok? ==> LeastFree(old(files), r.value) && r.value <= |old(files)| + 1 &&
                        exists res :: ParsesTo(node.fork, res) && State() == OpenStep(old(State()), r.value, res)
      ensures r.Ok? ==> nodes == old(nodes)[r.value := node]
      ensures r.Error? ==> State() == old(State()) && nodes == old(nodes)
      ensures r.Ok? <==> node.vfs == vfs && Parses(node.fork)
    {
      hide Parses, ParsesTo;
      if node.vfs != vfs {
        return Error;
      }
      var refnum := FreeNumber(files);
      var parsed := Parse(node.fork);
      if parsed.Error? {
        return Error;
      }
      OpenKeeps(State(), refnum, parsed.value);
      hide Good;
      ghost var s := State();
      files := files[refnum := parsed.value];
      nodes := nodes[refnum := node];
      order := order + [refnum];
      current := Some(refnum);
      assert State() == OpenStep(s, refnum, parsed.value);
      return Ok(refnum);
    }

    /** `use` */
    method Use(refnum: int) returns (ok: bool)
      requires Valid()
      modifies this`current
      ensures Valid() && (ok <==> refnum in files)
      ensures State() == if ok then old(State()).(current := Some(refnum)) else old(State())
    {
      if refnum !in files {
        return false;
      }
      current := Some(refnum);
      return true;
    }

    /** `close` */
    method Close(refnum: int) returns (ok: bool)
      requires Valid()
      modifies this
      ensures Valid() && (ok <==> refnum in old(files))
      ensures State() == if ok then CloseStep(old(State()), refnum) else old(State())
      ensures nodes == if ok then old(nodes) - {refnum} else old(nodes)
    {
      if refnum !in files {
        return false;
      }
      CloseKeeps(State(), refnum);
      hide Good;
      files := files - {refnum};
      nodes := nodes - {refnum};
      order := Without(order, refnum);
      current := LastOf(order);
      return true;
    }

    /** `get` */
    method Get(t: seq<Byte>, id: int) returns (r: Result<Option<seq<Byte>>>)
      requires Valid()
      ensures r.Error? <==> current.Some? && |t| != 4
      ensures r.Ok? ==> IsGet(State(), t, id, r.value)
    {
      hide Find;
      if current.None? {
        return Ok(None);
      }
      if |t| != 4 {
        return Error;
      }
      IndexIs(order, current.value);
      var last := IndexOf(order, current.value);
      var k := last;
      while k >= 0
        invariant -1 <= k <= last
        invariant forall j :: k < j <= last ==> Find(files[order[j]], t, id).Error?
      {
        assert order[k] in order;
        var found := Find(files[order[k]], t, id);
        if found.Ok? {
          assert FoundAt(State(), last, t, id, k);
          return Ok(Some(found.value));
        }
        k := k - 1;
      }
      return Ok(None);
    }

    /** `get_ind_string`: the string at a 1-based index of the list `get` finds. */
    method GetIndString(listId: int, index: int) returns (r: Result<seq<Byte>>)
      requires Valid()
      ensures index < 1 ==> r == Error
      ensures index >= 1 ==> exists list :: IsGet(State(), STR_LIST, listId, list) && r == Indexed(list, index)
    {
      hide Find, StringList;
      if index < 1 {
        return Error;
      }
      if current.None? {
        assert IsGet(State(), STR_LIST, listId, None) && Indexed(None, index) == Error;
        return Error;
      }
      IndexIs(order, current.value);
      var last := IndexOf(order, current.value);
      var k := last;
      while k >= 0
        invariant -1 <= k <= last
        invariant forall j :: k < j <= last ==> Find(files[order[j]], STR_LIST, listId).Error?
      {
        assert order[k] in order;
        var found := Find(files[order[k]], STR_LIST, listId);
        if found.Ok? {
          assert FoundAt(State(), last, STR_LIST, listId, k);
          assert IsGet(State(), STR_LIST, listId, Some(found.value));
          var strings := StrList(found.value);
          ghost var list := Some(found.value);
          if strings.Error? || index > |strings.value| {
            r := Error;
          } else {
            r := Ok(strings.value[index - 1]);
          }
          assert IsGet(State(), STR_LIST, listId, list) && r == Indexed(list, index);
          return;
        }
        k := k - 1;
      }
      assert IsGet(State(), STR_LIST, listId, None);
      return Error;
    }
  }

  function Indexed(list: Option<seq<Byte>>, index: int): Result<seq<Byte>> {
    if list.None? then Error
    else
      match StringList(list.value)
      case Error => Error
      case Ok(strings) => if 1 <= index <= |strings| then Ok(strings[index - 1]) else Error
  }

  /** Strings are counted from 1. */
  lemma {:induction false} IndexedIs(payload: seq<Byte>, index: int, item: seq<Byte>)
    ensures Indexed(Some(payload), index) == Ok(item) <==>
            exists strings :: SpellsList(payload, strings) && 1 <= index <= |strings| && strings[index - 1] == item
  {
    hide StringList, SpellsList;
    forall strings ensures StringList(payload) == Ok(strings) <==> SpellsList(payload, strings) {
      StringListDecodes(payload, strings);
    }
  }
}
