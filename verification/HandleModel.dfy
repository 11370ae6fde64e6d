/** Relocatable handles over a guest heap (src/cwhost/memory.py, class `Handles`): what each
    call does, and what no call disturbs. */
module HandleModel {
  import opened Bytes
  import opened HeapModel
  import opened FirstFitHeap
  import G = Guest

  /** A handle's block, the size asked for, and its state byte. Keyed by master pointer. */
  datatype Handle = Handle(block: int, requested: int, bits: int)

  datatype State = State(heap: Heap, mem: G.Memory, table: map<int, Handle>)

  predicate Locked(h: Handle) {
    h.bits / 0x80 % 2 == 1
  }

  /** Every handle owns a live master word and a live block, and shares neither. */
  ghost predicate GoodHandle(s: State, m: int)
    requires m in s.table
  {
    var h := s.table[m];
    h.requested >= 0 && 0 <= h.bits < 0x100 &&
    m in s.heap.live && s.heap.live[m] == 4 &&
    h.block in s.heap.live && s.heap.live[h.block] == Amount(h.requested)
  }

  ghost predicate Unshared(table: map<int, Handle>) {
    (forall m, k :: m in table && k in table ==> table[m].block != k) &&
    (forall m, k :: m in table && k in table && m != k ==> table[m].block != table[k].block)
  }

  ghost predicate GoodState(s: State) {
    Good(s.heap) && G.Mapped(s.mem, s.heap.base, s.heap.size) &&
    (forall m :: m in s.table ==> GoodHandle(s, m)) && Unshared(s.table)
  }

  // ----- blocks

  lemma {:induction false} LiveMapped(s: State, b: int)
    requires GoodState(s) && b in s.heap.live
    ensures s.heap.live[b] > 0 && 0 <= b && b + s.heap.live[b] <= TWO32
    ensures forall n :: 0 <= n <= s.heap.live[b] ==> G.Mapped(s.mem, b, n)
  {
    BlockInside(s.heap, b);
  }

  /** The bytes of a live block. */
  ghost function BlockBytes(s: State, b: int, n: int): (bytes: seq<Byte>)
    requires GoodState(s) && b in s.heap.live && 0 <= n <= s.heap.live[b]
    ensures |bytes| == n
  {
    LiveMapped(s, b);
    G.Load(s.mem, b, n)
  }

  /** What a handle holds. */
  ghost function Contents(s: State, m: int): (bytes: seq<Byte>)
    requires GoodState(s) && m in s.table
    ensures |bytes| == s.table[m].requested
  {
    assert GoodHandle(s, m);
    BlockBytes(s, s.table[m].block, s.table[m].requested)
  }

  /** The master word in guest memory holds the block's address. */
  ghost predicate MasterHolds(s: State, m: int)
    requires GoodState(s) && m in s.table
  {
    assert GoodHandle(s, m);
    BlockBytes(s, m, 4) == ToBe(s.table[m].block, 4)
  }

  lemma {:induction false} LiveApart(h: Heap, a: int, b: int)
    requires Good(h) && a in h.live && b in h.live && a != b
    ensures a + h.live[a] <= b || b + h.live[b] <= a
  {
  }

  // ----- the calls

  /** Block first, master word second; if the second allocation fails the first one is lost. */
  ghost predicate NewStep(s: State, size: int, clear: bool, r: Result, s': State) {
    match r
    case Ok(m) =>
      m in s'.table && var block := s'.table[m].block;
      s'.table == s.table[m := Handle(block, size, 0)] &&
      (exists mid :: AllocStep(s.heap, size, 16, Ok(block), mid) && AllocStep(mid, 4, 4, Ok(m), s'.heap)) &&
      s'.mem == var linked := G.Store(s.mem, m, ToBe(block, 4));
                if clear then G.Store(linked, block, Zeros(Amount(size))) else linked
    case Invalid => size < 0 && s' == s
    case Exhausted =>
      size >= 0 && s'.mem == s.mem && s'.table == s.table && PairFails(s.heap, size, 16, 4, 4, s'.heap)
    case Unmovable => false
  }

  ghost predicate DisposeStep(s: State, m: int, r: Result, s': State) {
    match r
    case Ok(_) =>
      m in s.table && s'.table == s.table - {m} && s'.mem == s.mem &&
      exists mid :: FreeStep(s.heap, s.table[m].block, Ok(s.table[m].block), mid) && FreeStep(mid, m, Ok(m), s'.heap)
    case Invalid => m !in s.table && s' == s
    case _ => false
  }

  ghost predicate ResizeStep(s: State, m: int, size: int, r: Result, s': State) {
    match r
    case Invalid => (size < 0 || m !in s.table) && s' == s
    case Ok(block) =>
      size >= 0 && m in s.table && var h := s.table[m];
      ReallocStep(s.heap, h.block, size, !Locked(h), r, s'.heap) &&
      s'.mem == G.Store(Moved(s.mem, s.heap.live, h.block, r), m, ToBe(block, 4)) &&
      s'.table == s.table[m := Handle(block, size, h.bits)]
    case _ =>
      size >= 0 && m in s.table && s' == s &&
      ReallocStep(s.heap, s.table[m].block, size, !Locked(s.table[m]), r, s'.heap)
  }

  /** lock, unlock and set_state change one state byte. */
  ghost predicate BitsStep(s: State, m: int, bits: int, ok: bool, s': State) {
    if ok then m in s.table && s' == s.(table := s.table[m := s.table[m].(bits := bits)])
    else s' == s
  }

  // ----- every call keeps the invariant and leaves the rest alone

  /** Everything but the listed blocks survives with its size and bytes. */
  ghost predicate Undisturbed(s: State, s': State, own: set<int>)
    requires GoodState(s) && GoodState(s')
  {
    forall b :: b in s.heap.live && b !in own ==>
      b in s'.heap.live && s'.heap.live[b] == s.heap.live[b] &&
      BlockBytes(s', b, s.heap.live[b]) == BlockBytes(s, b, s.heap.live[b])
  }

  lemma {:induction false} PrefixBytes(s: State, b: int, n: int)
    requires GoodState(s) && b in s.heap.live && 0 <= n <= s.heap.live[b]
    ensures BlockBytes(s, b, n) == BlockBytes(s, b, s.heap.live[b])[..n]
  {
    LiveMapped(s, b);
    G.LoadPart(s.mem, b, s.heap.live[b], 0, n);
  }

  /** A handle whose blocks are undisturbed keeps its contents and its master word. */
  lemma {:induction false} HandleUndisturbed(s: State, s': State, own: set<int>, k: int)
    requires GoodState(s) && GoodState(s') && Undisturbed(s, s', own)
    requires k in s.table && k in s'.table && s'.table[k].block == s.table[k].block
    requires s'.table[k].requested == s.table[k].requested
    requires k !in own && s.table[k].block !in own
    ensures Contents(s', k) == Contents(s, k)
    ensures MasterHolds(s, k) <==> MasterHolds(s', k)
  {
    assert GoodHandle(s, k) && GoodHandle(s', k);
    hide BlockBytes;
    PrefixBytes(s, s.table[k].block, s.table[k].requested);
    PrefixBytes(s', s.table[k].block, s.table[k].requested);
    assert BlockBytes(s', k, 4) == BlockBytes(s, k, 4);
  }

  lemma {:induction false} StoreInBlock(s: State, b: int, data: seq<Byte>)
    requires GoodState(s) && b in s.heap.live && |data| <= s.heap.live[b]
    ensures var s' := s.(mem := G.Store(s.mem, b, data));
            GoodState(s') && Undisturbed(s, s', {b}) && BlockBytes(s', b, |data|) == data
  {
    var s' := s.(mem := G.Store(s.mem, b, data));
    forall m | m in s'.table ensures GoodHandle(s', m) {
      assert GoodHandle(s, m);
    }
    LiveMapped(s, b);
    G.LoadStored(s.mem, b, data);
    forall c | c in s.heap.live && c != b
      ensures BlockBytes(s', c, s.heap.live[c]) == BlockBytes(s, c, s.heap.live[c])
    {
      LiveApart(s.heap, b, c);
      LiveMapped(s, c);
      G.LoadElsewhere(s.mem, b, data, c, s.heap.live[c]);
    }
  }

  /** Changing only the heap's other blocks keeps the state good. */
  lemma {:induction false} HeapGrows(s: State, h: Heap)
    requires GoodState(s) && Good(h) && h.base == s.heap.base && h.size == s.heap.size
    requires forall b :: b in s.heap.live ==> b in h.live && h.live[b] == s.heap.live[b]
    ensures GoodState(s.(heap := h)) && Undisturbed(s, s.(heap := h), {})
  {
    var s' := s.(heap := h);
    forall m | m in s'.table ensures GoodHandle(s', m) {
      assert GoodHandle(s, m);
    }
  }

  lemma {:induction false} UndisturbedChain(s: State, t: State, u: State, own: set<int>)
    requires GoodState(s) && GoodState(t) && GoodState(u)
    requires Undisturbed(s, t, own) && Undisturbed(t, u, own)
    ensures Undisturbed(s, u, own)
  {
    hide BlockBytes;
  }

  lemma {:induction false} UndisturbedWeaken(s: State, t: State, own: set<int>, more: set<int>)
    requires GoodState(s) && GoodState(t) && Undisturbed(s, t, own) && own <= more
    ensures Undisturbed(s, t, more)
  {
    hide BlockBytes;
  }

  lemma {:induction false} UndisturbedSame(s: State, table: map<int, Handle>)
    requires GoodState(s) && GoodState(s.(table := table))
    ensures Undisturbed(s, s.(table := table), {})
  {
    hide BlockBytes;
    forall b | b in s.heap.live
      ensures BlockBytes(s.(table := table), b, s.heap.live[b]) == BlockBytes(s, b, s.heap.live[b])
    {
      SameBlockBytes(s, s.(table := table), b, s.heap.live[b]);
    }
  }

  lemma {:induction false} SameBlockBytes(s: State, t: State, b: int, n: int)
    requires GoodState(s) && GoodState(t) && s.mem == t.mem
    requires b in s.heap.live && b in t.heap.live && 0 <= n <= s.heap.live[b] && n <= t.heap.live[b]
    ensures BlockBytes(s, b, n) == BlockBytes(t, b, n)
  {
  }

  /** The table with the new handle, over the heap that holds its two blocks. */
  lemma {:induction false} NewTable(s: State, block: int, m: int, size: int, h: Heap)
    requires GoodState(s) && size >= 0 && Good(h) && h.base == s.heap.base && h.size == s.heap.size
    requires block !in s.heap.live && m !in s.heap.live && block != m
    requires h.live == s.heap.live[block := Amount(size)][m := 4]
    ensures GoodState(State(h, s.mem, s.table[m := Handle(block, size, 0)]))
  {
    var s1 := State(h, s.mem, s.table[m := Handle(block, size, 0)]);
    forall k | k in s1.table ensures GoodHandle(s1, k) && (k != m ==> s1.table[k].block !in {block, m} && k != block) {
      if k != m {
        assert GoodHandle(s, k);
      }
    }
  }

  lemma {:induction false} NewKeeps(s: State, size: int, clear: bool, m: int, s': State)
    requires GoodState(s) && size >= 0 && NewStep(s, size, clear, Ok(m), s')
    ensures m !in s.table && GoodState(s') && Undisturbed(s, s', {})
    ensures m in s'.table && s'.table[m].block % 16 == 0 && m % 4 == 0
    ensures s'.table[m].requested == size && s'.heap.live[s'.table[m].block] == if size < 1 then 1 else size
    ensures MasterHolds(s', m) && (clear ==> Contents(s', m) == Zeros(size))
  {
    var block := s'.table[m].block;
    var mid :| AllocStep(s.heap, size, 16, Ok(block), mid) && AllocStep(mid, 4, 4, Ok(m), s'.heap);
    assert m in s.table ==> GoodHandle(s, m);
    HeapGrows(s, s'.heap);
    NewTable(s, block, m, size, s'.heap);
    var s0 := s.(heap := s'.heap);
    var s1 := s0.(table := s'.table);
    UndisturbedSame(s0, s'.table);
    hide AllocStep, Good, BlockBytes;
    StoreInBlock(s1, m, ToBe(block, 4));
    var s2 := s1.(mem := G.Store(s.mem, m, ToBe(block, 4)));
    UndisturbedChain(s, s0, s1, {});
    UndisturbedFresh(s, s1, s2, m);
    if clear {
      StoreInBlock(s2, block, Zeros(Amount(size)));
      assert s' == s2.(mem := G.Store(s2.mem, block, Zeros(Amount(size))));
      UndisturbedFresh(s, s2, s', block);
      PrefixBytes(s', block, size);
    } else {
      assert s' == s2;
    }
  }

  /** A store into a block the earlier state did not have leaves that state's blocks alone. */
  lemma {:induction false} UndisturbedFresh(s: State, t: State, u: State, b: int)
    requires GoodState(s) && GoodState(t) && GoodState(u) && b !in s.heap.live
    requires Undisturbed(s, t, {}) && Undisturbed(t, u, {b})
    ensures Undisturbed(s, u, {})
  {
    hide BlockBytes;
  }

  /** A failed creation changes no handle. The heap is as before if and only if the block itself had no
      room; otherwise exactly that block is lost. */
  lemma {:induction false} NewFails(s: State, size: int, clear: bool, r: Result, s': State)
    requires GoodState(s) && NewStep(s, size, clear, r, s') && !r.Ok?
    ensures GoodState(s') && s'.table == s.table && s'.mem == s.mem && Undisturbed(s, s', {})
    ensures r.Invalid? ==> s' == s
    ensures r.Exhausted? ==> (s'.heap == s.heap <==> NoFit(s.heap.free, Amount(size), 16))
    ensures r.Exhausted? ==> (s'.heap != s.heap <==> Leaks(s.heap, size, 16, s'.heap))
  {
    if r.Exhausted? {
      PairLeaks(s.heap, size, 16, 4, 4, s'.heap);
    }
    hide Leaks, NoFit;
    if r.Exhausted? {
      if !AllocStep(s.heap, size, 16, Exhausted, s'.heap) {
        var block, mid :| AllocStep(s.heap, size, 16, Ok(block), mid) && AllocStep(mid, 4, 4, Exhausted, s'.heap);
      }
      HeapGrows(s, s'.heap);
      assert s' == s.(heap := s'.heap);
    } else {
      UndisturbedSame(s, s.table);
    }
  }

  /** An instance: the one block of a full heap is lost. */
  lemma {:induction false} NewCanLeak() returns (s: State, s': State)
    ensures GoodState(s) && NewStep(s, 16, false, Exhausted, s') && s'.table == s.table == map[]
    ensures s.heap.live == map[] && s'.heap.live == map[0 := 16]
  {
    SmallHeaps(16);
    SmallHeapLeaks(16, 16, 16, 4, 4);
    var mem: G.Memory := map x | 0 <= x < 16 && G.Within(x, 0, 16) :: 0;
    s, s' := State(WholeHeap(16), mem, map[]), State(FullHeap(16), mem, map[]);
  }

  lemma {:induction false} DisposeKeeps(s: State, m: int, s': State)
    requires GoodState(s) && m in s.table && DisposeStep(s, m, Ok(m), s')
    ensures GoodState(s') && Undisturbed(s, s', {m, s.table[m].block})
    ensures s'.heap.live == s.heap.live - {m, s.table[m].block}
  {
    var block := s.table[m].block;
    assert GoodHandle(s, m);
    var mid :| FreeStep(s.heap, block, Ok(block), mid) && FreeStep(mid, m, Ok(m), s'.heap);
    assert s'.heap.live == s.heap.live - {block} - {m} == s.heap.live - {m, block};
    forall k | k in s'.table ensures GoodHandle(s', k) {
      assert GoodHandle(s, k);
    }
    forall b | b in s.heap.live && b !in {m, block}
      ensures b in s'.heap.live && BlockBytes(s', b, s.heap.live[b]) == BlockBytes(s, b, s.heap.live[b])
    {
      SameBlockBytes(s, s', b, s.heap.live[b]);
    }
  }

  /** The state with the new block in heap and table, before any byte is written. */
  lemma {:induction false} ResizeTable(s: State, m: int, size: int, nb: int, h: Heap)
    requires GoodState(s) && m in s.table && size >= 0
    requires ReallocStep(s.heap, s.table[m].block, size, !Locked(s.table[m]), Ok(nb), h)
    ensures var t := State(h, s.mem, s.table[m := Handle(nb, size, s.table[m].bits)]);
            GoodState(t) && Undisturbed(s, t, {s.table[m].block}) &&
            m in h.live && nb in h.live && h.live[nb] == Amount(size) && h.live[m] == 4
  {
    var old_ := s.table[m];
    var t := State(h, s.mem, s.table[m := Handle(nb, size, old_.bits)]);
    assert GoodHandle(s, m);
    forall k | k in t.table ensures GoodHandle(t, k) && (k != m ==> t.table[k].block != nb) && k != nb {
      assert GoodHandle(s, k);
    }
    forall b | b in s.heap.live && b != old_.block
      ensures b in h.live && h.live[b] == s.heap.live[b]
      ensures BlockBytes(t, b, s.heap.live[b]) == BlockBytes(s, b, s.heap.live[b])
    {
      SameBlockBytes(s, t, b, s.heap.live[b]);
    }
  }

  /** Resizing keeps the first min(old, new) bytes and disturbs nothing but the handle's own two
      blocks, whether the block moved or not. */
  lemma {:induction false} ResizeKeeps(s: State, m: int, size: int, nb: int, s': State)
    requires GoodState(s) && ResizeStep(s, m, size, Ok(nb), s')
    ensures GoodState(s') && Undisturbed(s, s', {m, s.table[m].block}) && MasterHolds(s', m)
    ensures var n := if size < s.table[m].requested then size else s.table[m].requested;
            Contents(s', m)[..n] == Contents(s, m)[..n]
    ensures Locked(s.table[m]) ==> nb == s.table[m].block
  {
    var old_ := s.table[m];
    var n := if size < old_.requested then size else old_.requested;
    assert GoodHandle(s, m);
    ResizeTable(s, m, size, nb, s'.heap);
    var t := State(s'.heap, s.mem, s'.table);
    var u := t.(mem := Moved(s.mem, s.heap.live, old_.block, Ok(nb)));
    MoveKeeps(s, t, m, size, nb);
    StoreInBlock(u, m, ToBe(nb, 4));
    assert s' == u.(mem := G.Store(u.mem, m, ToBe(nb, 4)));
    UndisturbedWeaken(t, u, {nb}, {nb, m});
    ResizeChain(s, t, u, s', m, nb);
    assert GoodHandle(s', m) && m != nb;
    ResizeContents(s, u, s', m, nb, n);
  }

  lemma {:induction false} ResizeChain(s: State, t: State, u: State, s': State, m: int, nb: int)
    requires GoodState(s) && GoodState(t) && GoodState(u) && GoodState(s') && m in s.table
    requires nb == s.table[m].block || nb !in s.heap.live
    requires Undisturbed(s, t, {s.table[m].block}) && Undisturbed(t, u, {nb, m}) && Undisturbed(u, s', {m})
    ensures Undisturbed(s, s', {m, s.table[m].block})
  {
    hide BlockBytes;
  }

  /** Before the master word is written: the new block starts with the old block's bytes. */
  lemma {:induction false} MoveKeeps(s: State, t: State, m: int, size: int, nb: int)
    requires GoodState(s) && GoodState(t) && m in s.table && size >= 0 && s.table[m].block in s.heap.live
    requires ReallocStep(s.heap, s.table[m].block, size, !Locked(s.table[m]), Ok(nb), t.heap)
    requires t.mem == s.mem && nb in t.heap.live && t.heap.live[nb] == Amount(size)
    ensures var u := t.(mem := Moved(s.mem, s.heap.live, s.table[m].block, Ok(nb)));
            var o := s.heap.live[s.table[m].block];
            GoodState(u) && Undisturbed(t, u, {nb}) &&
            forall k :: 0 <= k <= o && k <= Amount(size) ==> BlockBytes(u, nb, k) == BlockBytes(s, s.table[m].block, k)
  {
    var b := s.table[m].block;
    var o := s.heap.live[b];
    LiveMapped(s, b);
    if nb == b {
      var u := t.(mem := Moved(s.mem, s.heap.live, b, Ok(nb)));
      assert u == t;
      forall k | 0 <= k <= o && k <= Amount(size) ensures BlockBytes(u, nb, k) == BlockBytes(s, b, k) {
        SameBlockBytes(s, t, b, k);
      }
    } else {
      var data := G.Load(s.mem, b, o);
      assert o < Amount(size);
      StoreInBlock(t, nb, data);
      var u := t.(mem := G.Store(s.mem, nb, data));
      forall k | 0 <= k <= o && k <= Amount(size) ensures BlockBytes(u, nb, k) == BlockBytes(s, b, k) {
        LiveMapped(u, nb);
        G.LoadPart(u.mem, nb, o, 0, k);
        G.LoadPart(s.mem, b, o, 0, k);
      }
    }
  }

  lemma {:induction false} ResizeContents(s: State, u: State, s': State, m: int, nb: int, n: int)
    requires GoodState(s) && GoodState(u) && GoodState(s') && Undisturbed(u, s', {m}) && m != nb
    requires m in s.table && m in s'.table && s'.table[m].block == nb && nb in u.heap.live && u.heap == s'.heap
    requires s.table[m].block in s.heap.live && s.heap.live[s.table[m].block] >= s.table[m].requested
    requires u.heap.live[nb] >= s'.table[m].requested
    requires 0 <= n <= s.table[m].requested && n <= s'.table[m].requested
    requires BlockBytes(u, nb, n) == BlockBytes(s, s.table[m].block, n)
    ensures Contents(s', m)[..n] == Contents(s, m)[..n]
  {
    hide BlockBytes;
    var b := s.table[m].block;
    PrefixBytes(u, nb, n);
    PrefixBytes(s', nb, n);
    PrefixBytes(s', nb, s'.table[m].requested);
    PrefixBytes(s, b, n);
    PrefixBytes(s, b, s.table[m].requested);
  }
}
