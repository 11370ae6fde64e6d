/** Request-scoped memory handles on the heap that the Memory Manager handles live on too
    (src/cwhost/session.py:168-211). */
module SessionModel {
  import opened Bytes
  import opened HeapModel
  import opened FirstFitHeap
  import opened HandleModel
  import opened HandleRuns
  import G = Guest

  /** A plug-in memory handle: an eight-byte record (block, size) and the block itself. */
  datatype CwHandle = CwHandle(block: int, size: int, scoped: bool)

  datatype Session = Session(core: State, cw: map<int, CwHandle>)

  ghost predicate GoodRecord(s: Session, h: int)
    requires h in s.cw
  {
    var live, c := s.core.heap.live, s.cw[h];
    c.size >= 0 && h in live && live[h] == 8 && c.block in live && live[c.block] == Amount(c.size)
  }

  /** b belongs to the Memory Manager: a master word or a block of a handle. */
  ghost predicate InTable(table: map<int, Handle>, b: int) {
    b in table || exists m :: m in table && table[m].block == b
  }

  /** b belongs to the session: a record or a block of a plug-in handle. */
  ghost predicate InCw(cw: map<int, CwHandle>, b: int) {
    b in cw || exists h :: h in cw && cw[h].block == b
  }

  ghost predicate CwUnshared(cw: map<int, CwHandle>) {
    (forall h, k :: h in cw && k in cw ==> cw[h].block != k) &&
    (forall h, k :: h in cw && k in cw && h != k ==> cw[h].block != cw[k].block)
  }

  ghost predicate GoodSession(s: Session) {
    GoodState(s.core) && (forall h :: h in s.cw ==> GoodRecord(s, h)) && CwUnshared(s.cw) &&
    forall b :: !(InTable(s.core.table, b) && InCw(s.cw, b))
  }

  ghost function CwBytes(s: Session, h: int): (bytes: seq<Byte>)
    requires GoodSession(s) && h in s.cw
    ensures |bytes| == s.cw[h].size
  {
    assert GoodRecord(s, h);
    BlockBytes(s.core, s.cw[h].block, s.cw[h].size)
  }

  /** The record in guest memory holds the block's address and the size. */
  ghost predicate RecordHolds(s: Session, h: int)
    requires GoodSession(s) && h in s.cw
  {
    assert GoodRecord(s, h);
    BlockBytes(s.core, h, 8) == ToBe(s.cw[h].block, 4) + ToBe(s.cw[h].size, 4)
  }

  /** Record first, block second; if the second allocation fails the first one is lost. */
  ghost predicate CwAllocStep(s: Session, data: seq<Byte>, scoped: bool, r: Result, s': Session) {
    s'.core.table == s.core.table &&
    match r
    case Ok(h) =>
      h in s'.cw && var block := s'.cw[h].block;
      s'.cw == s.cw[h := CwHandle(block, |data|, scoped)] &&
      (exists mid :: AllocStep(s.core.heap, 8, 4, Ok(h), mid) && AllocStep(mid, |data|, 4, Ok(block), s'.core.heap)) &&
      s'.core.mem == G.Store(if data == [] then s.core.mem else G.Store(s.core.mem, block, data), h,
                             ToBe(block, 4) + ToBe(|data|, 4))
    case Exhausted =>
      s'.core.mem == s.core.mem && s'.cw == s.cw && PairFails(s.core.heap, 8, 4, |data|, 4, s'.core.heap)
    case _ => false
  }

  ghost predicate CwFreeStep(s: Session, h: int, r: Result, s': Session) {
    match r
    case Ok(_) =>
      h in s.cw && s'.cw == s.cw - {h} && s'.core.mem == s.core.mem && s'.core.table == s.core.table &&
      exists mid :: FreeStep(s.core.heap, s.cw[h].block, Ok(s.cw[h].block), mid) &&
        FreeStep(mid, h, Ok(h), s'.core.heap)
    case Invalid => h !in s.cw && s' == s
    case _ => false
  }

  // ----- Memory Manager calls leave plug-in handles alone

  /** The owners of a changed table are old ones or freshly allocated. */
  ghost predicate OwnersOldOrFresh(s: State, s': State) {
    forall b :: InTable(s'.table, b) ==> InTable(s.table, b) || b !in s.heap.live
  }

  lemma {:induction false} CoreChange(s: Session, core': State, own: set<int>)
    requires GoodSession(s) && GoodState(core') && Undisturbed(s.core, core', own)
    requires OwnersOldOrFresh(s.core, core')
    requires forall b :: b in own ==> !InCw(s.cw, b)
    ensures GoodSession(s.(core := core'))
    ensures forall h :: h in s.cw ==>
              CwBytes(s.(core := core'), h) == CwBytes(s, h) &&
              (RecordHolds(s.(core := core'), h) <==> RecordHolds(s, h))
  {
    var s' := s.(core := core');
    hide BlockBytes;
    forall h | h in s.cw ensures GoodRecord(s', h) {
      assert GoodRecord(s, h) && InCw(s.cw, h) && InCw(s.cw, s.cw[h].block);
    }
    forall b ensures !(InTable(core'.table, b) && InCw(s.cw, b)) {
      if InCw(s.cw, b) {
        CwIsLive(s, b);
      }
    }
    forall h | h in s.cw
      ensures CwBytes(s', h) == CwBytes(s, h) && (RecordHolds(s', h) <==> RecordHolds(s, h))
    {
      assert GoodRecord(s, h) && GoodRecord(s', h) && InCw(s.cw, h) && InCw(s.cw, s.cw[h].block);
      PrefixBytes(s.core, s.cw[h].block, s.cw[h].size);
      PrefixBytes(core', s.cw[h].block, s.cw[h].size);
    }
  }

  lemma {:induction false} CwIsLive(s: Session, b: int)
    requires GoodSession(s) && InCw(s.cw, b)
    ensures b in s.core.heap.live
  {
    if b in s.cw {
      assert GoodRecord(s, b);
    } else {
      var h :| h in s.cw && s.cw[h].block == b;
      assert GoodRecord(s, h);
    }
  }

  lemma {:induction false} TableIsLive(s: State, b: int)
    requires GoodState(s) && InTable(s.table, b)
    ensures b in s.heap.live
  {
    if b in s.table {
      assert GoodHandle(s, b);
    } else {
      var m :| m in s.table && s.table[m].block == b;
      assert GoodHandle(s, m);
    }
  }

  /** What a table entry owned before the call it owned or was newly given. */
  lemma {:induction false} OwnersAfter(s: State, call: Call, r: Result, s': State)
    requires GoodState(s) && GoodState(s') && Step(s, call, r, s')
    ensures OwnersOldOrFresh(s, s')
  {
    forall b | InTable(s'.table, b) ensures InTable(s.table, b) || b !in s.heap.live {
      var m := if b in s'.table then b else var k :| k in s'.table && s'.table[k].block == b; k;
      if m in s.table && !(call.Resize? && r.Ok? && call.m == m) && !(call.New? && r.Ok? && r.address == m) {
        assert s'.table[m].block == s.table[m].block;
      } else if call.New? {
        var block := s'.table[m].block;
        var mid :| AllocStep(s.heap, call.size, 16, Ok(block), mid) && AllocStep(mid, 4, 4, Ok(m), s'.heap);
        assert block !in s.heap.live && m !in s.heap.live;
      } else {
        assert ReallocStep(s.heap, s.table[m].block, call.size, !Locked(s.table[m]), r, s'.heap);
      }
    }
  }

  /** No Memory Manager call touches a plug-in handle: its entry, its bytes and its record stay. */
  lemma {:induction false} MemoryCallKeeps(s: Session, call: Call, r: Result, core': State)
    requires GoodSession(s) && Step(s.core, call, r, core') && !call.ProgramStore?
    ensures GoodState(core') && GoodSession(s.(core := core'))
    ensures forall h :: h in s.cw ==>
              CwBytes(s.(core := core'), h) == CwBytes(s, h) &&
              (RecordHolds(s.(core := core'), h) <==> RecordHolds(s, h))
  {
    StepKeeps(s.core, call, r, core');
    OwnersAfter(s.core, call, r, core');
    var own := OwnBlocks(s.core, call);
    CallUndisturbed(s.core, call, r, core');
    forall b | b in own ensures !InCw(s.cw, b) {
      assert InTable(s.core.table, b);
    }
    hide Undisturbed, OwnersOldOrFresh, GoodState, InCw;
    CoreChange(s, core', own);
  }

  ghost function OwnBlocks(s: State, call: Call): (own: set<int>)
    ensures forall b :: b in own ==> InTable(s.table, b)
  {
    if (call.Dispose? || call.Resize?) && call.m in s.table then {call.m, s.table[call.m].block} else {}
  }

  lemma {:induction false} CallUndisturbed(s: State, call: Call, r: Result, s': State)
    requires GoodState(s) && GoodState(s') && Step(s, call, r, s') && !call.ProgramStore?
    ensures Undisturbed(s, s', OwnBlocks(s, call))
  {
    if call.New? {
      if r.Ok? {
        NewSizeOk(s, call.size, call.clear, r, s');
        NewKeeps(s, call.size, call.clear, r.address, s');
      } else {
        NewFails(s, call.size, call.clear, r, s');
      }
    } else if call.Dispose? {
      if r.Ok? {
        DisposeKeeps(s, call.m, s');
      } else {
        UndisturbedSame(s, s.table);
      }
    } else if call.Resize? {
      if r.Ok? {
        ResizeKeeps(s, call.m, call.size, r.address, s');
      } else {
        UndisturbedSame(s, s.table);
        UndisturbedWeaken(s, s', {}, OwnBlocks(s, call));
      }
    } else {
      LockKeeps(s, call, r, s');
    }
  }

  lemma {:induction false} ProgramStoreKeeps(s: Session, call: Call, r: Result, core': State)
    requires GoodSession(s) && Step(s.core, call, r, core') && call.ProgramStore?
    ensures GoodState(core') && GoodSession(s.(core := core'))
  {
    StepKeeps(s.core, call, r, core');
    forall h | h in s.cw ensures GoodRecord(s.(core := core'), h) {
      assert GoodRecord(s, h);
    }
  }

  // ----- plug-in handle calls leave Memory Manager handles alone

  lemma {:induction false} RecordsInGrownHeap(s: Session, core': State)
    requires GoodSession(s) && GoodState(core') && core'.table == s.core.table
    requires forall b :: b in s.core.heap.live ==> b in core'.heap.live && core'.heap.live[b] == s.core.heap.live[b]
    ensures GoodSession(s.(core := core'))
  {
    forall h | h in s.cw ensures GoodRecord(s.(core := core'), h) {
      assert GoodRecord(s, h);
    }
  }

  lemma {:induction false} AddRecord(s: Session, h: int, block: int, size: int, scoped: bool)
    requires GoodSession(s) && size >= 0
    requires h in s.core.heap.live && s.core.heap.live[h] == 8
    requires block in s.core.heap.live && s.core.heap.live[block] == Amount(size) && h != block
    requires !InCw(s.cw, h) && !InCw(s.cw, block) && !InTable(s.core.table, h) && !InTable(s.core.table, block)
    ensures GoodSession(s.(cw := s.cw[h := CwHandle(block, size, scoped)]))
  {
    var s' := s.(cw := s.cw[h := CwHandle(block, size, scoped)]);
    forall k | k in s'.cw
      ensures GoodRecord(s', k) && (k != h ==> s'.cw[k].block !in {h, block} && k != block)
    {
      if k != h {
        assert GoodRecord(s, k) && InCw(s.cw, k) && InCw(s.cw, s.cw[k].block);
      }
    }
    forall b | InCw(s'.cw, b) ensures !InTable(s'.core.table, b) {
      assert InCw(s.cw, b) || b == h || b == block;
    }
  }

  lemma {:induction false} CwAllocKeeps(s: Session, data: seq<Byte>, scoped: bool, h: int, s': Session)
    requires GoodSession(s) && CwAllocStep(s, data, scoped, Ok(h), s')
    ensures GoodSession(s') && Undisturbed(s.core, s'.core, {}) && h !in s.core.heap.live
    ensures RecordHolds(s', h) && CwBytes(s', h) == data
  {
    var block, core := s'.cw[h].block, s.core;
    var mid :| AllocStep(core.heap, 8, 4, Ok(h), mid) && AllocStep(mid, |data|, 4, Ok(block), s'.core.heap);
    assert InCw(s.cw, h) ==> h in core.heap.live by { if InCw(s.cw, h) { CwIsLive(s, h); } }
    assert InCw(s.cw, block) ==> block in core.heap.live by { if InCw(s.cw, block) { CwIsLive(s, block); } }
    assert InTable(core.table, h) ==> h in core.heap.live by { if InTable(core.table, h) { TableIsLive(core, h); } }
    assert InTable(core.table, block) ==> block in core.heap.live by {
      if InTable(core.table, block) { TableIsLive(core, block); }
    }
    HeapGrows(core, s'.core.heap);
    var c0 := core.(heap := s'.core.heap);
    hide AllocStep, Good, BlockBytes;
    RecordsInGrownHeap(s, c0);
    var c1 := c0.(mem := if data == [] then core.mem else G.Store(core.mem, block, data));
    StoreData(c0, block, data);
    UndisturbedFresh(core, c0, c1, block);
    var record := ToBe(block, 4) + ToBe(|data|, 4);
    StoreInBlock(c1, h, record);
    assert s'.core == c1.(mem := G.Store(c1.mem, h, record));
    UndisturbedFresh(core, c1, s'.core, h);
    RecordsInGrownHeap(s, s'.core);
    AddRecord(s.(core := s'.core), h, block, |data|, scoped);
    PrefixBytes(c1, block, |data|);
    PrefixBytes(s'.core, block, |data|);
  }

  lemma {:induction false} StoreData(c: State, block: int, data: seq<Byte>)
    requires GoodState(c) && block in c.heap.live && |data| <= c.heap.live[block]
    ensures var c1 := c.(mem := if data == [] then c.mem else G.Store(c.mem, block, data));
            GoodState(c1) && Undisturbed(c, c1, {block}) && BlockBytes(c1, block, |data|) == data
  {
    StoreInBlock(c, block, data);
    if data == [] {
      assert c.(mem := c.mem) == c;
      UndisturbedSame(c, c.table);
      UndisturbedWeaken(c, c, {}, {block});
    }
  }

  /** A failed creation disturbs nothing. The heap is as before if and only if the record itself had no
      room; otherwise exactly the record is lost. */
  lemma {:induction false} CwAllocFails(s: Session, data: seq<Byte>, scoped: bool, r: Result, s': Session)
    requires GoodSession(s) && CwAllocStep(s, data, scoped, r, s') && !r.Ok?
    ensures GoodSession(s') && s'.cw == s.cw && Undisturbed(s.core, s'.core, {})
    ensures s'.core.heap == s.core.heap <==> NoFit(s.core.heap.free, 8, 4)
    ensures s'.core.heap != s.core.heap <==> Leaks(s.core.heap, 8, 4, s'.core.heap)
  {
    PairLeaks(s.core.heap, 8, 4, |data|, 4, s'.core.heap);
    hide Leaks, NoFit;
    if !AllocStep(s.core.heap, 8, 4, Exhausted, s'.core.heap) {
      var h, mid :| AllocStep(s.core.heap, 8, 4, Ok(h), mid) && AllocStep(mid, |data|, 4, Exhausted, s'.core.heap);
    }
    HeapGrows(s.core, s'.core.heap);
    assert s'.core == s.core.(heap := s'.core.heap);
    RecordsInGrownHeap(s, s'.core);
    assert s' == s.(core := s'.core);
  }

  /** An instance: the record takes the last eight bytes, and there is no room for the data. */
  lemma {:induction false} CwAllocCanLeak(data: seq<Byte>) returns (s: Session, s': Session)
    ensures GoodSession(s) && CwAllocStep(s, data, true, Exhausted, s') && s.cw == s'.cw == map[]
    ensures s.core.heap.live == map[] && s'.core.heap.live == map[0 := 8]
  {
    SmallHeaps(8);
    SmallHeapLeaks(8, 8, 4, |data|, 4);
    var mem: G.Memory := map x | 0 <= x < 8 && G.Within(x, 0, 8) :: 0;
    s := Session(State(WholeHeap(8), mem, map[]), map[]);
    s' := Session(State(FullHeap(8), mem, map[]), map[]);
  }

  /** Freeing a plug-in handle frees exactly its record and its block. */
  lemma {:induction false} CwFreeKeeps(s: Session, h: int, s': Session)
    requires GoodSession(s) && h in s.cw && CwFreeStep(s, h, Ok(h), s')
    ensures GoodSession(s') && Undisturbed(s.core, s'.core, {h, s.cw[h].block})
    ensures s'.core.heap.live == s.core.heap.live - {h, s.cw[h].block}
  {
    var block := s.cw[h].block;
    assert GoodRecord(s, h) && InCw(s.cw, h) && InCw(s.cw, block);
    var mid :| FreeStep(s.core.heap, block, Ok(block), mid) && FreeStep(mid, h, Ok(h), s'.core.heap);
    assert s'.core.heap.live == s.core.heap.live - {block} - {h} == s.core.heap.live - {h, block};
    forall m | m in s'.core.table ensures GoodHandle(s'.core, m) {
      assert GoodHandle(s.core, m) && InTable(s.core.table, m) && InTable(s.core.table, s.core.table[m].block);
    }
    forall k | k in s'.cw ensures GoodRecord(s', k) {
      assert GoodRecord(s, k);
    }
    forall b | InCw(s'.cw, b) ensures InCw(s.cw, b) {
      assert b in s'.cw ==> b in s.cw;
    }
    forall b | b in s.core.heap.live && b !in {h, block}
      ensures b in s'.core.heap.live && BlockBytes(s'.core, b, s.core.heap.live[b]) ==
              BlockBytes(s.core, b, s.core.heap.live[b])
    {
      SameBlockBytes(s.core, s'.core, b, s.core.heap.live[b]);
    }
  }

  // ----- each call has one outcome

  lemma {:induction false} CwAllocDetermined(s: Session, data: seq<Byte>, scoped: bool, r1: Result, s1: Session,
                                             r2: Result, s2: Session)
    requires CwAllocStep(s, data, scoped, r1, s1) && CwAllocStep(s, data, scoped, r2, s2) && r1.Ok?
    ensures r2 == r1 && s2 == s1
  {
    hide AllocStep;
    var h, block, heap := r1.address, s1.cw[r1.address].block, s.core.heap;
    var mid :| AllocStep(heap, 8, 4, Ok(h), mid) && AllocStep(mid, |data|, 4, Ok(block), s1.core.heap);
    PairDetermined(heap, 8, 4, |data|, 4, h, mid, block, s1.core.heap, s2.core.heap);
    if r2.Ok? {
      var k, block2 := r2.address, s2.cw[r2.address].block;
      var mid2 :| AllocStep(heap, 8, 4, Ok(k), mid2) && AllocStep(mid2, |data|, 4, Ok(block2), s2.core.heap);
      AllocDetermined(heap, 8, 4, Ok(h), mid, Ok(k), mid2);
      AllocDetermined(mid, |data|, 4, Ok(block), s1.core.heap, Ok(block2), s2.core.heap);
    }
  }

  lemma {:induction false} CwFreeDetermined(s: Session, h: int, r1: Result, s1: Session, r2: Result, s2: Session)
    requires CwFreeStep(s, h, r1, s1) && CwFreeStep(s, h, r2, s2) && r1.Ok?
    ensures r2.Ok? && s2 == s1
  {
    hide FreeStep;
    var block, heap := s.cw[h].block, s.core.heap;
    var mid1 :| FreeStep(heap, block, Ok(block), mid1) && FreeStep(mid1, h, Ok(h), s1.core.heap);
    var mid2 :| FreeStep(heap, block, Ok(block), mid2) && FreeStep(mid2, h, Ok(h), s2.core.heap);
    FreeDetermined(heap, block, Ok(block), mid1, Ok(block), mid2);
    FreeDetermined(mid1, h, Ok(h), s1.core.heap, Ok(h), s2.core.heap);
  }

  /** The pointer of a Memory Manager block is never the address of a plug-in record, so looking a
      pointer up as a record first cannot mistake one for the other. */
  lemma {:induction false} BlockIsNoRecord(s: Session, m: int)
    requires GoodSession(s) && m in s.core.table
    ensures s.core.table[m].block !in s.cw && m !in s.cw
  {
    assert InTable(s.core.table, m) && InTable(s.core.table, s.core.table[m].block);
    assert s.core.table[m].block in s.cw ==> InCw(s.cw, s.core.table[m].block);
    assert m in s.cw ==> InCw(s.cw, m);
  }
}
