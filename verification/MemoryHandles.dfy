/** The handle manager as it runs (src/cwhost/memory.py, class `Handles`). */
module MemoryHandles {
  import opened Bytes
  import opened HeapModel
  import opened FirstFitHeap
  import opened HandleModel
  import opened HandleRuns
  import G = Guest

  class Handles {
    const heap: GuestHeap
    var table: map<int, Handle>

    ghost function Model(): State
      reads this, heap, heap.guest
    {
      State(heap.Model(), heap.guest.mem, table)
    }

    ghost predicate Valid()
      reads this, heap, heap.guest
    {
      GoodState(Model())
    }

    constructor (heap: GuestHeap)
      requires heap.Valid()
      ensures Valid() && this.heap == heap && table == map[]
    {
      this.heap := heap;
      table := map[];
    }

    /** `w32` into a live block of at least four bytes. */
    method StoreWord(block: int, value: int)
      requires heap.Valid() && block in heap.live && heap.live[block] >= 4 && 0 <= value < TWO32
      modifies heap.guest
      ensures heap.Valid() && heap.guest.mem == G.Store(old(heap.guest.mem), block, ToBe(value, 4))
    {
      BlockInside(heap.Model(), block);
      assert block % TWO32 == block && value % TWO32 == value;
      var word := ToBe(value % TWO32, 4);
      var ok := heap.guest.Write(block, word);
    }

    method New(size: int, clear: bool) returns (r: Result)
      requires Valid()
      modifies this`table, heap`free, heap`live, heap.guest
      ensures Valid() && Step(old(Model()), HandleRuns.New(size, clear), r, Model())
    {
      hide LowestFit, NoFit, Tiled;
      ghost var s := Model();
      if size < 0 {
        return Invalid;
      }
      var b := heap.Alloc(size, 16);
      if !b.Ok? {
        NewFails(s, size, clear, b, Model());
        return b;
      }
      ghost var mid := heap.Model();
      var m := heap.Alloc(4, 4);
      if !m.Ok? {
        assert AllocStep(s.heap, size, 16, Ok(b.address), mid) && AllocStep(mid, 4, 4, Exhausted, heap.Model());
        NewFails(s, size, clear, Exhausted, Model());
        return m;
      }
      BlockInside(heap.Model(), b.address);
      table := table[m.address := Handle(b.address, size, 0)];
      StoreWord(m.address, b.address);
      if clear {
        Clear(b.address, Amount(size));
      }
      assert AllocStep(s.heap, size, 16, Ok(b.address), mid) && AllocStep(mid, 4, 4, Ok(m.address), heap.Model());
      NewKeeps(s, size, clear, m.address, Model());
      return m;
    }

    method Clear(block: int, n: int)
      requires heap.Valid() && block in heap.live && heap.live[block] == n
      modifies heap.guest
      ensures heap.Valid() && heap.guest.mem == G.Store(old(heap.guest.mem), block, Zeros(n))
    {
      BlockInside(heap.Model(), block);
      assert block % TWO32 == block;
      var ok := heap.guest.Write(block, Zeros(n));
    }

    method Dispose(m: int) returns (r: Result)
      requires Valid()
      modifies this`table, heap`free, heap`live
      ensures Valid() && Step(old(Model()), HandleRuns.Dispose(m), r, Model())
    {
      hide Tiled;
      ghost var s := Model();
      if m !in table {
        return Invalid;
      }
      assert GoodHandle(s, m);
      var handle := table[m];
      table := table - {m};
      var f := heap.Free(handle.block);
      ghost var mid := heap.Model();
      var g := heap.Free(m);
      assert FreeStep(s.heap, handle.block, Ok(handle.block), mid) && FreeStep(mid, m, Ok(m), heap.Model());
      DisposeKeeps(s, m, Model());
      return Ok(m);
    }

    method Resize(m: int, size: int) returns (r: Result)
      requires Valid()
      modifies this`table, heap`free, heap`live, heap.guest
      ensures Valid() && Step(old(Model()), HandleRuns.Resize(m, size), r, Model())
    {
      hide LowestFit, NoFit, Tiled, StaysPut;
      ghost var s := Model();
      if size < 0 || m !in table {
        return Invalid;
      }
      assert GoodHandle(s, m);
      var handle := table[m];
      r := heap.Realloc(handle.block, size, !Locked(handle));
      if !r.Ok? {
        assert Model() == s;
        return;
      }
      ResizeTable(s, m, size, r.address, heap.Model());
      BlockInside(heap.Model(), r.address);
      table := table[m := Handle(r.address, size, handle.bits)];
      StoreWord(m, r.address);
      ResizeKeeps(s, m, size, r.address, Model());
    }

    method Size(m: int) returns (r: Result)
      ensures r == if m in table then Ok(table[m].requested) else Invalid
      ensures Valid() && m in table ==> r == Ok(|Contents(Model(), m)|)
    {
      return if m in table then Ok(table[m].requested) else Invalid;
    }

    method Lock(m: int) returns (r: Result)
      requires Valid()
      modifies this`table
      ensures Valid() && Step(old(Model()), HandleRuns.Lock(m), r, Model())
      ensures r.Ok? ==> m in table && table[m].bits / 0x80 == 1 && table[m].bits % 0x80 == old(table)[m].bits % 0x80
    {
      assert m in table ==> GoodHandle(Model(), m);
      r := SetBits(m, WithLock(if m in table then table[m].bits else 0), HandleRuns.Lock(m));
    }

    method Unlock(m: int) returns (r: Result)
      requires Valid()
      modifies this`table
      ensures Valid() && Step(old(Model()), HandleRuns.Unlock(m), r, Model())
      ensures r.Ok? ==> m in table && table[m].bits / 0x80 == 0 && table[m].bits % 0x80 == old(table)[m].bits % 0x80
    {
      assert m in table ==> GoodHandle(Model(), m);
      r := SetBits(m, WithoutLock(if m in table then table[m].bits else 0), HandleRuns.Unlock(m));
    }

    method SetState(m: int, bits: int) returns (r: Result)
      requires Valid()
      modifies this`table
      ensures Valid() && Step(old(Model()), HandleRuns.SetState(m, bits), r, Model())
    {
      if bits < 0 || bits > 0xFF {
        return Invalid;
      }
      r := SetBits(m, bits, HandleRuns.SetState(m, bits));
    }

    method SetBits(m: int, bits: int, ghost call: Call) returns (r: Result)
      requires Valid()
      requires call in {HandleRuns.Lock(m), HandleRuns.Unlock(m), HandleRuns.SetState(m, bits)}
      requires call.Lock? ==> bits == WithLock(Bits(Model(), m))
      requires call.Unlock? ==> bits == WithoutLock(Bits(Model(), m))
      requires call.SetState? ==> 0 <= bits <= 0xFF
      modifies this`table
      ensures Valid() && Step(old(Model()), call, r, Model())
    {
      ghost var s := Model();
      if m !in table {
        return Invalid;
      }
      table := table[m := table[m].(bits := bits)];
      r := Ok(m);
      assert Model() == s.(table := s.table[m := s.table[m].(bits := bits)]);
      LockKeeps(s, call, r, Model());
    }

    /** `block`: the block pointer, refused if the program has changed the master word. */
    method Block(m: int) returns (r: Result)
      requires Valid()
      ensures m !in table ==> r == Invalid
      ensures m in table ==> r == if MasterHolds(Model(), m) then Ok(table[m].block) else Invalid
    {
      if m !in table {
        return Invalid;
      }
      assert GoodHandle(Model(), m);
      BlockInside(heap.Model(), m);
      BlockInside(heap.Model(), table[m].block);
      assert m % TWO32 == m;
      var ok, word := heap.guest.Read(m, 4);
      var pointer := Be(word);
      Pow256Values();
      BeToBe(table[m].block, 4);
      ToBeBe(word);
      if pointer != table[m].block {
        return Invalid;
      }
      return Ok(pointer);
    }

    /** `block_size`: the size of the one handle whose block is at the pointer. */
    method BlockSize(pointer: int) returns (r: Result)
      requires Valid()
      ensures r.Ok? ==> exists m :: m in table && table[m].block == pointer && table[m].requested == r.address
      ensures r.Ok? ==> forall m :: m in table && table[m].block == pointer ==> table[m].requested == r.address
      ensures !r.Ok? ==> r == Invalid && forall m :: m in table ==> table[m].block != pointer
    {
      var left := table;
      while |left| > 0
        invariant forall m :: m in left ==> m in table && left[m] == table[m]
        invariant forall m :: m in table && m !in left ==> table[m].block != pointer
        decreases |left|
      {
        var m := SomeKey(left);
        if left[m].block == pointer {
          return Ok(left[m].requested);
        }
        left := left - {m};
      }
      return Invalid;
    }
  }

  /** The next entry of a dictionary; the order does not matter here. */
  method SomeKey<K(!new), V>(m: map<K, V>) returns (k: K)
    requires |m| > 0
    ensures k in m
  {
    var keys := m.Keys;
    k :| k in keys;
  }
}
