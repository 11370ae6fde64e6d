/** Guest memory (src/cwhost/guest.py): mapped pages of bytes. */
module Guest {
  import opened Bytes

  /** The mapped addresses and their bytes. */
  type Memory = map<int, Byte>

  const PAGE := 0x1000

  ghost predicate Mapped(mem: Memory, a: int, n: int) {
    forall x :: a <= x < a + n ==> x in mem
  }

  ghost function Load(mem: Memory, a: int, n: nat): (s: seq<Byte>)
    requires Mapped(mem, a, n)
    ensures |s| == n
    ensures forall i :: 0 <= i < n ==> s[i] == mem[a + i]
  {
    seq(n, i requires 0 <= i < n => mem[a + i])
  }

  ghost function Store(mem: Memory, a: int, data: seq<Byte>): (m: Memory)
    ensures m.Keys == mem.Keys
    ensures forall x :: x in mem ==> m[x] == if a <= x < a + |data| then data[x - a] else mem[x]
  {
    map x | x in mem :: if a <= x < a + |data| then data[x - a] else mem[x]
  }

  /** The page range `map(addr, size)` covers. */
  function PageStart(a: int): int {
    a / PAGE * PAGE
  }

  function PageEnd(a: int): int {
    (a + PAGE - 1) / PAGE * PAGE
  }

  predicate Within(x: int, lo: int, hi: int) {
    lo <= x < hi
  }

  ghost function Pages(addr: int, size: int): (s: set<int>)
    ensures forall x :: x in s <==> PageStart(addr) <= x < PageEnd(addr + size)
  {
    var lo, hi := PageStart(addr), PageEnd(addr + size);
    set x: int | lo <= x < hi && Within(x, lo, hi)
  }

  /** Memory is mapped in pages of 4096 bytes: every page the range touches, whole. */
  lemma {:induction false} PagesAreWhole(addr: int, size: int, x: int)
    requires size > 0
    ensures x in Pages(addr, size) <==> addr / 4096 <= x / 4096 <= (addr + size - 1) / 4096
  {
  }

  lemma {:induction false} PagesCover(addr: int, size: int)
    ensures PageStart(addr) <= addr && addr + size <= PageEnd(addr + size)
  {
  }

  lemma {:induction false} LoadStored(mem: Memory, a: int, data: seq<Byte>)
    requires Mapped(mem, a, |data|)
    ensures Mapped(Store(mem, a, data), a, |data|)
    ensures Load(Store(mem, a, data), a, |data|) == data
  {
  }

  lemma {:induction false} LoadElsewhere(mem: Memory, a: int, data: seq<Byte>, b: int, n: nat)
    requires Mapped(mem, b, n) && (a + |data| <= b || b + n <= a)
    ensures Mapped(Store(mem, a, data), b, n)
    ensures Load(Store(mem, a, data), b, n) == Load(mem, b, n)
  {
  }

  lemma {:induction false} LoadPart(mem: Memory, a: int, n: nat, p: nat, m: nat)
    requires Mapped(mem, a, n) && p + m <= n
    ensures Mapped(mem, a + p, m)
    ensures Load(mem, a + p, m) == Load(mem, a, n)[p..p + m]
  {
    forall x | a + p <= x < a + p + m ensures x in mem {
      assert a <= x < a + n;
    }
    var whole, part := Load(mem, a, n), Load(mem, a + p, m);
    forall i | 0 <= i < m ensures part[i] == whole[p..p + m][i] {
      assert whole[p + i] == mem[a + (p + i)];
    }
  }

  class Guest {
    var mem: Memory

    constructor ()
      ensures mem == map[]
    {
      mem := map[];
    }

    /** `map`: whole zeroed pages; the emulator refuses an overlap or an address above 32 bits. */
    method Map(addr: int, size: int) returns (ok: bool)
      modifies this
      ensures ok <==> size > 0 && 0 <= addr && PageEnd(addr + size) <= TWO32 && old(mem).Keys !! Pages(addr, size)
      ensures !ok ==> mem == old(mem)
      ensures ok ==> mem.Keys == old(mem).Keys + Pages(addr, size)
      ensures ok ==> forall x :: x in mem ==> mem[x] == if x in old(mem) then old(mem)[x] else 0
    {
      var start, end := PageStart(addr), PageEnd(addr + size);
      var taken := exists x :: x in mem && start <= x < end;
      if size <= 0 || addr < 0 || end > TWO32 || taken {
        assert taken ==> !(mem.Keys !! Pages(addr, size)) by {
          if taken {
            var x :| x in mem && start <= x < end;
            assert x in mem.Keys && x in Pages(addr, size);
          }
        }
        return false;
      }
      mem := mem + map x: int | start <= x < end && Within(x, start, end) :: 0;
      return true;
    }

    /** `write`, at the address modulo 2^32. */
    method Write(addr: int, data: seq<Byte>) returns (ok: bool)
      modifies this
      ensures ok <==> data == [] || Mapped(old(mem), addr % TWO32, |data|)
      ensures mem == if ok then Store(old(mem), addr % TWO32, data) else old(mem)
    {
      var a := addr % TWO32;
      ok := data == [] || forall x :: a <= x < a + |data| ==> x in mem;
      if ok {
        ghost var m := Store(mem, a, data);
        mem := map x | x in mem :: if a <= x < a + |data| then data[x - a] else mem[x];
        assert mem == m;
      }
    }

    /** `read`, at the address modulo 2^32. */
    method Read(addr: int, n: nat) returns (ok: bool, data: seq<Byte>)
      ensures ok <==> n == 0 || Mapped(mem, addr % TWO32, n)
      ensures ok && n > 0 ==> data == Load(mem, addr % TWO32, n)
      ensures ok && n == 0 ==> data == []
    {
      var a := addr % TWO32;
      ok := n == 0 || forall x :: a <= x < a + n ==> x in mem;
      data := [];
      if ok && n > 0 {
        var m := mem;
        data := seq(n, i requires 0 <= i < n && a + i in m => m[a + i]);
      }
    }
  }
}
