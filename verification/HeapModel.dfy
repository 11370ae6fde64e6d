/** What a guest heap is (src/cwhost/memory.py): free ranges and live blocks that tile an
    address range. The free list is a function of the live blocks, so each operation is
    specified by what it does to those. */
module HeapModel {
  import opened Bytes

  datatype Range = Range(start: int, size: int) {
    predicate Covers(x: int) { start <= x < start + size }
    function End(): int { start + size }
  }

  /** `live` maps the address of each allocation to its size. */
  datatype Heap = Heap(base: int, size: int, free: seq<Range>, live: map<int, int>)

  ghost predicate FreeAt(free: seq<Range>, x: int) {
    exists i :: 0 <= i < |free| && free[i].Covers(x)
  }

  ghost predicate LiveAt(live: map<int, int>, x: int) {
    exists b :: b in live && b <= x < b + live[b]
  }

  /** Sorted, positive, and with a gap between any two ranges. */
  ghost predicate Canonical(free: seq<Range>) {
    (forall i :: 0 <= i < |free| ==> free[i].size > 0) &&
    (forall i, j :: 0 <= i < j < |free| ==> free[i].End() < free[j].start)
  }

  /** Live blocks are positive and disjoint, the free list is canonical, and every address of
      [lo, hi), and no other, is in exactly one of them. */
  ghost predicate Tiled(free: seq<Range>, live: map<int, int>, lo: int, hi: int) {
    Canonical(free) &&
    (forall b :: b in live ==> live[b] > 0) &&
    (forall a, b :: a in live && b in live && a < b ==> a + live[a] <= b) &&
    (forall x :: FreeAt(free, x) || LiveAt(live, x) <==> lo <= x < hi) &&
    (forall x :: !(FreeAt(free, x) && LiveAt(live, x)))
  }

  ghost predicate Good(h: Heap) {
    0 <= h.base && h.size > 0 && h.base + h.size <= TWO32 && Tiled(h.free, h.live, h.base, h.base + h.size)
  }

  /** `n` consecutive free bytes. */
  ghost predicate FreeRun(free: seq<Range>, a: int, n: int) {
    forall x :: a <= x < a + n ==> FreeAt(free, x)
  }

  function Amount(size: int): int {
    if size < 1 then 1 else size
  }

  // ----- the operations, by what they do to the live blocks

  datatype Result = Ok(address: int) | Invalid | Exhausted | Unmovable

  /** a is where an allocation goes: the lowest multiple of `align` with n free bytes. */
  ghost predicate LowestFit(free: seq<Range>, n: int, align: int, a: int)
    requires align > 0
  {
    a % align == 0 && FreeRun(free, a, n) && forall b :: b % align == 0 && FreeRun(free, b, n) ==> a <= b
  }

  ghost predicate NoFit(free: seq<Range>, n: int, align: int)
    requires align > 0
  {
    forall b :: b % align == 0 ==> !FreeRun(free, b, n)
  }

  ghost predicate AllocStep(h: Heap, size: int, align: int, r: Result, h': Heap) {
    h'.base == h.base && h'.size == h.size && Good(h') &&
    match r
    case Ok(a) =>
      size >= 0 && align > 0 && LowestFit(h.free, Amount(size), align, a) &&
      a !in h.live && h'.live == h.live[a := Amount(size)]
    case Invalid => (size < 0 || align <= 0) && h' == h
    case Exhausted => size >= 0 && align > 0 && NoFit(h.free, Amount(size), align) && h' == h
    case Unmovable => false
  }

  ghost predicate FreeStep(h: Heap, address: int, r: Result, h': Heap) {
    h'.base == h.base && h'.size == h.size && Good(h') &&
    match r
    case Ok(a) => a == address && address in h.live && h'.live == h.live - {address}
    case Invalid => address !in h.live && h' == h
    case _ => false
  }

  /** A block stays where it is when it shrinks or when the bytes after it are free; otherwise it
      moves to where a fresh 16-aligned allocation would go, if it may. */
  ghost predicate StaysPut(h: Heap, address: int, n: int)
    requires address in h.live
  {
    FreeRun(h.free, address + h.live[address], n - h.live[address])
  }

  ghost predicate ReallocStep(h: Heap, address: int, size: int, allowMove: bool, r: Result, h': Heap) {
    h'.base == h.base && h'.size == h.size && Good(h') &&
    match r
    case Ok(a) =>
      size >= 0 && address in h.live &&
      if StaysPut(h, address, Amount(size)) then a == address && h'.live == h.live[address := Amount(size)]
      else
        allowMove && LowestFit(h.free, Amount(size), 16, a) && a !in h.live &&
        h'.live == (h.live - {address})[a := Amount(size)]
    case Invalid => (size < 0 || address !in h.live) && h' == h
    case Unmovable => size >= 0 && address in h.live && !allowMove && !StaysPut(h, address, Amount(size)) && h' == h
    case Exhausted =>
      size >= 0 && address in h.live && allowMove && !StaysPut(h, address, Amount(size)) &&
      NoFit(h.free, Amount(size), 16) && h' == h
  }

  // ----- two allocations, of which the second may fail

  /** One of two allocations in a row fails. */
  ghost predicate PairFails(h: Heap, size: int, align: int, size2: int, align2: int, h': Heap) {
    AllocStep(h, size, align, Exhausted, h') ||
    exists b, mid :: AllocStep(h, size, align, Ok(b), mid) && AllocStep(mid, size2, align2, Exhausted, h')
  }

  /** The first block stays allocated after the second allocation fails. */
  ghost predicate Leaks(h: Heap, size: int, align: int, h': Heap)
    requires align > 0
  {
    exists b :: LowestFit(h.free, Amount(size), align, b) && b !in h.live && h'.live == h.live[b := Amount(size)]
  }

  /** A failed pair leaves the heap as it was if and only if the first allocation already had no room;
      otherwise just the first block is lost. */
  lemma {:induction false} PairLeaks(h: Heap, size: int, align: int, size2: int, align2: int, h': Heap)
    requires align > 0 && PairFails(h, size, align, size2, align2, h')
    ensures h' == h <==> NoFit(h.free, Amount(size), align)
    ensures h' != h <==> Leaks(h, size, align, h')
  {
    hide FreeRun, Tiled;
    if !AllocStep(h, size, align, Exhausted, h') {
      var b, mid :| AllocStep(h, size, align, Ok(b), mid) && AllocStep(mid, size2, align2, Exhausted, h');
      assert LowestFit(h.free, Amount(size), align, b) && b in h'.live;
    }
  }

  function WholeHeap(n: nat): Heap {
    Heap(0, n, [Range(0, n)], map[])
  }

  function FullHeap(n: nat): Heap {
    Heap(0, n, [], map[0 := n])
  }

  lemma {:induction false} SmallHeaps(n: nat)
    requires 0 < n <= TWO32
    ensures Good(WholeHeap(n)) && Good(FullHeap(n))
  {
    var free := WholeHeap(n).free;
    forall x ensures FreeAt(free, x) <==> 0 <= x < n {
      assert free[0].Covers(x) <==> 0 <= x < n;
    }
    forall x ensures LiveAt(FullHeap(n).live, x) <==> 0 <= x < n {
      assert 0 in FullHeap(n).live;
    }
  }

  /** An instance: n free bytes, all of them taken, and no room for anything else. */
  lemma {:induction false} SmallHeapLeaks(n: nat, size: int, align: int, size2: int, align2: int)
    requires 0 < n <= TWO32 && size >= 0 && Amount(size) == n && size2 >= 0 && align > 0 && align2 > 0
    ensures PairFails(WholeHeap(n), size, align, size2, align2, FullHeap(n)) && FullHeap(n) != WholeHeap(n)
  {
    SmallHeaps(n);
    var free := WholeHeap(n).free;
    forall x ensures FreeAt(free, x) <==> 0 <= x < n {
      assert free[0].Covers(x) <==> 0 <= x < n;
    }
    forall b | FreeRun(free, b, n) ensures 0 <= b {
      assert FreeAt(free, b);
    }
    assert LowestFit(free, n, align, 0);
    assert AllocStep(WholeHeap(n), size, align, Ok(0), FullHeap(n));
    forall b ensures !FreeRun([], b, Amount(size2)) {
      assert !FreeAt([], b);
    }
    assert AllocStep(FullHeap(n), size2, align2, Exhausted, FullHeap(n));
  }

  // ----- free runs

  lemma {:induction false} OneRange(free: seq<Range>, i: nat, j: nat, x: int)
    requires Canonical(free) && i < |free| && j < |free| && free[i].Covers(x) && free[j].Covers(x)
    ensures i == j
  {
  }

  /** Consecutive free bytes lie in one range of a canonical list. */
  lemma {:induction false} RunInOneRange(free: seq<Range>, a: int, n: int) returns (i: nat)
    requires Canonical(free) && n > 0 && FreeRun(free, a, n)
    ensures i < |free| && free[i].start <= a && a + n <= free[i].End()
  {
    assert FreeAt(free, a);
    i :| 0 <= i < |free| && free[i].Covers(a);
    var e := free[i].End();
    EndNotFree(free, i);
    assert e < a + n ==> FreeAt(free, e);
  }

  lemma {:induction false} EndNotFree(free: seq<Range>, i: nat)
    requires Canonical(free) && i < |free|
    ensures !FreeAt(free, free[i].End())
  {
    forall j | 0 <= j < |free| ensures !free[j].Covers(free[i].End()) {
      if j < i {
        assert free[j].End() < free[i].start;
      }
    }
  }

  lemma {:induction false} RangeIsRun(free: seq<Range>, i: nat, a: int, n: int)
    requires i < |free| && free[i].start <= a && a + n <= free[i].End()
    ensures FreeRun(free, a, n)
  {
    forall x | a <= x < a + n ensures FreeAt(free, x) {
      assert free[i].Covers(x);
    }
  }

  // ----- the free list is determined by the live blocks

  ghost predicate SameBytes(f: seq<Range>, g: seq<Range>) {
    forall x :: FreeAt(f, x) <==> FreeAt(g, x)
  }

  lemma {:induction false} FreeAtTail(f: seq<Range>, x: int)
    requires Canonical(f) && f != []
    ensures Canonical(f[1..])
    ensures FreeAt(f[1..], x) <==> FreeAt(f, x) && !f[0].Covers(x)
  {
    if FreeAt(f[1..], x) {
      var i :| 0 <= i < |f[1..]| && f[1..][i].Covers(x);
      assert f[i + 1].Covers(x);
    }
    if FreeAt(f, x) && !f[0].Covers(x) {
      var i :| 0 <= i < |f| && f[i].Covers(x);
      assert f[1..][i - 1].Covers(x);
    }
  }

  lemma {:induction false} StartIsFree(f: seq<Range>)
    requires Canonical(f)
    ensures f != [] ==> FreeAt(f, f[0].start)
  {
    assert f != [] ==> f[0].Covers(f[0].start);
  }

  lemma {:induction false} FirstStart(f: seq<Range>, x: int)
    requires Canonical(f) && f != [] && FreeAt(f, x)
    ensures f[0].start <= x && FreeAt(f, f[0].start)
  {
    assert f[0].Covers(f[0].start);
  }

  lemma {:induction false} FirstEnd(f: seq<Range>)
    requires Canonical(f) && f != []
    ensures !FreeAt(f, f[0].End())
    ensures forall x :: f[0].start <= x < f[0].End() ==> FreeAt(f, x)
  {
    forall x | f[0].start <= x < f[0].End() ensures FreeAt(f, x) {
      assert f[0].Covers(x);
    }
  }

  /** Canonical lists with the same bytes are equal. */
  lemma {:induction false} CanonicalUnique(f: seq<Range>, g: seq<Range>)
    requires Canonical(f) && Canonical(g) && SameBytes(f, g)
    ensures f == g
    decreases |f|
  {
    StartIsFree(g);
    if f != [] {
      assert FreeAt(f, f[0].start) by { assert f[0].Covers(f[0].start); }
      assert FreeAt(g, f[0].start);
      FirstStart(g, f[0].start);
      FirstStart(f, g[0].start);
      FirstEnd(f);
      FirstEnd(g);
      assert f[0].End() == g[0].End() by {
        var e, d := f[0].End(), g[0].End();
        assert !FreeAt(g, e) && !FreeAt(f, d);
        assert e < d ==> FreeAt(g, e);
        assert d < e ==> FreeAt(f, d);
      }
      forall x ensures FreeAt(f[1..], x) <==> FreeAt(g[1..], x) {
        FreeAtTail(f, x);
        FreeAtTail(g, x);
      }
      FreeAtTail(f, 0);
      FreeAtTail(g, 0);
      CanonicalUnique(f[1..], g[1..]);
      assert f == [f[0]] + f[1..] && g == [g[0]] + g[1..];
    }
  }

  /** Two heaps over the same range with the same live blocks have identical free lists,
      whatever their histories. */
  lemma {:induction false} LiveDeterminesFree(h: Heap, k: Heap)
    requires Good(h) && Good(k) && h.base == k.base && h.size == k.size && h.live == k.live
    ensures h == k
  {
    forall x ensures FreeAt(h.free, x) <==> FreeAt(k.free, x) {
      assert FreeAt(h.free, x) || LiveAt(h.live, x) <==> h.base <= x < h.base + h.size;
      assert FreeAt(k.free, x) || LiveAt(k.live, x) <==> h.base <= x < h.base + h.size;
    }
    CanonicalUnique(h.free, k.free);
  }

  /** Freeing what was just allocated restores the heap exactly. */
  lemma {:induction false} FreeUndoesAlloc(h: Heap, size: int, align: int, a: int, h1: Heap, r: Result, h2: Heap)
    requires Good(h) && AllocStep(h, size, align, Ok(a), h1) && FreeStep(h1, a, r, h2)
    ensures r == Ok(a) && h2 == h
  {
    assert h2.live == h.live;
    LiveDeterminesFree(h, h2);
  }

  // ----- each operation has one outcome

  lemma {:induction false} AllocDetermined(h: Heap, size: int, align: int, r1: Result, h1: Heap, r2: Result, h2: Heap)
    requires AllocStep(h, size, align, r1, h1) && AllocStep(h, size, align, r2, h2)
    ensures r1 == r2 && h1 == h2
  {
    hide Tiled, FreeRun;
    LiveDeterminesFree(h1, h2);
  }

  lemma {:induction false} FreeDetermined(h: Heap, address: int, r1: Result, h1: Heap, r2: Result, h2: Heap)
    requires FreeStep(h, address, r1, h1) && FreeStep(h, address, r2, h2)
    ensures r1 == r2 && h1 == h2
  {
    hide Tiled;
    LiveDeterminesFree(h1, h2);
  }

  lemma {:induction false} ReallocDetermined(h: Heap, address: int, size: int, allowMove: bool, r1: Result, h1: Heap,
                                             r2: Result, h2: Heap)
    requires ReallocStep(h, address, size, allowMove, r1, h1) && ReallocStep(h, address, size, allowMove, r2, h2)
    ensures r1 == r2 && h1 == h2
  {
    hide Tiled, FreeRun;
    LiveDeterminesFree(h1, h2);
  }

  /** Two allocations in a row: both succeed, or one fails. */
  lemma {:induction false} PairDetermined(h: Heap, size: int, align: int, size2: int, align2: int, a: int, mid: Heap,
                                          b: int, h1: Heap, h2: Heap)
    requires AllocStep(h, size, align, Ok(a), mid) && AllocStep(mid, size2, align2, Ok(b), h1)
    ensures !PairFails(h, size, align, size2, align2, h2)
  {
    hide AllocStep;
    if AllocStep(h, size, align, Exhausted, h2) {
      AllocDetermined(h, size, align, Ok(a), mid, Exhausted, h2);
    } else if PairFails(h, size, align, size2, align2, h2) {
      var c, mid2 :| AllocStep(h, size, align, Ok(c), mid2) && AllocStep(mid2, size2, align2, Exhausted, h2);
      AllocDetermined(h, size, align, Ok(a), mid, Ok(c), mid2);
      AllocDetermined(mid, size2, align2, Ok(b), h1, Exhausted, h2);
    }
  }

  function FreeBytes(free: seq<Range>): int {
    if free == [] then 0 else free[0].size + FreeBytes(free[1..])
  }

  ghost function SomeOf<T(!new)>(s: set<T>): (x: T)
    requires s != {}
    ensures x in s
  {
    var x :| x in s;
    x
  }

  ghost function LiveBytes(live: map<int, int>): int
    decreases |live|
  {
    if live.Keys == {} then 0
    else
      var b := SomeOf(live.Keys);
      live[b] + LiveBytes(live - {b})
  }

  lemma {:induction false} LiveBytesRemove(live: map<int, int>, b: int)
    requires b in live
    ensures LiveBytes(live) == live[b] + LiveBytes(live - {b})
    decreases |live|
  {
    var c := SomeOf(live.Keys);
    if c != b {
      LiveBytesRemove(live - {c}, b);
      LiveBytesRemove(live - {b}, c);
      assert live - {c} - {b} == live - {b} - {c};
    }
  }

  /** Free bytes and live bytes always add up to the size of the heap. */
  lemma {:induction false} Conserved(free: seq<Range>, live: map<int, int>, lo: int, hi: int)
    requires lo <= hi && Tiled(free, live, lo, hi)
    ensures FreeBytes(free) + LiveBytes(live) == hi - lo
    decreases hi - lo
  {
    if lo == hi {
      NothingInEmpty(free, live, lo);
    } else if FreeAt(free, lo) {
      FirstStart(free, lo);
      TileDropFree(free, live, lo, hi);
      Conserved(free[1..], live, free[0].End(), hi);
    } else {
      TileDropLive(free, live, lo, hi);
      Conserved(free, live - {lo}, lo + live[lo], hi);
      LiveBytesRemove(live, lo);
    }
  }

  lemma {:induction false} NothingInEmpty(free: seq<Range>, live: map<int, int>, lo: int)
    requires Tiled(free, live, lo, lo)
    ensures free == [] && live == map[]
  {
    if free != [] {
      assert free[0].Covers(free[0].start);
      assert FreeAt(free, free[0].start);
    }
    forall b ensures b !in live {
      assert b in live ==> LiveAt(live, b);
    }
  }

  lemma {:induction false} TileDropFree(free: seq<Range>, live: map<int, int>, lo: int, hi: int)
    requires Tiled(free, live, lo, hi) && lo < hi && FreeAt(free, lo)
    ensures free != [] && free[0].start == lo && lo < free[0].End() <= hi
    ensures Tiled(free[1..], live, free[0].End(), hi)
  {
    FirstStart(free, lo);
    FirstEnd(free);
    assert FreeAt(free, free[0].End() - 1);
    forall x ensures FreeAt(free[1..], x) <==> FreeAt(free, x) && !free[0].Covers(x) {
      FreeAtTail(free, x);
    }
    FreeAtTail(free, 0);
  }

  lemma {:induction false} TileDropLive(free: seq<Range>, live: map<int, int>, lo: int, hi: int)
    requires Tiled(free, live, lo, hi) && lo < hi && !FreeAt(free, lo)
    ensures lo in live && lo < lo + live[lo] <= hi
    ensures Tiled(free, live - {lo}, lo + live[lo], hi)
  {
    assert LiveAt(live, lo);
    var b :| b in live && b <= lo < b + live[b];
    assert LiveAt(live, b);
    assert LiveAt(live, lo + live[lo] - 1);
    forall x ensures LiveAt(live - {lo}, x) <==> LiveAt(live, x) && !(lo <= x < lo + live[lo]) {
      LiveAtRemove(live, lo, x);
    }
  }

  lemma {:induction false} LiveAtRemove(live: map<int, int>, b: int, x: int)
    requires b in live
    requires forall a, c :: a in live && c in live && a < c ==> a + live[a] <= c
    ensures LiveAt(live - {b}, x) <==> LiveAt(live, x) && !(b <= x < b + live[b])
  {
    if LiveAt(live - {b}, x) {
      var c :| c in live - {b} && c <= x < c + (live - {b})[c];
      assert c in live;
    }
    if LiveAt(live, x) && !(b <= x < b + live[b]) {
      var c :| c in live && c <= x < c + live[c];
      assert c in live - {b};
    }
  }

  lemma {:induction false} HeapConserved(h: Heap)
    requires Good(h)
    ensures FreeBytes(h.free) + LiveBytes(h.live) == h.size
  {
    Conserved(h.free, h.live, h.base, h.base + h.size);
  }
}
