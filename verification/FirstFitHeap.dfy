/** The first-fit heap as it runs (src/cwhost/memory.py, class `Heap`): a sorted free list
    that is split, carved and coalesced in place. */
module FirstFitHeap {
  import opened Bytes
  import opened Alignment
  import opened HeapModel
  import G = Guest

  predicate Fits(r: Range, n: int, align: int)
    requires align > 0
  {
    AlignUp(r.start, align) + n <= r.End()
  }

  /** The first range that fits holds the lowest fit. */
  lemma {:induction false} FirstFitIsLowest(free: seq<Range>, n: int, align: int, index: nat)
    requires Canonical(free) && n > 0 && align > 0 && index < |free| && Fits(free[index], n, align)
    requires forall j :: 0 <= j < index ==> !Fits(free[j], n, align)
    ensures LowestFit(free, n, align, AlignUp(free[index].start, align))
  {
    hide AlignUp;
    var a := AlignUp(free[index].start, align);
    AlignUpLeast(free[index].start, align);
    RangeIsRun(free, index, a, n);
    forall b | b % align == 0 && FreeRun(free, b, n) ensures a <= b {
      var i := RunInOneRange(free, b, n);
      AlignUpLeast(free[i].start, align);
      assert Fits(free[i], n, align);
      assert i > index ==> free[index].End() < free[i].start;
    }
  }

  lemma {:induction false} NothingFits(free: seq<Range>, n: int, align: int)
    requires Canonical(free) && n > 0 && align > 0
    requires forall j :: 0 <= j < |free| ==> !Fits(free[j], n, align)
    ensures NoFit(free, n, align)
  {
    hide AlignUp;
    forall b | b % align == 0 ensures !FreeRun(free, b, n) {
      if FreeRun(free, b, n) {
        var i := RunInOneRange(free, b, n);
        AlignUpLeast(free[i].start, align);
      }
    }
  }

  // ----- free lists

  /** `free2` covers what `free1` covers, less [a, a + n). */
  ghost predicate Less(free1: seq<Range>, a: int, n: int, free2: seq<Range>) {
    Canonical(free2) && forall x :: FreeAt(free2, x) <==> FreeAt(free1, x) && !(a <= x < a + n)
  }

  ghost predicate More(free1: seq<Range>, a: int, n: int, free2: seq<Range>) {
    Canonical(free2) && forall x :: FreeAt(free2, x) <==> FreeAt(free1, x) || a <= x < a + n
  }

  /** What is left of one range when [a, a + n) is taken out of it. */
  function Remains(r: Range, a: int, n: int): seq<Range> {
    (if a > r.start then [Range(r.start, a - r.start)] else []) +
    (if r.End() > a + n then [Range(a + n, r.End() - (a + n))] else [])
  }

  lemma {:induction false} FreeAtConcat(f: seq<Range>, g: seq<Range>, x: int)
    ensures FreeAt(f + g, x) <==> FreeAt(f, x) || FreeAt(g, x)
  {
    if FreeAt(f, x) {
      var i :| 0 <= i < |f| && f[i].Covers(x);
      assert (f + g)[i].Covers(x);
    }
    if FreeAt(g, x) {
      var i :| 0 <= i < |g| && g[i].Covers(x);
      assert (f + g)[|f| + i].Covers(x);
    }
    if FreeAt(f + g, x) {
      var i :| 0 <= i < |f + g| && (f + g)[i].Covers(x);
      assert if i < |f| then f[i].Covers(x) else g[i - |f|].Covers(x);
    }
  }

  lemma {:induction false} FreeAtOne(r: Range, x: int)
    ensures FreeAt([r], x) <==> r.Covers(x)
  {
    if r.Covers(x) {
      assert [r][0].Covers(x);
    }
  }

  lemma {:induction false} RemainsAt(r: Range, a: int, n: int, x: int)
    requires r.start <= a && a + n <= r.End() && n > 0
    ensures FreeAt(Remains(r, a, n), x) <==> r.Covers(x) && !(a <= x < a + n)
  {
    var left, right := Range(r.start, a - r.start), Range(a + n, r.End() - (a + n));
    FreeAtConcat(if a > r.start then [left] else [], if r.End() > a + n then [right] else [], x);
    FreeAtOne(left, x);
    FreeAtOne(right, x);
  }

  /** Carving a stretch out of range `i` of a canonical list. */
  lemma {:induction false} Carve(free: seq<Range>, i: nat, a: int, n: int)
    requires Canonical(free) && i < |free| && free[i].start <= a && a + n <= free[i].End() && n > 0
    ensures Less(free, a, n, free[..i] + Remains(free[i], a, n) + free[i + 1..])
  {
    var mid := Remains(free[i], a, n);
    var free2 := free[..i] + mid + free[i + 1..];
    forall x ensures FreeAt(free2, x) <==> FreeAt(free, x) && !(a <= x < a + n) {
      FreeAtConcat(free[..i] + mid, free[i + 1..], x);
      FreeAtConcat(free[..i], mid, x);
      RemainsAt(free[i], a, n, x);
      FreeAtConcat(free[..i] + [free[i]], free[i + 1..], x);
      FreeAtConcat(free[..i], [free[i]], x);
      FreeAtOne(free[i], x);
      assert free == free[..i] + [free[i]] + free[i + 1..];
      if a <= x < a + n {
        assert free[i].Covers(x);
        OnlyThere(free, i, x);
      }
    }
    CarveCanonical(free, i, a, n);
  }

  lemma {:induction false} OnlyThere(free: seq<Range>, i: nat, x: int)
    requires Canonical(free) && i < |free| && free[i].Covers(x)
    ensures !FreeAt(free[..i], x) && !FreeAt(free[i + 1..], x)
  {
    forall j | 0 <= j < i ensures !free[..i][j].Covers(x) {
      assert free[j].End() < free[i].start;
    }
    var tail := free[i + 1..];
    forall j | 0 <= j < |tail| ensures !tail[j].Covers(x) {
      assert tail[j] == free[i + 1 + j] && free[i].End() < free[i + 1 + j].start;
    }
  }

  lemma {:induction false} CarveCanonical(free: seq<Range>, i: nat, a: int, n: int)
    requires Canonical(free) && i < |free| && free[i].start <= a && a + n <= free[i].End() && n > 0
    ensures Canonical(free[..i] + Remains(free[i], a, n) + free[i + 1..])
  {
    var head, mid, tail := free[..i], Remains(free[i], a, n), free[i + 1..];
    assert Canonical(mid);
    assert forall k :: 0 <= k < |mid| ==> free[i].start <= mid[k].start && mid[k].End() <= free[i].End();
    hide Remains;
    forall k | 0 <= k < |head| ensures head[k].End() < free[i].start {
    }
    forall k | 0 <= k < |tail| ensures free[i].End() < tail[k].start {
      assert tail[k] == free[i + 1 + k];
    }
    Joined(head, mid);
    Joined(head + mid, tail);
  }

  lemma {:induction false} Joined(f: seq<Range>, g: seq<Range>)
    requires Canonical(f) && Canonical(g)
    requires forall i, j :: 0 <= i < |f| && 0 <= j < |g| ==> f[i].End() < g[j].start
    ensures Canonical(f + g)
  {
  }

  // ----- tilings

  lemma {:induction false} TakeBlock(h: Heap, a: int, n: int, free2: seq<Range>)
    requires Good(h) && n > 0 && FreeRun(h.free, a, n) && Less(h.free, a, n, free2)
    ensures a !in h.live && Good(h.(free := free2, live := h.live[a := n]))
  {
    var live2 := h.live[a := n];
    assert FreeAt(h.free, a);
    assert a in h.live ==> LiveAt(h.live, a);
    assert a !in h.live;
    forall b | b in h.live ensures b + h.live[b] <= a || a + n <= b {
      var x := if b <= a then a else b;
      assert b <= x < b + h.live[b] ==> LiveAt(h.live, x);
      assert a <= x < a + n ==> FreeAt(h.free, x);
    }
    forall x
      ensures FreeAt(free2, x) || LiveAt(live2, x) <==> h.base <= x < h.base + h.size
      ensures !(FreeAt(free2, x) && LiveAt(live2, x))
    {
      LiveAtAdd(h.live, a, n, x);
      assert a <= x < a + n ==> FreeAt(h.free, x);
    }
  }

  lemma {:induction false} LiveAtAdd(live: map<int, int>, a: int, n: int, x: int)
    requires a !in live
    ensures LiveAt(live[a := n], x) <==> LiveAt(live, x) || a <= x < a + n
  {
    var live2 := live[a := n];
    if LiveAt(live, x) {
      var b :| b in live && b <= x < b + live[b];
      assert b in live2 && live2[b] == live[b];
    }
    if a <= x < a + n {
      assert a in live2;
    }
    if LiveAt(live2, x) {
      var b :| b in live2 && b <= x < b + live2[b];
      assert b != a ==> b in live;
    }
  }

  lemma {:induction false} GiveBlock(h: Heap, a: int, free2: seq<Range>)
    requires Good(h) && a in h.live && More(h.free, a, h.live[a], free2)
    ensures Good(h.(free := free2, live := h.live - {a}))
  {
    var live2 := h.live - {a};
    forall x
      ensures FreeAt(free2, x) || LiveAt(live2, x) <==> h.base <= x < h.base + h.size
      ensures !(FreeAt(free2, x) && LiveAt(live2, x))
    {
      LiveAtRemove(h.live, a, x);
      assert a <= x < a + h.live[a] ==> LiveAt(h.live, x);
    }
  }

  /** A block and its bytes may be resized in place: the difference goes to or comes from the
      free list. */
  lemma {:induction false} ShrinkBlock(h: Heap, a: int, n: int, free2: seq<Range>)
    requires Good(h) && a in h.live && 0 < n <= h.live[a] && More(h.free, a + n, h.live[a] - n, free2)
    ensures Good(h.(free := free2, live := h.live[a := n]))
  {
    var live2 := h.live[a := n];
    forall x
      ensures FreeAt(free2, x) || LiveAt(live2, x) <==> h.base <= x < h.base + h.size
      ensures !(FreeAt(free2, x) && LiveAt(live2, x))
    {
      LiveAtResize(h.live, a, n, x);
      assert a <= x < a + h.live[a] ==> LiveAt(h.live, x);
    }
  }

  lemma {:induction false} GrowBlock(h: Heap, a: int, n: int, free2: seq<Range>)
    requires Good(h) && a in h.live && n > h.live[a] && StaysPut(h, a, n)
    requires Less(h.free, a + h.live[a], n - h.live[a], free2)
    ensures Good(h.(free := free2, live := h.live[a := n]))
  {
    var live2, end := h.live[a := n], a + h.live[a];
    forall b | b in h.live && a < b ensures a + n <= b {
      assert end <= b;
      assert LiveAt(h.live, b);
      assert end <= b < a + n ==> FreeAt(h.free, b);
    }
    forall x
      ensures FreeAt(free2, x) || LiveAt(live2, x) <==> h.base <= x < h.base + h.size
      ensures !(FreeAt(free2, x) && LiveAt(live2, x))
    {
      LiveAtResize(h.live, a, n, x);
      assert a <= x < a + h.live[a] ==> LiveAt(h.live, x);
      assert end <= x < a + n ==> FreeAt(h.free, x);
    }
  }

  lemma {:induction false} LiveAtResize(live: map<int, int>, a: int, n: int, x: int)
    requires a in live
    requires forall b, c :: b in live && c in live && b < c ==> b + live[b] <= c
    ensures LiveAt(live[a := n], x) <==> (LiveAt(live, x) && !(a <= x < a + live[a])) || a <= x < a + n
  {
    var live2 := live[a := n];
    if LiveAt(live, x) && !(a <= x < a + live[a]) {
      var b :| b in live && b <= x < b + live[b];
      assert b in live2 && live2[b] == live[b];
    }
    if a <= x < a + n {
      assert a in live2;
    }
    if LiveAt(live2, x) {
      var b :| b in live2 && b <= x < b + live2[b];
      assert b in live;
      assert b != a ==> LiveAt(live, x);
    }
  }

  // ----- sorting and merging

  predicate Sorted(s: seq<Range>) {
    forall i, j :: 0 <= i < j < |s| ==> Before(s[i], s[j])
  }

  /** Tuple order. */
  predicate Before(r: Range, q: Range) {
    r.start < q.start || (r.start == q.start && r.size <= q.size)
  }

  lemma {:induction false} InsertSorted(r: seq<Range>, k: nat, x: Range)
    requires Sorted(r) && k <= |r| && forall j :: 0 <= j < k ==> Before(r[j], x)
    requires k < |r| ==> Before(x, r[k])
    ensures Sorted(r[..k] + [x] + r[k..])
  {
    forall j | k <= j < |r| ensures Before(x, r[j]) {
    }
  }

  lemma {:induction false} SortStep(s: seq<Range>, i: nat, r: seq<Range>, k: nat)
    requires i < |s| && Sorted(r) && multiset(r) == multiset(s[..i])
    requires k <= |r| && forall j :: 0 <= j < k ==> Before(r[j], s[i])
    requires k < |r| ==> !Before(r[k], s[i])
    ensures var next := r[..k] + [s[i]] + r[k..]; Sorted(next) && multiset(next) == multiset(s[..i + 1])
  {
    InsertSorted(r, k, s[i]);
    hide Sorted, Before;
    assert r == r[..k] + r[k..];
    assert s[..i + 1] == s[..i] + [s[i]];
  }

  lemma {:induction false} SortedNone()
    ensures Sorted([])
  {
  }

  /** `list.sort()`. */
  method Sort(s: seq<Range>) returns (r: seq<Range>)
    ensures Sorted(r) && multiset(r) == multiset(s)
  {
    hide Sorted, Before;
    r := [];
    SortedNone();
    var i := 0;
    while i < |s|
      invariant i <= |s| && Sorted(r) && multiset(r) == multiset(s[..i])
    {
      var k := 0;
      while k < |r| && Before(r[k], s[i])
        invariant k <= |r| && forall j :: 0 <= j < k ==> Before(r[j], s[i])
      {
        k := k + 1;
      }
      SortStep(s, i, r, k);
      r := r[..k] + [s[i]] + r[k..];
      i := i + 1;
    }
    assert s[..|s|] == s;
  }

  lemma {:induction false} SameRanges(f: seq<Range>, g: seq<Range>, x: int)
    requires multiset(f) == multiset(g)
    ensures FreeAt(f, x) <==> FreeAt(g, x)
  {
    if FreeAt(f, x) {
      var i :| 0 <= i < |f| && f[i].Covers(x);
      assert f[i] in multiset(g);
    }
    if FreeAt(g, x) {
      var i :| 0 <= i < |g| && g[i].Covers(x);
      assert g[i] in multiset(f);
    }
  }

  /** The coalescing loop: touching or overlapping neighbours of a sorted list become one. */
  method Merge(s: seq<Range>) returns (merged: seq<Range>)
    requires Sorted(s) && forall i :: 0 <= i < |s| ==> s[i].size > 0
    ensures Canonical(merged) && SameBytes(merged, s)
  {
    hide Canonical, SameBytes, Sorted;
    merged := [];
    NothingMerged();
    assert s[..0] == [];
    var i := 0;
    while i < |s|
      invariant i <= |s| && Canonical(merged) && SameBytes(merged, s[..i])
      invariant merged == [] <==> i == 0
      invariant i > 0 ==> merged[|merged| - 1].start <= s[i - 1].start
    {
      ghost var was := merged;
      var current := s[i];
      if i > 0 && merged[|merged| - 1].End() >= current.start {
        var previous := merged[|merged| - 1];
        var end := if previous.End() >= current.End() then previous.End() else current.End();
        SortedNeighbours(s, i);
        merged := merged[..|merged| - 1] + [Range(previous.start, end - previous.start)];
        MergedLast(was, current, end, s[..i]);
      } else {
        merged := merged + [current];
        MergedNew(was, current, s[..i]);
      }
      assert s[..i + 1] == s[..i] + [current];
      i := i + 1;
    }
    assert s[..|s|] == s;
  }

  lemma {:induction false} NothingMerged()
    ensures Canonical([]) && SameBytes([], [])
  {
  }

  lemma {:induction false} SortedNeighbours(s: seq<Range>, i: nat)
    requires Sorted(s) && 0 < i < |s|
    ensures Before(s[i - 1], s[i])
  {
  }

  lemma {:induction false} MergedLast(was: seq<Range>, current: Range, end: int, done: seq<Range>)
    requires was != [] && Canonical(was) && SameBytes(was, done)
    requires var p := was[|was| - 1];
             p.start <= current.start <= p.End() && current.size > 0 &&
             end == if p.End() >= current.End() then p.End() else current.End()
    ensures var p, init := was[|was| - 1], was[..|was| - 1];
            var now := init + [Range(p.start, end - p.start)];
            Canonical(now) && SameBytes(now, done + [current])
  {
    var p, init := was[|was| - 1], was[..|was| - 1];
    var wide := Range(p.start, end - p.start);
    Joined(init, [wide]);
    forall x ensures FreeAt(init + [wide], x) <==> FreeAt(done + [current], x) {
      assert was == init + [p];
      FreeAtConcat(init, [p], x);
      FreeAtConcat(init, [wide], x);
      FreeAtConcat(done, [current], x);
      FreeAtOne(p, x);
      FreeAtOne(wide, x);
      FreeAtOne(current, x);
    }
  }

  lemma {:induction false} MergedNew(was: seq<Range>, current: Range, done: seq<Range>)
    requires Canonical(was) && SameBytes(was, done) && current.size > 0
    requires was != [] ==> was[|was| - 1].End() < current.start
    ensures Canonical(was + [current]) && SameBytes(was + [current], done + [current])
  {
    forall i | 0 <= i < |was| ensures was[i].End() < current.start {
      assert i < |was| - 1 ==> was[i].End() < was[|was| - 1].start;
    }
    Joined(was, [current]);
    forall x ensures FreeAt(was + [current], x) <==> FreeAt(done + [current], x) {
      FreeAtConcat(was, [current], x);
      FreeAtConcat(done, [current], x);
    }
  }

  /** Memory after a reallocation: the old block's bytes are copied if it moved. */
  ghost function Moved(mem: G.Memory, live: map<int, int>, address: int, r: Result): G.Memory {
    if r.Ok? && r.address != address && address in live && live[address] >= 0 && G.Mapped(mem, address, live[address])
    then G.Store(mem, r.address, G.Load(mem, address, live[address]))
    else mem
  }

  // ----- the heap

  class GuestHeap {
    const guest: G.Guest
    const base: int
    const size: int
    var free: seq<Range>
    var live: map<int, int>

    ghost function Model(): Heap
      reads this
    {
      Heap(base, size, free, live)
    }

    ghost predicate Valid()
      reads this, guest
    {
      Good(Model()) && G.Mapped(guest.mem, base, size)
    }

    constructor (guest: G.Guest, base: int, size: int)
      requires 0 <= base && size > 0 && base + size <= TWO32 && G.Mapped(guest.mem, base, size)
      ensures Valid() && this.guest == guest && Model() == Heap(base, size, [Range(base, size)], map[])
    {
      this.guest, this.base, this.size := guest, base, size;
      free, live := [Range(base, size)], map[];
      new;
      forall x ensures FreeAt(free, x) <==> base <= x < base + size {
        FreeAtOne(Range(base, size), x);
      }
    }

    method Alloc(size: int, align: int) returns (r: Result)
      requires Valid()
      modifies this`free, this`live
      ensures Valid() && AllocStep(old(Model()), size, align, r, Model())
      ensures r.Ok? ==> r.address % align == 0 && live == old(live)[r.address := if size < 1 then 1 else size]
    {
      if size < 0 || align <= 0 {
        return Invalid;
      }
      var amount := Amount(size);
      var index := 0;
      while index < |free|
        invariant index <= |free| && Model() == old(Model())
        invariant forall j :: 0 <= j < index ==> !Fits(free[j], amount, align)
      {
        var start, available := free[index].start, free[index].size;
        var address := AlignUp(start, align);
        var prefix := address - start;
        if prefix + amount <= available {
          AlignUpLeast(start, align);
          FirstFitIsLowest(free, amount, align, index);
          Carve(free, index, address, amount);
          TakeBlock(Model(), address, amount,
                    free[..index] + Remains(free[index], address, amount) + free[index + 1..]);
          var suffix := available - prefix - amount;
          var replacement := (if prefix > 0 then [Range(start, prefix)] else []) +
                             (if suffix > 0 then [Range(address + amount, suffix)] else []);
          assert replacement == Remains(free[index], address, amount);
          free := free[..index] + replacement + free[index + 1..];
          live := live[address := amount];
          return Ok(address);
        }
        index := index + 1;
      }
      NothingFits(free, amount, align);
      return Exhausted;
    }

    method InsertFree(start: int, amount: int)
      requires Canonical(free)
      modifies this`free
      ensures More(old(free), start, amount, free)
    {
      if amount <= 0 {
        return;
      }
      ghost var longer := free + [Range(start, amount)];
      var sorted := Sort(free + [Range(start, amount)]);
      forall i | 0 <= i < |sorted| ensures sorted[i].size > 0 {
        assert sorted[i] in multiset(longer);
      }
      var merged := Merge(sorted);
      forall x ensures FreeAt(merged, x) <==> FreeAt(free, x) || start <= x < start + amount {
        SameRanges(sorted, longer, x);
        FreeAtConcat(free, [Range(start, amount)], x);
        FreeAtOne(Range(start, amount), x);
      }
      free := merged;
    }

    method Free(address: int) returns (r: Result)
      requires Valid()
      modifies this`free, this`live
      ensures Valid() && FreeStep(old(Model()), address, r, Model())
    {
      if address !in live {
        return Invalid;
      }
      var amount := live[address];
      live := live - {address};
      InsertFree(address, amount);
      GiveBlock(old(Model()), address, free);
      return Ok(address);
    }

    method Shrink(address: int, amount: int)
      requires Valid() && address in live && 0 < amount <= live[address]
      modifies this`free, this`live
      ensures Valid() && Model() == old(Model()).(free := free, live := old(live)[address := amount])
    {
      if amount < live[address] {
        InsertFree(address + amount, live[address] - amount);
      }
      ShrinkBlock(old(Model()), address, amount, free);
      live := live[address := amount];
    }

    method GrowInPlace(address: int, amount: int) returns (grown: bool)
      requires Valid() && address in live && amount > live[address]
      modifies this`free, this`live
      ensures Valid() && (grown <==> StaysPut(old(Model()), address, amount))
      ensures !grown ==> Model() == old(Model())
      ensures grown ==> Model() == old(Model()).(free := free, live := old(live)[address := amount])
    {
      var end, extra := address + live[address], amount - live[address];
      var index := 0;
      while index < |free| && free[index].start != end
        invariant index <= |free| && forall j :: 0 <= j < index ==> free[j].start != end
      {
        index := index + 1;
      }
      AdjacentOnly(Model(), address, amount, index);
      if index == |free| || free[index].size < extra {
        return false;
      }
      RangeIsRun(free, index, end, extra);
      Carve(free, index, end, extra);
      GrowBlock(Model(), address, amount, free[..index] + Remains(free[index], end, extra) + free[index + 1..]);
      if free[index].size == extra {
        assert free[..index] + free[index + 1..] ==
               free[..index] + Remains(free[index], end, extra) + free[index + 1..];
        free := free[..index] + free[index + 1..];
      } else {
        assert free[index := Range(end + extra, free[index].size - extra)] ==
               free[..index] + Remains(free[index], end, extra) + free[index + 1..];
        free := free[index := Range(end + extra, free[index].size - extra)];
      }
      live := live[address := amount];
      return true;
    }

    method Realloc(address: int, size: int, allowMove: bool) returns (r: Result)
      requires Valid()
      modifies this`free, this`live, guest
      ensures Valid() && ReallocStep(old(Model()), address, size, allowMove, r, Model())
      ensures guest.mem == Moved(old(guest.mem), old(live), address, r)
    {
      if size < 0 || address !in live {
        return Invalid;
      }
      var amount := Amount(size);
      if amount <= live[address] {
        Shrink(address, amount);
        return Ok(address);
      }
      var grown := GrowInPlace(address, amount);
      if grown {
        return Ok(address);
      }
      if !allowMove {
        return Unmovable;
      }
      r := MoveBlock(address, size);
    }

    /** Allocate anew, copy, free the old block. */
    method MoveBlock(address: int, size: int) returns (r: Result)
      requires Valid() && size >= 0 && address in live && Amount(size) > live[address]
      requires !StaysPut(Model(), address, Amount(size))
      modifies this`free, this`live, guest
      ensures Valid() && ReallocStep(old(Model()), address, size, true, r, Model())
      ensures guest.mem == Moved(old(guest.mem), old(live), address, r)
    {
      hide LowestFit, NoFit, StaysPut, Tiled;
      BlockInside(Model(), address);
      r := Alloc(size, 16);
      if !r.Ok? {
        return;
      }
      ghost var mid := Model();
      BlockInside(mid, r.address);
      assert r.address % TWO32 == r.address && address % TWO32 == address;
      var copySize := if live[address] < Amount(size) then live[address] else Amount(size);
      CopyBlock(r.address, address, copySize);
      var freed := Free(address);
      MoveStep(old(Model()), address, size, r.address, mid, freed, Model());
    }

    method CopyBlock(to: int, from: int, n: int)
      requires n > 0 && G.Mapped(guest.mem, from, n) && G.Mapped(guest.mem, to, n)
      requires 0 <= from < TWO32 && 0 <= to < TWO32
      modifies guest
      ensures guest.mem == G.Store(old(guest.mem), to, G.Load(old(guest.mem), from, n))
    {
      assert from % TWO32 == from && to % TWO32 == to;
      var ok, data := guest.Read(from, n);
      hide G.Load, G.Store;
      assert |data| == n;
      ok := guest.Write(to, data);
    }

    method AllocatedSize(address: int) returns (r: Result)
      ensures r == if address in live then Ok(live[address]) else Invalid
      ensures Valid() && r.Ok? ==>
                forall x :: address <= x < address + r.address ==> LiveAt(live, x) && !FreeAt(free, x)
    {
      if address in live {
        return Ok(live[address]);
      }
      return Invalid;
    }

    /** `free_bytes`: what the program has not been given. */
    method FreeTotal() returns (total: int)
      requires Valid()
      ensures total == size - LiveBytes(live)
    {
      total := 0;
      var i := 0;
      while i < |free|
        invariant i <= |free| && total + FreeBytes(free[i..]) == FreeBytes(free)
      {
        assert free[i..][1..] == free[i + 1..];
        total := total + free[i].size;
        i := i + 1;
      }
      HeapConserved(Model());
    }

    /** `largest_free_block`: exactly the sizes up to it can be allocated byte-aligned. */
    method LargestFree() returns (largest: int)
      requires Valid()
      ensures forall n :: n > 0 ==> (n <= largest <==> !NoFit(free, n, 1))
    {
      largest := 0;
      var i := 0;
      while i < |free|
        invariant i <= |free| && largest >= 0
        invariant forall j :: 0 <= j < i ==> free[j].size <= largest
        invariant largest > 0 ==> exists j :: 0 <= j < i && free[j].size == largest
      {
        if free[i].size > largest {
          largest := free[i].size;
        }
        i := i + 1;
      }
      forall n | n > 0 ensures n <= largest <==> !NoFit(free, n, 1) {
        LargestFits(free, largest, n);
      }
    }
  }

  /** `Heap(guest, base, size)`: the range is checked, then mapped. */
  method Create(guest: G.Guest, base: int, size: int) returns (heap: GuestHeap?)
    modifies guest
    ensures heap != null <==>
              size > 0 && 0 <= base && base + size <= TWO32 &&
              G.PageEnd(base + size) <= TWO32 && old(guest.mem).Keys !! G.Pages(base, size)
    ensures heap == null ==> guest.mem == old(guest.mem)
    ensures heap != null ==> fresh(heap) && heap.Valid() && heap.guest == guest
    ensures heap != null ==> heap.Model() == Heap(base, size, [Range(base, size)], map[])
  {
    if size <= 0 || base < 0 || base + size > TWO32 {
      return null;
    }
    var ok := guest.Map(base, size);
    if !ok {
      return null;
    }
    G.PagesCover(base, size);
    forall x | base <= x < base + size ensures x in guest.mem {
      assert x in G.Pages(base, size);
    }
    heap := new GuestHeap(guest, base, size);
  }

  /** Allocating elsewhere and freeing the old block is a moving reallocation. */
  lemma {:induction false} MoveStep(h: Heap, address: int, size: int, a: int, h1: Heap, freed: Result, h2: Heap)
    requires Good(h) && size >= 0 && address in h.live && !StaysPut(h, address, Amount(size))
    requires AllocStep(h, size, 16, Ok(a), h1) && FreeStep(h1, address, freed, h2)
    ensures ReallocStep(h, address, size, true, Ok(a), h2)
  {
    hide LowestFit, StaysPut, Tiled;
    assert (h.live[a := Amount(size)]) - {address} == (h.live - {address})[a := Amount(size)];
  }

  lemma {:induction false} LargestFits(free: seq<Range>, largest: int, n: int)
    requires Canonical(free) && n > 0 && largest >= 0
    requires forall j :: 0 <= j < |free| ==> free[j].size <= largest
    requires largest > 0 ==> exists j :: 0 <= j < |free| && free[j].size == largest
    ensures n <= largest <==> !NoFit(free, n, 1)
  {
    if n <= largest {
      var j :| 0 <= j < |free| && free[j].size == largest;
      RangeIsRun(free, j, free[j].start, n);
      assert free[j].start % 1 == 0;
    } else {
      forall b | b % 1 == 0 ensures !FreeRun(free, b, n) {
        if FreeRun(free, b, n) {
          var i := RunInOneRange(free, b, n);
        }
      }
    }
  }

  /** A block can only grow into the free range that starts where it ends. */
  lemma {:induction false} AdjacentOnly(h: Heap, address: int, amount: int, index: nat)
    requires Good(h) && address in h.live && amount > h.live[address] && index <= |h.free|
    requires index < |h.free| ==> h.free[index].start == address + h.live[address]
    requires forall j :: 0 <= j < index ==> h.free[j].start != address + h.live[address]
    ensures StaysPut(h, address, amount) <==>
            index < |h.free| && h.free[index].size >= amount - h.live[address]
  {
    var end, extra := address + h.live[address], amount - h.live[address];
    if StaysPut(h, address, amount) {
      var i := RunStarts(h, address, amount);
      SameStart(h.free, i, index, end);
    }
    if index < |h.free| && h.free[index].size >= extra {
      RangeIsRun(h.free, index, end, extra);
    }
  }

  lemma {:induction false} RunStarts(h: Heap, address: int, amount: int) returns (i: nat)
    requires Good(h) && address in h.live && amount > h.live[address] && StaysPut(h, address, amount)
    ensures i < |h.free| && h.free[i].start == address + h.live[address]
    ensures h.free[i].size >= amount - h.live[address]
  {
    var end := address + h.live[address];
    i := RunInOneRange(h.free, end, amount - h.live[address]);
    assert h.live[address] > 0 && LiveAt(h.live, end - 1);
    assert h.free[i].start < end ==> h.free[i].Covers(end - 1) && FreeAt(h.free, end - 1);
  }

  lemma {:induction false} SameStart(free: seq<Range>, i: nat, index: nat, start: int)
    requires Canonical(free) && i < |free| && index <= |free| && free[i].start == start
    requires index < |free| ==> free[index].start == start
    requires forall j :: 0 <= j < index ==> free[j].start != start
    ensures i == index
  {
    if index < |free| {
      OneRange(free, i, index, start);
    }
  }

  lemma {:induction false} BlockInside(h: Heap, a: int)
    requires Good(h) && a in h.live
    ensures h.base <= a && h.live[a] > 0 && a + h.live[a] <= h.base + h.size
  {
    assert LiveAt(h.live, a) && LiveAt(h.live, a + h.live[a] - 1);
  }
}
