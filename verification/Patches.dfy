/** The algebra of adding to words of a byte string, modulo 2^32: what a relocated
    section is made of. */
module Patches {
  import opened Bytes
  import opened RelocationMeaning

  /** One `add_word`: a position and the value added there. */
  datatype Patch = Patch(at: nat, value: int)

  ghost predicate InRange(ps: seq<Patch>, size: nat) {
    forall k :: 0 <= k < |ps| ==> ps[k].at + 4 <= size
  }

  function ApplyAll(section: seq<Byte>, ps: seq<Patch>): (r: seq<Byte>)
    requires InRange(ps, |section|)
    ensures |r| == |section|
    decreases |ps|
  {
    if ps == [] then section else ApplyAll(AddAt(section, ps[0].at, ps[0].value), ps[1..])
  }

  /** Two words that are the same word or share no byte. */
  predicate Apart(p: int, q: int) {
    p == q || p + 4 <= q || q + 4 <= p
  }

  ghost predicate NonOverlapping(ps: seq<Patch>) {
    forall i, j :: 0 <= i < j < |ps| ==> Apart(ps[i].at, ps[j].at)
  }

  lemma {:induction false} WordAfterAdd(s: seq<Byte>, p: nat, v: int)
    requires p + 4 <= |s|
    ensures WordAt(AddAt(s, p, v), p) == (WordAt(s, p) + v) % TWO32
  {
    Pow256Values();
    var x := ToBe((WordAt(s, p) + v) % TWO32, 4);
    BeToBe((WordAt(s, p) + v) % TWO32, 4);
    assert AddAt(s, p, v)[p..p + 4] == x;
  }

  lemma {:induction false} WordApart(s: seq<Byte>, p: nat, v: int, q: nat)
    requires p + 4 <= |s| && q + 4 <= |s| && Apart(p, q) && p != q
    ensures WordAt(AddAt(s, p, v), q) == WordAt(s, q)
  {
    assert AddAt(s, p, v)[q..q + 4] == s[q..q + 4];
  }

  lemma {:induction false} ModSum(x: int, v: int, t: int)
    ensures ((x + v) % TWO32 + t) % TWO32 == (x + v + t) % TWO32
  {
  }

  lemma {:induction false} AddTwice(s: seq<Byte>, p: nat, v: int, w: int)
    requires p + 4 <= |s|
    ensures AddAt(AddAt(s, p, v), p, w) == AddAt(s, p, v + w)
  {
    WordAfterAdd(s, p, v);
    ModSum(WordAt(s, p), v, w);
    hide WordAt, ToBe;
  }

  lemma {:induction false} AddZero(s: seq<Byte>, p: nat, v: int)
    requires p + 4 <= |s| && v % TWO32 == 0
    ensures AddAt(s, p, v) == s
  {
    Pow256Values();
    assert (WordAt(s, p) + v) % TWO32 == WordAt(s, p);
    ToBeBe(s[p..p + 4]);
    assert AddAt(s, p, v) == s;
  }

  lemma {:induction false} AddsCommute(s: seq<Byte>, p: nat, v: int, q: nat, w: int)
    requires p + 4 <= |s| && q + 4 <= |s| && Apart(p, q)
    ensures AddAt(AddAt(s, p, v), q, w) == AddAt(AddAt(s, q, w), p, v)
  {
    if p == q {
      AddTwice(s, p, v, w);
      AddTwice(s, p, w, v);
    } else {
      AddsCommuteApart(s, p, v, q, w);
    }
  }

  lemma {:induction false} AddAtIs(s: seq<Byte>, p: nat, v: int, word: int)
    requires p + 4 <= |s| && WordAt(s, p) == word
    ensures AddAt(s, p, v) == Splice(s, p, ToBe((word + v) % TWO32, 4))
  {
  }

  lemma {:induction false} AddsCommuteApart(s: seq<Byte>, p: nat, v: int, q: nat, w: int)
    requires p + 4 <= |s| && q + 4 <= |s| && Apart(p, q) && p != q
    ensures AddAt(AddAt(s, p, v), q, w) == AddAt(AddAt(s, q, w), p, v)
  {
    hide WordAt, AddAt, Splice, ToBe;
    WordApart(s, p, v, q);
    WordApart(s, q, w, p);
    var m, n := WordAt(s, p), WordAt(s, q);
    AddAtIs(s, p, v, m);
    AddAtIs(s, q, w, n);
    AddAtIs(AddAt(s, p, v), q, w, n);
    AddAtIs(AddAt(s, q, w), p, v, m);
    SpliceApart(s, p, ToBe((m + v) % TWO32, 4), q, ToBe((n + w) % TWO32, 4));
  }

  lemma {:induction false} SpliceApart(s: seq<Byte>, p: nat, x: seq<Byte>, q: nat, y: seq<Byte>)
    requires p + |x| <= |s| && q + |y| <= |s|
    requires p + |x| <= q || q + |y| <= p
    ensures Splice(Splice(s, p, x), q, y) == Splice(Splice(s, q, y), p, x)
  {
    hide Splice;
  }

  /** Adds at words that partly overlap do not commute: a carry is lost in one order only. */
  lemma {:induction false} OverlapDoesNotCommute(size: nat, p: nat, q: nat) returns (s: seq<Byte>, v: int, w: int)
    requires p < q < p + 4 && q + 4 <= size
    ensures |s| == size
    ensures AddAt(AddAt(s, p, v), q, w) != AddAt(AddAt(s, q, w), p, v)
  {
    s, v, w := seq(size, _ => 0xFF), 1, Pow256(q - p);
    AllOnesAt(s, p);
    AllOnesAt(s, q);
    hide AddAt, WordAt, Be;
    WrapFirst(s, p, q, w);
    WrapLast(s, p, q, w);
  }

  /** With every byte 0xFF, adding 1 at p first wraps the word there to zero. */
  lemma {:induction false} WrapFirst(s: seq<Byte>, p: nat, q: nat, w: int)
    requires p < q < p + 4 && q + 4 <= |s| && WordAt(s, p) == TWO32 - 1
    ensures AddAt(AddAt(s, p, 1), q, w)[p] == 0
  {
    TopByte(0);
    hide ToBe, WordAt;
  }

  /** Adding at q first clears the byte at q, so that the word at p no longer wraps. */
  lemma {:induction false} WrapLast(s: seq<Byte>, p: nat, q: nat, w: int)
    requires p < q < p + 4 && q + 4 <= |s| && w == Pow256(q - p)
    requires forall k :: 0 <= k < |s| ==> s[k] == 0xFF
    requires WordAt(s, q) == TWO32 - 1
    ensures AddAt(AddAt(s, q, w), p, 1)[p] == 0xFF
  {
    var t := AddAt(s, q, w);
    assert t[q] == 0 && t[p] == 0xFF by {
      Pow256Values();
      assert 0 < w <= 0x100_0000;
      ClearTop(s, q, w);
    }
    hide AddAt;
    BumpLow(t, p, q - p);
  }

  lemma {:induction false} ClearTop(s: seq<Byte>, q: nat, w: int)
    requires q + 4 <= |s| && 0 < w <= 0x100_0000 && WordAt(s, q) == TWO32 - 1
    ensures AddAt(s, q, w)[q] == 0
  {
    assert (TWO32 - 1 + w) % TWO32 == w - 1;
    TopByte(w - 1);
    hide ToBe, WordAt;
  }

  lemma {:induction false} BumpLow(t: seq<Byte>, p: nat, k: nat)
    requires p + 4 <= |t| && 0 < k < 4 && t[p] == 0xFF && t[p + k] == 0
    ensures AddAt(t, p, 1)[p] == 0xFF
  {
    var bytes := t[p..p + 4];
    assert bytes[k] == 0 && bytes[0] == 0xFF;
    NotAllOnes(bytes, k);
    ToBeBe(bytes);
    var x := WordAt(t, p);
    TopByte(x);
    TopByte(x + 1);
    assert (x + 1) % TWO32 == x + 1;
    hide ToBe, WordAt;
  }

  lemma {:induction false} NotAllOnes(bytes: seq<Byte>, k: nat)
    requires |bytes| == 4 && k < 4 && bytes[k] == 0
    ensures Be(bytes) < TWO32 - 1
  {
    Pow256Values();
    if Be(bytes) == TWO32 - 1 {
      ToBeBe(bytes);
      var ones: seq<Byte> := [0xFF, 0xFF, 0xFF, 0xFF];
      AllOnes(ones);
      ToBeBe(ones);
    }
  }

  lemma {:induction false} TopByte(v: nat)
    requires v < TWO32
    ensures ToBe(v, 4)[0] == v / 0x100_0000
  {
    assert ToBe(v, 4)[0] == ToBe(v / 256, 3)[0] == ToBe(v / 256 / 256, 2)[0] == ToBe(v / 256 / 256 / 256, 1)[0];
  }

  lemma {:induction false} AllOnes(s: seq<Byte>)
    requires |s| == 4 && forall k :: 0 <= k < 4 ==> s[k] == 0xFF
    ensures Be(s) == TWO32 - 1
  {
    assert Be(s) == 256 * Be(s[..3]) + 0xFF;
    assert s[..3][..2] == s[..2] && s[..2][..1] == s[..1] && s[..1][..0] == [];
    assert Be(s[..3]) == 256 * Be(s[..2]) + 0xFF;
    assert Be(s[..2]) == 256 * Be(s[..1]) + 0xFF;
  }

  lemma {:induction false} AllOnesAt(s: seq<Byte>, p: nat)
    requires p + 4 <= |s| && forall k :: 0 <= k < |s| ==> s[k] == 0xFF
    ensures WordAt(s, p) == TWO32 - 1
  {
    AllOnes(s[p..p + 4]);
  }

  // ----- lists of patches

  /** Two lists of adds at the same places, and the list of their sums. */
  ghost predicate Sums(a: seq<Patch>, b: seq<Patch>, ab: seq<Patch>) {
    |a| == |b| == |ab| &&
    forall k :: 0 <= k < |a| ==> a[k].at == b[k].at == ab[k].at && ab[k].value == a[k].value + b[k].value
  }

  lemma {:induction false} AddPastAll(s: seq<Byte>, ps: seq<Patch>, q: nat, w: int)
    requires InRange(ps, |s|) && q + 4 <= |s|
    requires forall k :: 0 <= k < |ps| ==> Apart(ps[k].at, q)
    ensures AddAt(ApplyAll(s, ps), q, w) == ApplyAll(AddAt(s, q, w), ps)
    decreases |ps|
  {
    hide AddAt;
    if ps != [] {
      AddsCommute(s, ps[0].at, ps[0].value, q, w);
      AddPastAll(AddAt(s, ps[0].at, ps[0].value), ps[1..], q, w);
    }
  }

  /** Applying one list and then another at the same places is applying the sums, when no
      two places partly overlap. */
  lemma {:induction false} ApplySum(s: seq<Byte>, a: seq<Patch>, b: seq<Patch>, ab: seq<Patch>)
    requires Sums(a, b, ab) && InRange(a, |s|) && NonOverlapping(a)
    ensures InRange(b, |s|) && InRange(ab, |s|)
    ensures ApplyAll(ApplyAll(s, a), b) == ApplyAll(s, ab)
    decreases |a|
  {
    hide AddAt;
    assert InRange(b, |s|) && InRange(ab, |s|) by {
      forall k | 0 <= k < |a| ensures b[k].at + 4 <= |s| && ab[k].at + 4 <= |s| { assert a[k].at + 4 <= |s|; }
    }
    if a != [] {
      var p := a[0].at;
      var s1 := AddAt(s, p, a[0].value);
      AddPastAll(s1, a[1..], p, b[0].value);
      AddTwice(s, p, a[0].value, b[0].value);
      ApplySum(AddAt(s, p, ab[0].value), a[1..], b[1..], ab[1..]);
    }
  }

  lemma {:induction false} ApplyZeros(s: seq<Byte>, ps: seq<Patch>)
    requires InRange(ps, |s|) && forall k :: 0 <= k < |ps| ==> ps[k].value % TWO32 == 0
    ensures ApplyAll(s, ps) == s
    decreases |ps|
  {
    hide AddAt;
    if ps != [] {
      AddZero(s, ps[0].at, ps[0].value);
      ApplyZeros(s, ps[1..]);
    }
  }

  /** The total added at one place. */
  function TotalAt(ps: seq<Patch>, p: nat): int {
    if ps == [] then 0 else (if ps[0].at == p then ps[0].value else 0) + TotalAt(ps[1..], p)
  }

  /** A word no add partly overlaps ends as its start plus everything added exactly there. */
  lemma {:induction false} FinalWord(s: seq<Byte>, ps: seq<Patch>, p: nat)
    requires InRange(ps, |s|) && p + 4 <= |s|
    requires forall k :: 0 <= k < |ps| ==> Apart(ps[k].at, p)
    ensures WordAt(ApplyAll(s, ps), p) == (WordAt(s, p) + TotalAt(ps, p)) % TWO32
    decreases |ps|
  {
    hide AddAt, WordAt;
    if ps == [] {
      assert WordAt(s, p) % TWO32 == WordAt(s, p);
    } else {
      var s1 := AddAt(s, ps[0].at, ps[0].value);
      if ps[0].at == p {
        WordAfterAdd(s, p, ps[0].value);
        ModSum(WordAt(s, p), ps[0].value, TotalAt(ps[1..], p));
      } else {
        WordApart(s, ps[0].at, ps[0].value, p);
      }
      FinalWord(s1, ps[1..], p);
    }
  }

  /** A byte no add covers is unchanged. */
  lemma {:induction false} UntouchedByte(s: seq<Byte>, ps: seq<Patch>, i: nat)
    requires InRange(ps, |s|) && i < |s|
    requires forall k :: 0 <= k < |ps| ==> !(ps[k].at <= i < ps[k].at + 4)
    ensures ApplyAll(s, ps)[i] == s[i]
    decreases |ps|
  {
    if ps != [] {
      UntouchedByte(AddAt(s, ps[0].at, ps[0].value), ps[1..], i);
    }
  }

  // ----- the condition is exact

  function At(places: seq<nat>, values: seq<int>): (ps: seq<Patch>)
    requires |values| == |places|
  {
    seq(|places|, k requires 0 <= k < |places| => Patch(places[k], values[k]))
  }

  ghost predicate Additive(places: seq<nat>, size: nat) {
    forall s: seq<Byte>, a: seq<int>, b: seq<int> ::
      |s| == size && |a| == |b| == |places| && InRange(At(places, a), size) && InRange(At(places, b), size) ==>
        AdditiveOn(places, s, a, b)
  }

  ghost predicate AdditiveOn(places: seq<nat>, s: seq<Byte>, a: seq<int>, b: seq<int>)
    requires |a| == |b| == |places|
    requires InRange(At(places, a), |s|) && InRange(At(places, b), |s|)
  {
    var ab := At(places, seq(|places|, k requires 0 <= k < |places| => a[k] + b[k]));
    InRange(ab, |s|) && ApplyAll(ApplyAll(s, At(places, a)), At(places, b)) == ApplyAll(s, ab)
  }

  function Single(n: nat, at: nat, v: int): seq<int> {
    seq(n, k => if k == at then v else 0)
  }

  lemma {:induction false} ApplyOnly(s: seq<Byte>, ps: seq<Patch>, i: nat)
    requires InRange(ps, |s|) && i < |ps|
    requires forall k :: 0 <= k < |ps| && k != i ==> ps[k].value == 0
    ensures ApplyAll(s, ps) == AddAt(s, ps[i].at, ps[i].value)
    decreases |ps|
  {
    hide AddAt;
    var s1 := AddAt(s, ps[0].at, ps[0].value);
    if i == 0 {
      ApplyZeros(s1, ps[1..]);
    } else {
      AddZero(s, ps[0].at, 0);
      ApplyOnly(s, ps[1..], i - 1);
    }
  }

  lemma {:induction false} ApplyOnlyTwo(s: seq<Byte>, ps: seq<Patch>, i: nat, j: nat)
    requires InRange(ps, |s|) && i < j < |ps|
    requires forall k :: 0 <= k < |ps| && k != i && k != j ==> ps[k].value == 0
    ensures ApplyAll(s, ps) == AddAt(AddAt(s, ps[i].at, ps[i].value), ps[j].at, ps[j].value)
    decreases |ps|
  {
    hide AddAt;
    var s1 := AddAt(s, ps[0].at, ps[0].value);
    if i == 0 {
      ApplyOnly(s1, ps[1..], j - 1);
    } else {
      AddZero(s, ps[0].at, 0);
      ApplyOnlyTwo(s, ps[1..], i - 1, j - 1);
    }
  }

  /** For a list of places, rebasing in two steps always equals rebasing once exactly when no
      two of the places partly overlap. */
  lemma {:induction false} AdditiveIffNonOverlapping(places: seq<nat>, size: nat)
    requires forall k :: 0 <= k < |places| ==> places[k] + 4 <= size
    ensures Additive(places, size) <==> forall i, j :: 0 <= i < j < |places| ==> Apart(places[i], places[j])
  {
    hide AddAt, ApplyAll;
    if forall i, j :: 0 <= i < j < |places| ==> Apart(places[i], places[j]) {
      forall s: seq<Byte>, a: seq<int>, b: seq<int> |
        |s| == size && |a| == |b| == |places| && InRange(At(places, a), size) && InRange(At(places, b), size)
        ensures AdditiveOn(places, s, a, b)
      {
        var ab := At(places, seq(|places|, k requires 0 <= k < |places| => a[k] + b[k]));
        assert Sums(At(places, a), At(places, b), ab);
        ApplySum(s, At(places, a), At(places, b), ab);
      }
    } else {
      var i, j :| 0 <= i < j < |places| && !Apart(places[i], places[j]);
      var s, v, w := OverlapEitherWay(size, places[i], places[j]);
      var n := |places|;
      var a, b := Single(n, j, w), Single(n, i, v);
      var ab := At(places, seq(n, k requires 0 <= k < n => a[k] + b[k]));
      ApplyOnly(s, At(places, a), j);
      ApplyOnly(ApplyAll(s, At(places, a)), At(places, b), i);
      ApplyOnlyTwo(s, ab, i, j);
      assert !AdditiveOn(places, s, a, b) by {
        assert ApplyAll(ApplyAll(s, At(places, a)), At(places, b)) == AddAt(AddAt(s, places[j], w), places[i], v);
        assert ApplyAll(s, ab) == AddAt(AddAt(s, places[i], v), places[j], w);
      }
    }
  }

  lemma {:induction false} OverlapEitherWay(size: nat, p: nat, q: nat) returns (s: seq<Byte>, v: int, w: int)
    requires !Apart(p, q) && p + 4 <= size && q + 4 <= size
    ensures |s| == size
    ensures AddAt(AddAt(s, p, v), q, w) != AddAt(AddAt(s, q, w), p, v)
  {
    if p < q {
      s, v, w := OverlapDoesNotCommute(size, p, q);
    } else {
      s, w, v := OverlapDoesNotCommute(size, q, p);
    }
  }

  // ----- where values are shared, overlaps can cancel out

  /** The same add, n times, and then another one. */
  function ManyThen(n: nat, p: nat, v: int, q: nat, w: int): (ps: seq<Patch>)
    ensures |ps| == n + 1
    ensures forall k :: 0 <= k < n ==> ps[k] == Patch(p, v)
    ensures ps[n] == Patch(q, w)
  {
    seq(n, _ => Patch(p, v)) + [Patch(q, w)]
  }

  lemma {:induction false} ManyAdds(s: seq<Byte>, ps: seq<Patch>, n: nat, p: nat, v: int, q: nat, w: int)
    requires |ps| == n + 1 && (forall k :: 0 <= k < n ==> ps[k] == Patch(p, v)) && ps[n] == Patch(q, w)
    requires p + 4 <= |s| && q + 4 <= |s|
    ensures InRange(ps, |s|) && ApplyAll(s, ps) == AddAt(AddAt(s, p, n * v), q, w)
    decreases n
  {
    hide AddAt;
    if n == 0 {
      AddZero(s, p, 0);
      assert ps == [Patch(q, w)] && ps[1..] == [];
    } else {
      ManyAdds(AddAt(s, p, v), ps[1..], n - 1, p, v, q, w);
      AddTwice(s, p, v, (n - 1) * v);
      assert v + (n - 1) * v == n * v;
    }
  }

  lemma {:induction false} HighSum(x: nat, low: Byte, v: int)
    requires x < 0x100_0000
    ensures (256 * x + low + 256 * v) % TWO32 == 256 * ((x + v) % 0x100_0000) + low
  {
    var q, r := (x + v) / 0x100_0000, (x + v) % 0x100_0000;
    assert 256 * x + low + 256 * v == q * TWO32 + (256 * r + low);
  }

  lemma {:induction false} WordHigh(s: seq<Byte>)
    requires |s| >= 4
    ensures Be(s[..3]) < 0x100_0000 && WordAt(s, 0) == 256 * Be(s[..3]) + s[3]
  {
    assert s[0..4][..3] == s[..3];
    Pow256Values();
  }

  lemma {:induction false} ToBeHigh(high: int, low: Byte)
    ensures ToBe(256 * high + low, 4) == ToBe(high, 3) + [low]
  {
    assert (256 * high + low) / 256 == high;
  }

  /** Adding 256 times v to a word leaves its last byte alone. */
  lemma {:induction false} HighAdd(s: seq<Byte>, v: int)
    requires |s| >= 4
    ensures AddAt(s, 0, 256 * v) == Splice(s, 0, ToBe((Be(s[..3]) + v) % 0x100_0000, 3))
  {
    hide ToBe, Be, WordAt, AddAt;
    var x, low := Be(s[..3]), s[3];
    WordHigh(s);
    HighSum(x, low, v);
    AddAtIs(s, 0, 256 * v, 256 * x + low);
    ToBeHigh((x + v) % 0x100_0000, low);
  }

  lemma {:induction false} HighAddsCommute(s: seq<Byte>, v: int, w: int)
    requires |s| >= 7
    ensures AddAt(AddAt(s, 0, 256 * v), 3, w) == AddAt(AddAt(s, 3, w), 0, 256 * v)
  {
    hide AddAt, ToBe, Be, WordAt, Splice;
    var x, n := Be(s[..3]), WordAt(s, 3);
    var high, low := ToBe((x + v) % 0x100_0000, 3), ToBe((n + w) % TWO32, 4);
    HighAdd(s, v);
    AddAtIs(s, 3, w, n);
    SameWord(Splice(s, 0, high), s, 3);
    AddAtIs(Splice(s, 0, high), 3, w, n);
    var u := Splice(s, 3, low);
    assert u[..3] == s[..3];
    HighAdd(u, v);
    SpliceApart(s, 0, high, 3, low);
  }

  lemma {:induction false} SameWord(t: seq<Byte>, s: seq<Byte>, p: nat)
    requires |t| == |s| && p + 4 <= |s| && forall k :: p <= k < p + 4 ==> t[k] == s[k]
    ensures WordAt(t, p) == WordAt(s, p)
  {
    assert t[p..p + 4] == s[p..p + 4];
  }

  /** Adding one value 256 times leaves the word's last byte alone, so these adds overlap another one
      and are still additive in the two values. */
  lemma {:induction false} OverlapMayCancel(s: seq<Byte>, v1: int, w1: int, v2: int, w2: int)
    requires |s| >= 7
    ensures InRange(ManyThen(256, 0, v1, 3, w1), |s|) && !NonOverlapping(ManyThen(256, 0, v1, 3, w1))
    ensures InRange(ManyThen(256, 0, v2, 3, w2), |s|) && InRange(ManyThen(256, 0, v1 + v2, 3, w1 + w2), |s|)
    ensures ApplyAll(ApplyAll(s, ManyThen(256, 0, v1, 3, w1)), ManyThen(256, 0, v2, 3, w2)) ==
            ApplyAll(s, ManyThen(256, 0, v1 + v2, 3, w1 + w2))
  {
    hide AddAt, ManyThen, ApplyAll;
    var first, t := ManyThen(256, 0, v1, 3, w1), AddAt(s, 0, 256 * v1);
    ManyAdds(s, first, 256, 0, v1, 3, w1);
    ManyAdds(AddAt(t, 3, w1), ManyThen(256, 0, v2, 3, w2), 256, 0, v2, 3, w2);
    ManyAdds(s, ManyThen(256, 0, v1 + v2, 3, w1 + w2), 256, 0, v1 + v2, 3, w1 + w2);
    HighAddsCommute(t, v2, w1);
    AddTwice(s, 0, 256 * v1, 256 * v2);
    AddTwice(AddAt(t, 0, 256 * v2), 3, w1, w2);
    assert !Apart(first[0].at, first[256].at);
  }
}
