/** Calls into and out of the guest (src/cwhost/guest.py): argument words, `call`, scratch memory and
    trap slots. */
module GuestCalls {
  import opened Alignment
  import opened Bytes
  import opened Wrappers
  import G = Guest

  type Word = x: int | 0 <= x < TWO32
  type Bits = x: int | 0 <= x < TWO64
  const TWO64 := 0x1_0000_0000_0000_0000

  datatype Kind = U32 | Ptr | S16 | U16 | U8 | F64 | U64 | S64 | Other(name: string)

  /** An argument as the host sees it; a double is its 64 bits. */
  datatype Arg = Int(n: int) | Float(bits: Bits)

  /** The state `save_regs` captures. */
  datatype RegisterFile = RegisterFile(gpr: seq<Word>, fpr: seq<Bits>, pc: Word, lr: Word, special: seq<int>)

  type Registers = r: RegisterFile | |r.gpr| == 32 && |r.fpr| == 32
    witness RegisterFile(seq(32, _ => 0), seq(32, _ => 0), 0, 0, [])

  // ----- the argument words

  ghost function U32At(mem: G.Memory, addr: int): Option<Word> {
    var a := addr % TWO32;
    if G.Mapped(mem, a, 4) then WordIsBounded(G.Load(mem, a, 4)); Some(Be(G.Load(mem, a, 4))) else None
  }

  lemma {:induction false} WordIsBounded(s: seq<Byte>)
    requires |s| == 4
    ensures Be(s) < TWO32
  {
    Pow256Values();
  }

  /** Word k of the argument area: a register for the first eight, then the caller's stack. */
  ghost function WordAt(regs: Registers, mem: G.Memory, k: nat): Option<Word> {
    if k < 8 then Some(regs.gpr[3 + k]) else U32At(mem, regs.gpr[1] + 24 + 4 * k)
  }

  ghost function Stream(regs: Registers, mem: G.Memory, k: nat, n: nat): (ws: seq<Option<Word>>)
    ensures |ws| == n && forall i :: 0 <= i < n ==> ws[i] == WordAt(regs, mem, k + i)
  {
    seq(n, i requires 0 <= i => WordAt(regs, mem, k + i))
  }

  function FloatAt(regs: Registers, i: nat): Option<Bits> {
    if 1 + i <= 31 then Some(regs.fpr[1 + i]) else None
  }

  function Floats(regs: Registers, i: nat, n: nat): (fs: seq<Option<Bits>>)
    ensures |fs| == n && forall j :: 0 <= j < n ==> fs[j] == FloatAt(regs, i + j)
  {
    seq(n, j requires 0 <= j => FloatAt(regs, i + j))
  }

  function Width(k: Kind): nat {
    if k.F64? || k.U64? || k.S64? then 2 else 1
  }

  function Words(spec: seq<Kind>): nat {
    if spec == [] then 0 else Width(spec[0]) + Words(spec[1..])
  }

  function Doubles(spec: seq<Kind>): nat {
    if spec == [] then 0 else (if spec[0].F64? then 1 else 0) + Doubles(spec[1..])
  }

  /** A 16-bit pattern as a signed number, and a 64-bit one. */
  function Signed(x: int, size: int): int {
    if x >= size / 2 then x - size else x
  }

  /** The argument that a flat stream of words, and of doubles, starts with. */
  function DecodeOne(k: Kind, ws: seq<Option<Word>>, f: Option<Bits>): Option<Arg>
    requires |ws| == Width(k)
  {
    match k
    case F64 => if f.Some? then Some(Float(f.value)) else None
    case U64 => if Known(ws) then Some(Int(Joined(ws))) else None
    case S64 => if Known(ws) then Some(Int(Signed(Joined(ws), TWO64))) else None
    case U8 => if Known(ws) then Some(Int(ws[0].value % 0x100)) else None
    case U16 => if Known(ws) then Some(Int(ws[0].value % 0x1_0000)) else None
    case S16 => if Known(ws) then Some(Int(Signed(ws[0].value % 0x1_0000, 0x1_0000))) else None
    case U32 => if Known(ws) then Some(Int(ws[0].value)) else None
    case Ptr => if Known(ws) then Some(Int(ws[0].value)) else None
    case Other(_) => None
  }

  predicate Known(ws: seq<Option<Word>>) {
    forall i :: 0 <= i < |ws| ==> ws[i].Some?
  }

  function Joined(ws: seq<Option<Word>>): (x: int)
    requires |ws| == 2 && Known(ws)
    ensures 0 <= x < TWO64
  {
    ws[0].value * TWO32 + ws[1].value
  }

  function Then(vs: seq<Arg>, rest: Option<seq<Arg>>): Option<seq<Arg>> {
    if rest.Some? then Some(vs + rest.value) else None
  }

  /** The reference: arguments are cut off a flat stream one after the other. */
  function Decode(spec: seq<Kind>, ws: seq<Option<Word>>, fs: seq<Option<Bits>>): Option<seq<Arg>>
    requires |ws| == Words(spec) && |fs| == Doubles(spec)
    decreases |spec|
  {
    if spec == [] then Some([])
    else
      var k := spec[0];
      var f := if k.F64? then 1 else 0;
      var first := DecodeOne(k, ws[..Width(k)], if k.F64? then fs[0] else None);
      if first.None? then None else Then([first.value], Decode(spec[1..], ws[Width(k)..], fs[f..]))
  }

  // ----- what a caller puts in the stream

  /** The argument is in its type's range. */
  predicate Fits(k: Kind, v: Arg) {
    match k
    case F64 => v.Float?
    case Other(_) => false
    case U8 => v.Int? && 0 <= v.n < 0x100
    case U16 => v.Int? && 0 <= v.n < 0x1_0000
    case S16 => v.Int? && -0x8000 <= v.n < 0x8000
    case U64 => v.Int? && 0 <= v.n < TWO64
    case S64 => v.Int? && -TWO64 / 2 <= v.n < TWO64 / 2
    case _ => v.Int? && 0 <= v.n < TWO32
  }

  /** What the callee looks at: the low bits only. */
  function Low(k: Kind, w: Word): Word {
    if k.U8? then w % 0x100 else if k.U16? || k.S16? then w % 0x1_0000 else w
  }

  /** The words a caller places for an integer: two's complement, high word first. */
  function PlaceInt(k: Kind, n: int): (ws: seq<Word>)
    ensures |ws| == Width(k)
  {
    if k.F64? || k.U64? || k.S64? then [n / TWO32 % TWO32, n % TWO32] else [n % TWO32]
  }

  /** The stream holds the argument; the two words beside a double may hold anything. */
  ghost predicate HoldsOne(k: Kind, v: Arg, ws: seq<Option<Word>>, f: Option<Bits>)
    requires |ws| == Width(k)
  {
    Fits(k, v) &&
    match v
    case Float(bits) => f == Some(bits)
    case Int(n) => forall i :: 0 <= i < |ws| ==> SameSeen(k, ws[i], PlaceInt(k, n)[i])
  }

  predicate SameSeen(k: Kind, w: Option<Word>, placed: Word) {
    w.Some? && Low(k, w.value) == Low(k, placed)
  }

  ghost predicate Holds(spec: seq<Kind>, vs: seq<Arg>, ws: seq<Option<Word>>, fs: seq<Option<Bits>>)
    requires |ws| == Words(spec) && |fs| == Doubles(spec)
    decreases |spec|
  {
    if spec == [] || vs == [] then spec == [] && vs == []
    else
      var k := spec[0];
      var f := if k.F64? then 1 else 0;
      HoldsOne(k, vs[0], ws[..Width(k)], if k.F64? then fs[0] else None) &&
      Holds(spec[1..], vs[1..], ws[Width(k)..], fs[f..])
  }

  lemma {:induction false} LowBits(n: int, m: int)
    requires m in {0x100, 0x1_0000}
    ensures n % TWO32 % m == n % m
  {
    var q := n / TWO32;
    assert n == q * TWO32 + n % TWO32;
    if m == 0x100 {
      assert n % TWO32 == n - 0x100 * (0x100_0000 * q);
    } else {
      assert n % TWO32 == n - 0x1_0000 * (0x1_0000 * q);
    }
  }

  lemma {:induction false} SignedIs(x: int, n: int, size: int)
    requires size in {0x1_0000, TWO64} && 0 <= x < size
    ensures Signed(x, size) == n <==> -size / 2 <= n < size / 2 && x == n % size
  {
    if -size / 2 <= n < 0 {
      assert n % size == n + size;
    }
  }

  lemma {:induction false} Halves(h: Word, l: Word, n: int)
    ensures (h == n / TWO32 % TWO32 && l == n % TWO32) <==> h * TWO32 + l == n % TWO64
  {
    var q, r := n / TWO32, n % TWO32;
    var p, s := q / TWO32, q % TWO32;
    assert n == p * TWO64 + (s * TWO32 + r);
    assert 0 <= s * TWO32 + r < TWO64;
    assert n % TWO64 == s * TWO32 + r;
  }

  lemma {:induction false} DecodesOneHeld(k: Kind, v: Arg, ws: seq<Option<Word>>, f: Option<Bits>)
    requires |ws| == Width(k)
    ensures DecodeOne(k, ws, f) == Some(v) <==> HoldsOne(k, v, ws, f)
  {
    match v
    case Float(_) =>
    case Int(n) =>
      if k.U64? || k.S64? {
        WideHeld(k, n, ws, f);
      } else if !k.F64? && !k.Other? {
        NarrowHeld(k, n, ws, f);
      }
  }

  lemma {:induction false} NarrowHeld(k: Kind, n: int, ws: seq<Option<Word>>, f: Option<Bits>)
    requires |ws| == 1 == Width(k) && !k.Other?
    ensures DecodeOne(k, ws, f) == Some(Int(n)) <==> HoldsOne(k, Int(n), ws, f)
  {
    hide Fits, DecodeOne, PlaceInt, Low;
    assert HoldsOne(k, Int(n), ws, f) <==> Fits(k, Int(n)) && SameSeen(k, ws[0], PlaceInt(k, n)[0]);
    NarrowWord(k, n, ws[0], f);
    assert ws == [ws[0]];
  }

  /** The low byte or half of a word, the half signed for s16, or all of it. */
  function Narrow(k: Kind, x: Word): int {
    if k.U8? then x % 0x100
    else if k.U16? then x % 0x1_0000
    else if k.S16? then (if x % 0x1_0000 < 0x8000 then x % 0x1_0000 else x % 0x1_0000 - 0x1_0000)
    else x
  }

  lemma {:induction false} DecodeNarrow(k: Kind, x: Word, f: Option<Bits>)
    requires 1 == Width(k) && !k.Other?
    ensures DecodeOne(k, [Some(x)], f) == Some(Int(Narrow(k, x)))
  {
  }

  lemma {:induction false} NarrowFits(k: Kind, n: int, x: Word)
    requires 1 == Width(k) && !k.Other?
    ensures Narrow(k, x) == n <==> Fits(k, Int(n)) && Low(k, x) == Low(k, n % TWO32)
  {
    if k.U8? {
      LowBits(n, 0x100);
    } else if k.U16? || k.S16? {
      LowBits(n, 0x1_0000);
      SignedIs(x % 0x1_0000, n, 0x1_0000);
    }
  }

  /** One word: the value it decodes to is n exactly when its low bits are n's. */
  lemma {:induction false} NarrowWord(k: Kind, n: int, w: Option<Word>, f: Option<Bits>)
    requires 1 == Width(k) && !k.Other?
    ensures DecodeOne(k, [w], f) == Some(Int(n)) <==> Fits(k, Int(n)) && SameSeen(k, w, PlaceInt(k, n)[0])
  {
    if w.None? {
      assert [w][0].None?;
    } else {
      DecodeNarrow(k, w.value, f);
      NarrowFits(k, n, w.value);
      OnePlaced(k, n);
      hide DecodeOne, Narrow, Fits, Low, PlaceInt;
      assert [w] == [Some(w.value)];
    }
  }

  lemma {:induction false} OnePlaced(k: Kind, n: int)
    requires 1 == Width(k)
    ensures PlaceInt(k, n) == [n % TWO32]
  {
  }

  lemma {:induction false} WideHeld(k: Kind, n: int, ws: seq<Option<Word>>, f: Option<Bits>)
    requires |ws| == 2 && (k.U64? || k.S64?)
    ensures DecodeOne(k, ws, f) == Some(Int(n)) <==> HoldsOne(k, Int(n), ws, f)
  {
    hide Signed, Joined, PlaceInt;
    var placed := PlaceInt(k, n);
    assert HoldsOne(k, Int(n), ws, f) <==>
           Fits(k, Int(n)) && SameSeen(k, ws[0], placed[0]) && SameSeen(k, ws[1], placed[1]);
    if Known(ws) {
      JoinedIs(k, ws, n);
      SignedIs(Joined(ws), n, TWO64);
    }
  }

  lemma {:induction false} JoinedIs(k: Kind, ws: seq<Option<Word>>, n: int)
    requires |ws| == 2 && Known(ws) && (k.U64? || k.S64?)
    ensures (PlaceInt(k, n)[0] == ws[0].value && PlaceInt(k, n)[1] == ws[1].value) <==> Joined(ws) == n % TWO64
  {
    Halves(ws[0].value, ws[1].value, n);
  }

  /** Decoding inverts placing, for every signature: values come back exactly when the stream holds them. */
  lemma {:induction false} DecodesHeld(spec: seq<Kind>, vs: seq<Arg>, ws: seq<Option<Word>>, fs: seq<Option<Bits>>)
    requires |ws| == Words(spec) && |fs| == Doubles(spec)
    ensures Decode(spec, ws, fs) == Some(vs) <==> Holds(spec, vs, ws, fs)
    decreases |spec|
  {
    hide DecodeOne, HoldsOne, Width;
    if spec != [] && vs != [] {
      var k := spec[0];
      var f := if k.F64? then 1 else 0;
      DecodesOneHeld(k, vs[0], ws[..Width(k)], if k.F64? then fs[0] else None);
      DecodesHeld(spec[1..], vs[1..], ws[Width(k)..], fs[f..]);
      assert vs == [vs[0]] + vs[1..];
    }
  }

  lemma {:induction false} UnknownFails(spec: seq<Kind>, ws: seq<Option<Word>>, fs: seq<Option<Bits>>, i: nat)
    requires |ws| == Words(spec) && |fs| == Doubles(spec) && i < |spec| && spec[i].Other?
    ensures Decode(spec, ws, fs).None?
    decreases |spec|
  {
    if i > 0 {
      var k := spec[0];
      UnknownFails(spec[1..], ws[Width(k)..], fs[if k.F64? then 1 else 0..], i - 1);
    }
  }

  ghost predicate AllFit(spec: seq<Kind>, vs: seq<Arg>) {
    |vs| == |spec| && forall i :: 0 <= i < |spec| ==> Fits(spec[i], vs[i])
  }

  /** The whole stream a caller lays out; the words beside a double are left open. */
  function Place(spec: seq<Kind>, vs: seq<Arg>): (ws: seq<Option<Word>>)
    requires |vs| == |spec|
    ensures |ws| == Words(spec)
  {
    if spec == [] then []
    else
      (match vs[0]
       case Int(n) => var ws := PlaceInt(spec[0], n); seq(Width(spec[0]), i requires 0 <= i < |ws| => Some(ws[i]))
       case Float(_) => seq(Width(spec[0]), _ => None)) + Place(spec[1..], vs[1..])
  }

  function PlaceDoubles(spec: seq<Kind>, vs: seq<Arg>): (fs: seq<Option<Bits>>)
    requires |vs| == |spec|
    ensures |fs| == Doubles(spec)
  {
    if spec == [] then []
    else
      (if spec[0].F64? then [if vs[0].Float? then Some(vs[0].bits) else None] else []) +
      PlaceDoubles(spec[1..], vs[1..])
  }

  ghost predicate Covers<T>(actual: seq<Option<T>>, placed: seq<Option<T>>) {
    |actual| == |placed| && forall i :: 0 <= i < |placed| && placed[i].Some? ==> actual[i] == placed[i]
  }

  lemma {:induction false} CoversPart<T>(actual: seq<Option<T>>, a: seq<Option<T>>, b: seq<Option<T>>)
    requires Covers(actual, a + b)
    ensures |a| <= |actual| && Covers(actual[..|a|], a) && Covers(actual[|a|..], b)
  {
    forall i | 0 <= i < |a| && a[i].Some? ensures actual[i] == a[i] {
      assert (a + b)[i] == a[i];
    }
    forall i | 0 <= i < |b| && b[i].Some? ensures actual[|a|..][i] == b[i] {
      assert (a + b)[|a| + i] == b[i];
    }
  }

  /** A stream laid out by a caller holds the arguments it was laid out for. */
  lemma {:induction false} PlacedHolds(spec: seq<Kind>, vs: seq<Arg>, ws: seq<Option<Word>>, fs: seq<Option<Bits>>)
    requires AllFit(spec, vs) && Covers(ws, Place(spec, vs)) && Covers(fs, PlaceDoubles(spec, vs))
    ensures Holds(spec, vs, ws, fs)
    decreases |spec|
  {
    hide Fits, Low;
    if spec != [] {
      var k, v := spec[0], vs[0];
      var f := if k.F64? then 1 else 0;
      var mine := Place(spec, vs)[..Width(k)];
      var mineF := PlaceDoubles(spec, vs)[..f];
      SplitPlaced(spec, vs);
      CoversPart(ws, mine, Place(spec[1..], vs[1..]));
      CoversPart(fs, mineF, PlaceDoubles(spec[1..], vs[1..]));
      PlacedHolds(spec[1..], vs[1..], ws[Width(k)..], fs[f..]);
      FloatKind(k, v);
      if v.Float? {
        assert mineF[0].Some?;
      } else {
        forall i | 0 <= i < Width(k) ensures ws[..Width(k)][i] == Some(PlaceInt(k, v.n)[i]) {
          assert mine[i].Some?;
        }
      }
      PlacedHoldsOne(k, v, ws[..Width(k)], if k.F64? then fs[0] else None);
    }
  }

  lemma {:induction false} FloatKind(k: Kind, v: Arg)
    requires Fits(k, v)
    ensures k.F64? <==> v.Float?
  {
  }

  lemma {:induction false} SplitPlaced(spec: seq<Kind>, vs: seq<Arg>)
    requires AllFit(spec, vs) && spec != []
    ensures AllFit(spec[1..], vs[1..]) && Fits(spec[0], vs[0])
    ensures Place(spec, vs) == Place(spec, vs)[..Width(spec[0])] + Place(spec[1..], vs[1..])
    ensures vs[0].Int? ==> forall i :: 0 <= i < Width(spec[0]) ==>
            Place(spec, vs)[i] == Some(PlaceInt(spec[0], vs[0].n)[i])
    ensures var f := if spec[0].F64? then 1 else 0;
            PlaceDoubles(spec, vs) == PlaceDoubles(spec, vs)[..f] + PlaceDoubles(spec[1..], vs[1..]) &&
            (f == 1 ==> vs[0].Float? && PlaceDoubles(spec, vs)[0] == Some(vs[0].bits))
  {
    hide PlaceInt;
    assert Fits(spec[0], vs[0]);
  }

  lemma {:induction false} PlacedHoldsOne(k: Kind, v: Arg, ws: seq<Option<Word>>, f: Option<Bits>)
    requires |ws| == Width(k) && Fits(k, v)
    requires v.Int? ==> forall i :: 0 <= i < |ws| ==> ws[i] == Some(PlaceInt(k, v.n)[i])
    requires v.Float? ==> f == Some(v.bits)
    ensures HoldsOne(k, v, ws, f)
  {
    hide Fits, PlaceInt, Low;
  }

  // ----- reading them

  ghost function From(spec: seq<Kind>, regs: Registers, mem: G.Memory, word: nat, float: nat): Option<seq<Arg>> {
    Decode(spec, Stream(regs, mem, word, Words(spec)), Floats(regs, float, Doubles(spec)))
  }

  lemma {:induction false} Append(a: seq<Arg>, b: seq<Arg>, r: Option<seq<Arg>>)
    ensures Then(a, Then(b, r)) == Then(a + b, r)
  {
    if r.Some? { assert a + (b + r.value) == a + b + r.value; }
  }

  lemma {:induction false} FromStep(spec: seq<Kind>, regs: Registers, mem: G.Memory, word: nat, float: nat)
    requires spec != []
    ensures var k := spec[0];
            var first := DecodeOne(k, Stream(regs, mem, word, Width(k)), if k.F64? then FloatAt(regs, float) else None);
            From(spec, regs, mem, word, float) ==
            if first.None? then None
            else Then([first.value], From(spec[1..], regs, mem, word + Width(k), float + if k.F64? then 1 else 0))
  {
    hide DecodeOne, WordAt, FloatAt;
    var k, n := spec[0], Words(spec);
    var ws, fs := Stream(regs, mem, word, n), Floats(regs, float, Doubles(spec));
    var f := if k.F64? then 1 else 0;
    SameItems(ws[..Width(k)], Stream(regs, mem, word, Width(k)));
    SameItems(ws[Width(k)..], Stream(regs, mem, word + Width(k), n - Width(k)));
    SameItems(fs[f..], Floats(regs, float + f, Doubles(spec) - f));
  }

  lemma {:induction false} NoneBefore(r: Option<seq<Arg>>)
    ensures Then([], r) == r
  {
    if r.Some? { assert [] + r.value == r.value; }
  }

  lemma {:induction false} FromNone(regs: Registers, mem: G.Memory, word: nat, float: nat)
    ensures From([], regs, mem, word, float) == Some([])
  {
  }

  lemma {:induction false} FromUnknown(spec: seq<Kind>, regs: Registers, mem: G.Memory, i: nat)
    requires i < |spec| && spec[i].Other?
    ensures From(spec, regs, mem, 0, 0).None?
  {
    UnknownFails(spec, Stream(regs, mem, 0, Words(spec)), Floats(regs, 0, Doubles(spec)), i);
  }

  lemma {:induction false} SameItems<T>(a: seq<T>, b: seq<T>)
    requires |a| == |b| && forall i :: 0 <= i < |a| ==> a[i] == b[i]
    ensures a == b
  {
  }

  /** Arguments a caller laid out in registers and stack are what `args` returns. */
  lemma {:induction false} PlacedIsRead(spec: seq<Kind>, vs: seq<Arg>, regs: Registers, mem: G.Memory)
    requires AllFit(spec, vs)
    requires Covers(Stream(regs, mem, 0, Words(spec)), Place(spec, vs))
    requires Covers(Floats(regs, 0, Doubles(spec)), PlaceDoubles(spec, vs))
    ensures From(spec, regs, mem, 0, 0) == Some(vs)
  {
    var ws, fs := Stream(regs, mem, 0, Words(spec)), Floats(regs, 0, Doubles(spec));
    PlacedHolds(spec, vs, ws, fs);
    DecodesHeld(spec, vs, ws, fs);
  }

  // ----- each argument by itself

  /** How many arguments before the i-th are 64 bits wide, and how many of those are doubles. */
  function WideBefore(spec: seq<Kind>, i: nat): nat
    requires i <= |spec|
  {
    if i == 0 then 0 else WideBefore(spec, i - 1) + if spec[i - 1] in {F64, U64, S64} then 1 else 0
  }

  function DoublesBefore(spec: seq<Kind>, i: nat): nat
    requires i <= |spec|
  {
    if i == 0 then 0 else DoublesBefore(spec, i - 1) + if spec[i - 1].F64? then 1 else 0
  }

  /** Argument word w: GPR 3 + w for the first eight, then the caller's frame from byte 56 on. */
  ghost function ArgWord(regs: Registers, mem: G.Memory, w: nat): Option<Word> {
    if w < 8 then Some(regs.gpr[3 + w]) else U32At(mem, regs.gpr[1] + 56 + 4 * (w - 8))
  }

  /** Two words, the high one first. */
  function Wide(k: Kind, high: Word, low: Word): int {
    high * TWO32 + low - if k.S64? && high >= 0x8000_0000 then TWO64 else 0
  }

  /** An argument of this kind whose words start at w, f doubles being before it. */
  ghost function ArgAt(k: Kind, regs: Registers, mem: G.Memory, w: nat, f: nat): Option<Arg> {
    var first, second := ArgWord(regs, mem, w), ArgWord(regs, mem, w + 1);
    if k.Other? || (k.F64? && f >= 31) then None
    else if k.F64? then Some(Float(regs.fpr[1 + f]))
    else if first.None? || (k in {U64, S64} && second.None?) then None
    else if k in {U64, S64} then Some(Int(Wide(k, first.value, second.value)))
    else Some(Int(Narrow(k, first.value)))
  }

  lemma {:induction false} DecodeOneIs(k: Kind, regs: Registers, mem: G.Memory, w: nat, f: nat)
    ensures DecodeOne(k, Stream(regs, mem, w, Width(k)), if k.F64? then FloatAt(regs, f) else None) ==
            ArgAt(k, regs, mem, w, f)
  {
    hide U32At;
    var ws := Stream(regs, mem, w, Width(k));
    assert ws[0] == WordAt(regs, mem, w) == ArgWord(regs, mem, w);
    if Width(k) == 2 {
      assert ws[1] == WordAt(regs, mem, w + 1) == ArgWord(regs, mem, w + 1);
      if k.S64? && Known(ws) {
        assert Joined(ws) >= TWO64 / 2 <==> ws[0].value >= 0x8000_0000;
      }
    }
  }

  lemma {:induction false} BeforeTail(spec: seq<Kind>, i: nat)
    requires 0 < i <= |spec|
    ensures WideBefore(spec, i) == (if spec[0] in {F64, U64, S64} then 1 else 0) + WideBefore(spec[1..], i - 1)
    ensures DoublesBefore(spec, i) == (if spec[0].F64? then 1 else 0) + DoublesBefore(spec[1..], i - 1)
    decreases i
  {
    if i > 1 { BeforeTail(spec, i - 1); }
  }

  /** The i-th argument: its words are as many on as there are arguments before it, the wide ones counting twice;
      doubles come from the floating-point registers in order. */
  ghost function Nth(spec: seq<Kind>, i: nat, regs: Registers, mem: G.Memory, word: nat, float: nat): Option<Arg>
    requires i < |spec|
  {
    ArgAt(spec[i], regs, mem, word + i + WideBefore(spec, i), float + DoublesBefore(spec, i))
  }

  lemma {:induction false} NthTail(spec: seq<Kind>, i: nat, regs: Registers, mem: G.Memory, word: nat, float: nat)
    requires 0 < i < |spec|
    ensures Nth(spec, i, regs, mem, word, float) ==
            Nth(spec[1..], i - 1, regs, mem, word + Width(spec[0]), float + if spec[0].F64? then 1 else 0)
  {
    hide ArgAt;
    BeforeTail(spec, i);
  }

  lemma {:induction false} NthFirst(spec: seq<Kind>, regs: Registers, mem: G.Memory, word: nat, float: nat)
    requires spec != []
    ensures var k := spec[0];
            Nth(spec, 0, regs, mem, word, float) ==
            DecodeOne(k, Stream(regs, mem, word, Width(k)), if k.F64? then FloatAt(regs, float) else None)
  {
    hide ArgAt, DecodeOne;
    DecodeOneIs(spec[0], regs, mem, word, float);
  }

  /** `args` gives each argument by itself, and fails exactly if one of them does. */
  lemma {:induction false} ArgsAre(spec: seq<Kind>, regs: Registers, mem: G.Memory, word: nat, float: nat)
    ensures var r := From(spec, regs, mem, word, float);
            if r.Some? then
              |r.value| == |spec| &&
              forall i :: 0 <= i < |spec| ==> Nth(spec, i, regs, mem, word, float) == Some(r.value[i])
            else exists i :: 0 <= i < |spec| && Nth(spec, i, regs, mem, word, float).None?
    decreases |spec|
  {
    hide DecodeOne, Nth, From;
    if spec == [] {
      FromNone(regs, mem, word, float);
    } else {
      var w, f := word + Width(spec[0]), float + if spec[0].F64? then 1 else 0;
      FromStep(spec, regs, mem, word, float);
      NthFirst(spec, regs, mem, word, float);
      ArgsAre(spec[1..], regs, mem, w, f);
      var rest := From(spec[1..], regs, mem, w, f);
      if rest.None? {
        var i :| 0 <= i < |spec[1..]| && Nth(spec[1..], i, regs, mem, w, f).None?;
        NthTail(spec, i + 1, regs, mem, word, float);
        assert Nth(spec, i + 1, regs, mem, word, float).None?;
      } else if Nth(spec, 0, regs, mem, word, float).Some? {
        forall i | 0 < i < |spec| ensures Nth(spec, i, regs, mem, word, float) == Some(rest.value[i - 1]) {
          NthTail(spec, i, regs, mem, word, float);
        }
      }
    }
  }

  ghost predicate Entered(regs: Registers, args: seq<int>) {
    |args| <= 8 && forall i :: 0 <= i < |args| ==> regs.gpr[3 + i] == args[i] % TWO32
  }

  ghost predicate Spells(spec: seq<Kind>, vs: seq<Arg>, args: seq<int>)
    requires |vs| == |spec|
  {
    Words(spec) <= |args| && forall k :: 0 <= k < Words(spec) ==> Place(spec, vs)[k] == Some(args[k] % TWO32)
  }

  lemma {:induction false} IntegersOnly(spec: seq<Kind>, vs: seq<Arg>)
    requires AllFit(spec, vs) && forall k :: 0 <= k < Words(spec) ==> Place(spec, vs)[k].Some?
    ensures Doubles(spec) == 0
    decreases |spec|
  {
    hide Place, Fits;
    if spec != [] {
      SplitPlaced(spec, vs);
      assert Place(spec, vs)[0].Some?;
      forall k | 0 <= k < Words(spec[1..]) ensures Place(spec[1..], vs[1..])[k].Some? {
        assert Place(spec, vs)[Width(spec[0]) + k].Some?;
      }
      IntegersOnly(spec[1..], vs[1..]);
      FirstIsNoDouble(spec, vs);
    }
  }

  lemma {:induction false} FirstIsNoDouble(spec: seq<Kind>, vs: seq<Arg>)
    requires AllFit(spec, vs) && spec != [] && Place(spec, vs)[0].Some?
    ensures !spec[0].F64?
  {
    assert Fits(spec[0], vs[0]);
  }

  /** `args` reads back what `call` places, 64-bit values given as two words included. */
  lemma {:induction false} CallIsRead(spec: seq<Kind>, vs: seq<Arg>, args: seq<int>, regs: Registers, mem: G.Memory)
    requires AllFit(spec, vs) && Entered(regs, args) && Spells(spec, vs, args)
    ensures From(spec, regs, mem, 0, 0) == Some(vs)
  {
    hide Place, PlaceDoubles, Fits, From;
    IntegersOnly(spec, vs);
    var ws := Stream(regs, mem, 0, Words(spec));
    forall k | 0 <= k < Words(spec) ensures ws[k] == Place(spec, vs)[k] {
      assert ws[k] == WordAt(regs, mem, k) == Some(regs.gpr[3 + k]);
    }
    PlacedIsRead(spec, vs, regs, mem);
  }

  const TRAP_BASE := 0x2800_0000
  const TRAP_SIZE := 0x10000
  const SCRATCH_BASE := 0x2A00_0000
  const SCRATCH_SIZE := 0x100_0000

  predicate IsSlot(a: int, n: nat) {
    TRAP_BASE <= a < TRAP_BASE + 4 * n && (a - TRAP_BASE) % 4 == 0
  }

  predicate PowerOfTwo(n: int) {
    if n <= 0 then false else n == 1 || (n % 2 == 0 && PowerOfTwo(n / 2))
  }

  /** What a routine does once it is entered: the emulator may leave any registers behind and write
      anywhere, a trap handler may call back in, and anything may raise. */
  datatype Action =
    | Emulate(regs: Registers, addr: int, data: seq<Byte>)
    | CallBack(tvector: int, args: seq<int>, body: seq<Action>)
    | Raise

  /** Every named slot is a different word of the trap page. */
  ghost predicate SlotsOk(next: nat, traps: map<int, string>, addresses: map<string, int>) {
    next <= TRAP_SIZE / 4 &&
    (forall name :: name in addresses ==> addresses[name] in traps && traps[addresses[name]] == name) &&
    (forall a :: a in traps ==> traps[a] in addresses && addresses[traps[a]] == a && IsSlot(a, next))
  }

  lemma {:induction false} AddSlot(next: nat, traps: map<int, string>, addresses: map<string, int>, name: string)
    requires SlotsOk(next, traps, addresses) && next < TRAP_SIZE / 4 && name !in addresses
    ensures var a := TRAP_BASE + next * 4;
            a % TWO32 == a && a !in traps && SlotsOk(next + 1, traps[a := name], addresses[name := a])
  {
  }

  lemma {:induction false} MappedIs(mem: G.Memory, addr: int, n: nat)
    ensures G.Mapped(mem, addr % TWO32, n) <==> Reachable(mem.Keys, addr, n)
  {
  }

  lemma {:induction false} WordsReachable(mem: G.Memory, tvector: int, frame: int)
    ensures U32At(mem, tvector).Some? <==> Reachable(mem.Keys, tvector, 4)
    ensures U32At(mem, tvector + 4).Some? <==> Reachable(mem.Keys, tvector + 4, 4)
    ensures G.Mapped(mem, frame % TWO32, 4) <==> Reachable(mem.Keys, frame, 4)
  {
  }

  // ----- what comes of a call

  /** n bytes from `addr` on, modulo 2^32, can be read and written. */
  ghost predicate Reachable(keys: set<int>, addr: int, n: nat) {
    forall x :: addr % TWO32 <= x < addr % TWO32 + n ==> x in keys
  }

  /** The stack pointer below the caller's: 64 bytes down, and a multiple of 16. */
  function Frame(r1: int): int {
    (r1 - 64) / 16 * 16
  }

  /** A routine can be entered: not too many arguments, and its descriptor and the new frame are there. */
  ghost predicate Enters(keys: set<int>, r1: int, tvector: int, args: seq<int>) {
    |args| <= 8 && Reachable(keys, tvector, 4) && Reachable(keys, tvector + 4, 4) && Reachable(keys, Frame(r1), 4)
  }

  /** The body comes to its end: nothing in it raises, stores where nothing is mapped or calls what fails. */
  ghost predicate Finishes(keys: set<int>, r1: int, body: seq<Action>)
    decreases body
  {
    body == [] ||
    match body[0]
    case Raise => false
    case Emulate(after, addr, data) =>
      (data == [] || Reachable(keys, addr, |data|)) && Finishes(keys, after.gpr[1], body[1..])
    case CallBack(tvector, args, inner) =>
      Enters(keys, r1, tvector, args) && Finishes(keys, Frame(r1) % TWO32, inner) && Finishes(keys, r1, body[1..])
  }

  /** The registers at the end of a body: those of its last emulation, calls back into the guest aside. */
  function Leaves(body: seq<Action>, entry: Registers): Registers
    decreases |body|
  {
    if body == [] then entry else Leaves(body[1..], if body[0].Emulate? then body[0].regs else entry)
  }

  lemma {:induction false} FinishesNext(keys: set<int>, r1: int, body: seq<Action>)
    ensures body == [] ==> Finishes(keys, r1, body)
    ensures body != [] ==>
              (Finishes(keys, r1, body) <==>
               match body[0]
               case Raise => false
               case Emulate(after, addr, data) =>
                 (data == [] || Reachable(keys, addr, |data|)) && Finishes(keys, after.gpr[1], body[1..])
               case CallBack(tvector, args, inner) =>
                 Enters(keys, r1, tvector, args) && Finishes(keys, Frame(r1) % TWO32, inner) &&
                 Finishes(keys, r1, body[1..]))
  {
  }

  class Processor {
    const memory: G.Guest
    var regs: Registers
    var scratch: int
    var trapNext: nat
    var traps: map<int, string>
    var trapAddresses: map<string, int>
    var returnSlot: Option<int>
    var callTvectors: seq<int>

    ghost predicate Valid()
      reads this
    {
      SlotsOk(trapNext, traps, trapAddresses) && SCRATCH_BASE <= scratch <= SCRATCH_BASE + SCRATCH_SIZE
    }

    constructor (memory: G.Guest)
      ensures Valid() && this.memory == memory && callTvectors == [] && traps == map[] && trapAddresses == map[]
      ensures trapNext == 0 && scratch == 0x2A00_0000 && returnSlot == None
    {
      this.memory := memory;
      regs := RegisterFile(seq(32, _ => 0), seq(32, _ => 0), 0, 0, []);
      scratch := SCRATCH_BASE;
      trapNext, traps, trapAddresses, returnSlot, callTvectors := 0, map[], map[], None, [];
    }

    /** The slot calls return to is there or can be had. */
    ghost predicate SlotReady()
      reads this, memory
    {
      returnSlot.Some? || "__return__" in trapAddresses ||
      (trapNext < TRAP_SIZE / 4 && Reachable(memory.mem.Keys, TRAP_BASE + trapNext * 4, 4))
    }

    method U32(addr: int) returns (r: Option<Word>)
      ensures r == U32At(memory.mem, addr)
    {
      var ok, raw := memory.Read(addr, 4);
      if !ok {
        return None;
      }
      WordIsBounded(raw);
      return Some(Be(raw));
    }

    method ArgumentWord(word: nat) returns (r: Option<Word>)
      ensures r == WordAt(regs, memory.mem, word)
      ensures r == if word < 8 then Some(regs.gpr[3 + word]) else U32At(memory.mem, regs.gpr[1] + 24 + 4 * word)
    {
      if word < 8 {
        r := Some(regs.gpr[3 + word]);
      } else {
        r := U32(regs.gpr[1] + 24 + 4 * word);
      }
    }

    method ReadArgument(item: Kind, word: nat, float: nat) returns (r: Option<Arg>)
      ensures r == DecodeOne(item, Stream(regs, memory.mem, word, Width(item)),
                             if item.F64? then FloatAt(regs, float) else None)
    {
      hide WordAt;
      ghost var ws := Stream(regs, memory.mem, word, Width(item));
      if item.F64? {
        return if 1 + float <= 31 then Some(Float(regs.fpr[1 + float])) else None;
      }
      if item.Other? {
        return None;
      }
      var high := ArgumentWord(word);
      assert ws[0] == high;
      if high.None? {
        return None;
      }
      var raw := high.value;
      if item in {U64, S64} {
        var low := ArgumentWord(word + 1);
        assert ws[1] == low;
        if low.None? {
          return None;
        }
        var value := raw * TWO32 + low.value;
        return Some(Int(if item.S64? && value >= TWO64 / 2 then value - TWO64 else value));
      }
      match item
      case U8 => return Some(Int(raw % 0x100));
      case U16 => return Some(Int(raw % 0x1_0000));
      case S16 =>
        var value := raw % 0x1_0000;
        return Some(Int(if value >= 0x8000 then value - 0x1_0000 else value));
      case _ => return Some(Int(raw));
    }

    /** `args`: a word counter and a double counter move over the signature. */
    method Args(spec: seq<Kind>) returns (r: Option<seq<Arg>>)
      ensures r == From(spec, regs, memory.mem, 0, 0)
    {
      hide From, DecodeOne, WordAt, FloatAt, Stream;
      ghost var mem := memory.mem;
      if exists i: nat :: i < |spec| && spec[i].Other? {
        ghost var i: nat :| i < |spec| && spec[i].Other?;
        FromUnknown(spec, regs, mem, i);
        return None;
      }
      var values: seq<Arg>, word: nat, float: nat, i := [], 0, 0, 0;
      assert spec[0..] == spec;
      NoneBefore(From(spec, regs, mem, 0, 0));
      while i < |spec|
        invariant i <= |spec|
        invariant From(spec, regs, mem, 0, 0) == Then(values, From(spec[i..], regs, mem, word, float))
      {
        var item := spec[i];
        var first := ReadArgument(item, word, float);
        FromStep(spec[i..], regs, mem, word, float);
        if first.None? {
          return None;
        }
        word, float := word + Width(item), float + if item.F64? then 1 else 0;
        assert spec[i..][1..] == spec[i + 1..];
        Append(values, [first.value], From(spec[i + 1..], regs, mem, word, float));
        values, i := values + [first.value], i + 1;
      }
      FromNone(regs, mem, word, float);
      assert spec[i..] == [] && values + [] == values;
      return Some(values);
    }

    /** `alloc`: the least aligned address not below the scratch cursor, which then moves past it. */
    method Alloc(size: int, align: int) returns (r: Option<int>)
      requires Valid()
      modifies this`scratch
      ensures Valid()
      ensures r.Some? <==> size >= 0 && PowerOfTwo(align) &&
                           exists b :: b % align == 0 && old(scratch) <= b &&
                                       b + (if size > 1 then size else 1) <= 0x2B00_0000
      ensures r.None? ==> scratch == old(scratch)
      ensures r.Some? ==> r.value % align == 0 && 0x2A00_0000 <= old(scratch) <= r.value &&
                          scratch == r.value + if size > 1 then size else 1
      ensures r.Some? ==> forall b :: b % align == 0 && old(scratch) <= b ==> r.value <= b
    {
      if size < 0 || !PowerOfTwo(align) {
        return None;
      }
      var address := AlignUp(scratch, align);
      AlignUpLeast(scratch, align);
      var end := address + if size > 1 then size else 1;
      if end > SCRATCH_BASE + SCRATCH_SIZE {
        return None;
      }
      scratch := end;
      return Some(address);
    }

    ghost predicate KeepsTraps(was: map<string, int>)
      reads this
    {
      forall name :: name in was ==> name in trapAddresses && trapAddresses[name] == was[name]
    }

    /** `alloc_trap_slot`: one slot for each name, the same one every time. */
    method AllocTrapSlot(name: string) returns (r: Option<int>)
      requires Valid()
      modifies this`trapNext, this`traps, this`trapAddresses, memory
      ensures Valid() && KeepsTraps(old(trapAddresses)) && memory.mem.Keys == old(memory.mem.Keys)
      ensures name in old(trapAddresses) ==>
                r == Some(old(trapAddresses)[name]) && memory.mem == old(memory.mem) &&
                trapAddresses == old(trapAddresses)
      ensures name !in old(trapAddresses) && old(trapNext) == TRAP_SIZE / 4 ==>
                r.None? && memory.mem == old(memory.mem) && trapAddresses == old(trapAddresses)
      ensures name !in old(trapAddresses) && r.Some? ==>
                r.value !in old(traps) && trapAddresses == old(trapAddresses)[name := r.value] &&
                memory.mem == G.Store(old(memory.mem), r.value, [0x4E, 0x80, 0x00, 0x20])
      ensures r.Some? ==> r.value in traps && traps[r.value] == name
      ensures r.Some? ==> 0x2800_0000 <= r.value < 0x2801_0000 && r.value % 4 == 0
      ensures r.None? ==> memory.mem == old(memory.mem)
      ensures r.Some? <==>
                name in old(trapAddresses) ||
                (old(trapNext) < TRAP_SIZE / 4 && Reachable(memory.mem.Keys, TRAP_BASE + old(trapNext) * 4, 4))
    {
      hide G.Store, G.Mapped;
      if name in trapAddresses {
        return Some(trapAddresses[name]);
      }
      r := NewTrapSlot(name);
    }

    method NewTrapSlot(name: string) returns (r: Option<int>)
      requires Valid() && name !in trapAddresses
      modifies this`trapNext, this`traps, this`trapAddresses, memory
      ensures Valid() && KeepsTraps(old(trapAddresses)) && memory.mem.Keys == old(memory.mem.Keys)
      ensures old(trapNext) == TRAP_SIZE / 4 ==>
                r.None? && memory.mem == old(memory.mem) && trapAddresses == old(trapAddresses)
      ensures r.Some? ==>
                r.value !in old(traps) && trapAddresses == old(trapAddresses)[name := r.value] &&
                memory.mem == G.Store(old(memory.mem), r.value, [0x4E, 0x80, 0x00, 0x20])
      ensures r.Some? ==> r.value in traps && traps[r.value] == name
      ensures r.None? ==> memory.mem == old(memory.mem)
      ensures r.Some? <==>
                old(trapNext) < TRAP_SIZE / 4 && Reachable(memory.mem.Keys, TRAP_BASE + old(trapNext) * 4, 4)
    {
      hide G.Store, Reachable;
      if trapNext >= TRAP_SIZE / 4 {
        return None;
      }
      var address := TRAP_BASE + trapNext * 4;
      AddSlot(trapNext, traps, trapAddresses, name);
      hide SlotsOk;
      trapNext := trapNext + 1;
      traps := traps[address := name];
      trapAddresses := trapAddresses[name := address];
      MappedIs(memory.mem, address, 4);
      var ok := memory.Write(address, [0x4E, 0x80, 0x00, 0x20]);
      return if ok then Some(address) else None;
    }

    method SetGpr(n: nat, value: int)
      requires n < 32
      modifies this`regs
      ensures regs == old(regs).(gpr := old(regs).gpr[n := value % TWO32])
    {
      regs := regs.(gpr := regs.gpr[n := value % TWO32]);
    }

    method PlaceArguments(args: seq<int>)
      requires |args| <= 8
      modifies this`regs
      ensures Entered(regs, args) && regs.gpr[1] == old(regs.gpr[1]) && regs.gpr[2] == old(regs.gpr[2])
      ensures regs.gpr[12] == old(regs.gpr[12])
    {
      var index := 0;
      while index < |args|
        invariant index <= |args|
        invariant regs.gpr[1] == old(regs.gpr[1]) && regs.gpr[2] == old(regs.gpr[2]) &&
                  regs.gpr[12] == old(regs.gpr[12])
        invariant forall i :: 0 <= i < index ==> regs.gpr[3 + i] == args[i] % TWO32
      {
        SetGpr(3 + index, args[index]);
        index := index + 1;
      }
    }

    /** The argument-placing part of `call`. */
    method Enter(tvector: int, args: seq<int>) returns (ok: bool)
      requires Valid() && |args| <= 8
      modifies this`regs, this`trapNext, this`traps, this`trapAddresses, this`returnSlot, memory
      ensures Valid() && KeepsTraps(old(trapAddresses)) && memory.mem.Keys == old(memory.mem.Keys)
      ensures ok <==> Enters(old(memory.mem).Keys, old(regs).gpr[1], tvector, args) && old(SlotReady())
      ensures old(returnSlot).Some? ==> returnSlot.Some?
      ensures ok ==> Entered(regs, args)
      ensures ok ==> U32At(old(memory.mem), tvector) == Some(regs.pc)
      ensures ok ==> U32At(old(memory.mem), tvector + 4) == Some(regs.gpr[2])
      ensures ok ==> regs.gpr[12] == tvector % TWO32
      ensures ok ==> regs.gpr[1] == (old(regs).gpr[1] - 64) / 16 * 16 % TWO32
      ensures ok ==> returnSlot.Some? && regs.lr == returnSlot.value % TWO32
      ensures ok && old(returnSlot).Some? ==>
                returnSlot == old(returnSlot) &&
                memory.mem == G.Store(old(memory.mem), regs.gpr[1], ToBe(old(regs).gpr[1], 4))
    {
      hide U32At, G.Store, G.Mapped, SlotsOk, Reachable;
      var oldR1: int := regs.gpr[1];
      var newR1: int := (oldR1 - 64) / 16 * 16;
      WordsReachable(memory.mem, tvector, newR1);
      var code := U32(tvector);
      if code.None? {
        return false;
      }
      var toc := U32(tvector + 4);
      if toc.None? {
        return false;
      }
      SetGpr(2, toc.value);
      SetGpr(12, tvector);
      PlaceArguments(args);
      SetGpr(1, newR1);
      ok := memory.Write(newR1, ToBe(oldR1, 4));
      if !ok {
        return false;
      }
      if returnSlot.None? {
        var slot := AllocTrapSlot("__return__");
        if slot.None? {
          return false;
        }
        returnSlot := slot;
      }
      regs := regs.(lr := returnSlot.value % TWO32, pc := code.value);
      return true;
    }

    /** `call`: whatever the routine does, calls it makes in turn included, and whether or not it
        raises, the caller's registers and descriptor stack are as before. It returns exactly when the
        routine can be entered and finishes, and then with the GPR 3 the routine leaves. */
    method Call(tvector: int, args: seq<int>, body: seq<Action>) returns (r: Option<Word>, ghost entry: Registers)
      requires Valid()
      modifies this`regs, this`trapNext, this`traps, this`trapAddresses, this`returnSlot, this`callTvectors, memory
      ensures Valid() && KeepsTraps(old(trapAddresses))
      ensures regs == old(regs) && callTvectors == old(callTvectors)
      ensures memory.mem.Keys == old(memory.mem.Keys)
      ensures |args| > 8 ==> r.None? && memory.mem == old(memory.mem)
      ensures r.Some? <==>
                Enters(old(memory.mem).Keys, old(regs).gpr[1], tvector, args) && old(SlotReady()) &&
                Finishes(old(memory.mem).Keys, Frame(old(regs).gpr[1]) % TWO32, body)
      ensures r.Some? ==>
                Entered(entry, args) && U32At(old(memory.mem), tvector) == Some(entry.pc) &&
                U32At(old(memory.mem), tvector + 4) == Some(entry.gpr[2]) && entry.gpr[12] == tvector % TWO32 &&
                entry.gpr[1] == (old(regs).gpr[1] - 64) / 16 * 16 % TWO32 && r.value == Leaves(body, entry).gpr[3]
      ensures old(returnSlot).Some? || r.Some? ==> returnSlot.Some?
      decreases body, 1
    {
      hide Entered, U32At, Finishes, Leaves, SlotsOk;
      entry := regs;
      if |args| > 8 {
        return None, entry;
      }
      var saved := regs;
      callTvectors := callTvectors + [tvector];
      var ok := Enter(tvector, args);
      if ok {
        entry := regs;
        ok := Perform(body);
      }
      r := if ok then Some(regs.gpr[3]) else None;
      callTvectors := callTvectors[..|callTvectors| - 1];
      regs := saved;
    }

    method Perform(body: seq<Action>) returns (ok: bool)
      requires Valid() && returnSlot.Some?
      modifies this`regs, this`trapNext, this`traps, this`trapAddresses, this`returnSlot, this`callTvectors, memory
      ensures Valid() && KeepsTraps(old(trapAddresses)) && returnSlot.Some?
      ensures callTvectors == old(callTvectors)
      ensures memory.mem.Keys == old(memory.mem.Keys)
      ensures ok <==> Finishes(old(memory.mem).Keys, old(regs).gpr[1], body)
      ensures ok ==> regs == Leaves(body, old(regs))
      decreases body, 0
    {
      hide Reachable, Enters, SlotsOk, Entered, U32At, Finishes, Frame;
      FinishesNext(memory.mem.Keys, regs.gpr[1], body);
      if body == [] {
        return true;
      }
      match body[0] {
        case Raise => return false;
        case Emulate(after, addr, data) =>
          MappedIs(memory.mem, addr, |data|);
          ok := memory.Write(addr, data);
          regs := after;
        case CallBack(tvector, args, inner) =>
          var result, _ := Call(tvector, args, inner);
          ok := result.Some?;
      }
      if ok {
        ok := Perform(body[1..]);
      }
    }
  }
}
