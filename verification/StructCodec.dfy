/** Packing and unpacking C structures (src/cwhost/abi.py, `Struct`). */
module StructCodec {
  import opened Alignment
  import opened Bytes
  import opened StructLayout

  datatype Value = Int(n: int) | Raw(bytes: seq<Byte>) | List(items: seq<Value>) | Rec(entries: map<string, Value>)

  /** The encoded bytes, or the error Python raises. */
  datatype Packed = Good(bytes: seq<Byte>) | Bad

  predicate Signed(k: Scalar) {
    k in {S8, S16, S32, S64}
  }

  function Limit(k: Scalar): nat {
    Pow256(SizeOf(k))
  }

  predicate InIntRange(k: Scalar, n: int) {
    if Signed(k) then 0 <= 2 * n + Limit(k) && 2 * n < Limit(k) else 0 <= n < Limit(k)
  }

  predicate Truthy(v: Value) {
    match v
    case Int(n) => n != 0
    case Raw(b) => b != []
    case List(vs) => vs != []
    case Rec(m) => m != map[]
  }

  function EncodeScalar(k: Scalar, v: Value): (r: Packed)
    ensures r.Good? ==> |r.bytes| == SizeOf(k)
  {
    match v
    case Raw(b) =>
      if k.OSType? && |b| == 4 then Good(b)
      else if k.Boolean? then Good([if b != [] then 1 else 0])
      else Bad
    case Int(n) =>
      if k.Boolean? then Good([if n != 0 then 1 else 0])
      else if InIntRange(k, n) then Good(ToBe(n, SizeOf(k)))
      else Bad
    case _ => if k.Boolean? then Good([if Truthy(v) then 1 else 0]) else Bad
  }

  function DecodeScalar(k: Scalar, raw: seq<Byte>): Value
    requires |raw| == SizeOf(k)
  {
    if k.OSType? then Raw(raw)
    else if k.Boolean? then Int(raw[0])
    else if Signed(k) && 2 * Be(raw) >= Limit(k) then Int(Be(raw) - Limit(k))
    else Int(Be(raw))
  }

  function EncodeItems(k: Scalar, vs: seq<Value>): (r: Packed)
    ensures r.Good? ==> |r.bytes| == SizeOf(k) * |vs|
  {
    if vs == [] then Good([])
    else
      match EncodeScalar(k, vs[0])
      case Bad => Bad
      case Good(first) =>
        match EncodeItems(k, vs[1..])
        case Bad => Bad
        case Good(rest) => Good(first + rest)
  }

  function DecodeItems(k: Scalar, raw: seq<Byte>, count: nat): seq<Value>
    requires |raw| == SizeOf(k) * count
    decreases count
  {
    if count == 0 then []
    else [DecodeScalar(k, raw[..SizeOf(k)])] + DecodeItems(k, raw[SizeOf(k)..], count - 1)
  }

  ghost predicate NamesIn(fields: seq<Field>, m: map<string, Value>) {
    forall name :: name in m ==> exists i :: 0 <= i < |fields| && fields[i].name == name
  }

  function DefaultValue(t: FieldType): Value {
    match t
    case One(k) => if k.OSType? then Raw(Zeros(4)) else Int(0)
    case Array(k, count) => if k.U8? then Raw(Zeros(count)) else List(seq(count, _ => Int(0)))
    case Nested(_) => Rec(map[])
  }

  ghost function Encode(t: FieldType, v: Value): (r: Packed)
    ensures r.Good? ==> |r.bytes| == TypeSize(t)
    decreases t
  {
    match t
    case One(k) => EncodeScalar(k, v)
    case Array(k, count) =>
      if k.U8? && v.Raw? then (if |v.bytes| == count then Good(v.bytes) else Bad)
      else if v.List? && |v.items| == count then EncodeItems(k, v.items)
      else Bad
    case Nested(s) => if v.Rec? then Pack(s, v.entries) else Bad
  }

  ghost function FieldValue(f: Field, m: map<string, Value>): Value {
    if f.name in m then m[f.name] else DefaultValue(f.typ)
  }

  /** The padding before a field and the field's own bytes. */
  ghost function PackField(f: Field, cap: nat, at: nat, m: map<string, Value>): (r: Packed)
    requires cap in {2, 4}
    ensures r.Good? ==> at + |r.bytes| == Next(f.typ, cap, at)
    decreases f
  {
    PlaceBounds(f.typ, cap, at);
    match Encode(f.typ, FieldValue(f, m))
    case Bad => Bad
    case Good(bytes) => Good(Zeros(Place(f.typ, cap, at) - at) + bytes)
  }

  /** The bytes from `at` to the end of the fields, padding included. */
  ghost function PackFields(fields: seq<Field>, cap: nat, at: nat, m: map<string, Value>): (r: Packed)
    requires cap in {2, 4}
    ensures r.Good? ==> at + |r.bytes| == End(fields, cap, at)
    decreases fields
  {
    if fields == [] then Good([])
    else
      match PackField(fields[0], cap, at, m)
      case Bad => Bad
      case Good(first) =>
        match PackFields(fields[1..], cap, Next(fields[0].typ, cap, at), m)
        case Bad => Bad
        case Good(rest) => Good(first + rest)
  }

  ghost function Pack(s: Struct, m: map<string, Value>): (r: Packed)
    ensures r.Good? ==> |r.bytes| == StructSize(s)
    decreases s
  {
    if !NamesIn(s.fields, m) then Bad
    else
      match PackFields(s.fields, Cap(s), 0, m)
      case Bad => Bad
      case Good(bytes) =>
        AlignUpLeast(|bytes|, Cap(s));
        Good(bytes + Zeros(StructSize(s) - |bytes|))
  }

  function Decode(t: FieldType, raw: seq<Byte>): Value
    requires |raw| == TypeSize(t)
    decreases t
  {
    match t
    case One(k) => DecodeScalar(k, raw)
    case Array(k, count) => if k.U8? then Raw(raw) else List(DecodeItems(k, raw, count))
    case Nested(s) => Rec(Unpack(s, raw))
  }

  function UnpackField(f: Field, cap: nat, at: nat, raw: seq<Byte>): Value
    requires cap in {2, 4} && Next(f.typ, cap, at) <= |raw|
    decreases f
  {
    PlaceBounds(f.typ, cap, at);
    Decode(f.typ, raw[Place(f.typ, cap, at)..Next(f.typ, cap, at)])
  }

  function UnpackFields(fields: seq<Field>, cap: nat, at: nat, raw: seq<Byte>): map<string, Value>
    requires cap in {2, 4} && End(fields, cap, at) <= |raw|
    decreases fields
  {
    if fields == [] then map[]
    else
      var f, next := fields[0], Next(fields[0].typ, cap, at);
      EndAfter(fields[1..], cap, next);
      UnpackFields(fields[1..], cap, next, raw)[f.name := UnpackField(f, cap, at, raw)]
  }

  function Unpack(s: Struct, raw: seq<Byte>): map<string, Value>
    requires |raw| >= StructSize(s)
    decreases s
  {
    AlignUpLeast(End(s.fields, Cap(s), 0), Cap(s));
    UnpackFields(s.fields, Cap(s), 0, raw)
  }

  // ----- scalars

  lemma {:induction false} ToBeWraps(n: int, size: nat)
    ensures ToBe(n, size) == ToBe(n + Pow256(size), size)
    decreases size
  {
    if size > 0 {
      assert n + Pow256(size) == n + 256 * Pow256(size - 1);
      assert (n + Pow256(size)) % 256 == n % 256;
      assert (n + Pow256(size)) / 256 == n / 256 + Pow256(size - 1);
      ToBeWraps(n / 256, size - 1);
    }
  }

  /** A scalar in the form decoding produces. */
  predicate NormalScalar(k: Scalar, v: Value) {
    if k.OSType? then v.Raw? && |v.bytes| == 4
    else if k.Boolean? then v == Int(0) || v == Int(1)
    else v.Int? && InIntRange(k, v.n)
  }

  /** What each integer kind holds. */
  lemma {:induction false} ScalarRanges(k: Scalar, n: int)
    ensures k.U8? ==> (InIntRange(k, n) <==> 0 <= n < 0x100)
    ensures k.S8? ==> (InIntRange(k, n) <==> -0x80 <= n < 0x80)
    ensures k.U16? ==> (InIntRange(k, n) <==> 0 <= n < 0x1_0000)
    ensures k.S16? ==> (InIntRange(k, n) <==> -0x8000 <= n < 0x8000)
    ensures k in {U32, Ptr, OSType} ==> (InIntRange(k, n) <==> 0 <= n < 0x1_0000_0000)
    ensures k.S32? ==> (InIntRange(k, n) <==> -0x8000_0000 <= n < 0x8000_0000)
    ensures k.U64? ==> (InIntRange(k, n) <==> 0 <= n < 0x1_0000_0000_0000_0000)
    ensures k.S64? ==> (InIntRange(k, n) <==> -0x8000_0000_0000_0000 <= n < 0x8000_0000_0000_0000)
  {
    Pow256Values();
    hide Pow256;
  }

  /** What a scalar field takes: a Boolean anything, for its truth; any other one a number in its range, and an OSType
      four bytes as well. */
  lemma {:induction false} ScalarTakes(k: Scalar, v: Value)
    ensures k.Boolean? ==>
              EncodeScalar(k, v) ==
              Good([if v == Int(0) || v == Raw([]) || v == List([]) || v == Rec(map[]) then 0 else 1])
    ensures !k.Boolean? ==>
              (EncodeScalar(k, v).Good? <==>
               (v.Int? && InIntRange(k, v.n)) || (k.OSType? && v.Raw? && |v.bytes| == 4))
  {
    hide InIntRange;
  }

  /** Two's complement: a signed number read back from its bytes. */
  lemma {:induction false} SignedReads(n: int, size: nat)
    requires 0 <= 2 * n + Pow256(size) && 2 * n < Pow256(size)
    ensures var b := Be(ToBe(n, size));
            n == if 2 * b >= Pow256(size) then b - Pow256(size) else b
  {
    if n < 0 {
      ToBeWraps(n, size);
      BeToBe(n + Pow256(size), size);
    } else {
      BeToBe(n, size);
    }
  }

  lemma {:induction false} SignedWrites(raw: seq<Byte>)
    ensures var b, p := Be(raw), Pow256(|raw|);
            ToBe(if 2 * b >= p then b - p else b, |raw|) == raw
  {
    ToBeBe(raw);
    ToBeWraps(Be(raw) - Pow256(|raw|), |raw|);
  }

  lemma {:induction false} ScalarRoundTrip(k: Scalar, v: Value)
    requires NormalScalar(k, v)
    ensures EncodeScalar(k, v).Good? && DecodeScalar(k, EncodeScalar(k, v).bytes) == v
  {
    hide Pow256, Be, ToBe, SizeOf;
    if !k.OSType? && !k.Boolean? {
      if Signed(k) {
        SignedReads(v.n, SizeOf(k));
      } else {
        BeToBe(v.n, SizeOf(k));
      }
    }
  }

  /** Booleans come back as 0 or 1; every other scalar byte for byte. */
  function ScrubScalar(k: Scalar, raw: seq<Byte>): (r: seq<Byte>)
    requires |raw| == SizeOf(k)
    ensures |r| == |raw|
  {
    if k.Boolean? then [if raw[0] != 0 then 1 else 0] else raw
  }

  lemma {:induction false} ScalarRepack(k: Scalar, raw: seq<Byte>)
    requires |raw| == SizeOf(k)
    ensures EncodeScalar(k, DecodeScalar(k, raw)) == Good(ScrubScalar(k, raw))
  {
    if k.Boolean? {
      assert |raw| == 1;
    } else if k.OSType? {
      assert |raw| == 4;
    } else {
      IntegerRepack(k, raw);
    }
  }

  lemma {:induction false} IntegerRepack(k: Scalar, raw: seq<Byte>)
    requires |raw| == SizeOf(k) && !k.OSType? && !k.Boolean?
    ensures EncodeScalar(k, DecodeScalar(k, raw)) == Good(raw)
  {
    hide Pow256, Be, ToBe, SizeOf;
    if Signed(k) {
      SignedWrites(raw);
    } else {
      ToBeBe(raw);
    }
  }

  // ----- arrays

  predicate NormalItems(k: Scalar, vs: seq<Value>) {
    forall i :: 0 <= i < |vs| ==> NormalScalar(k, vs[i])
  }

  lemma {:induction false} ItemsRoundTrip(k: Scalar, vs: seq<Value>)
    requires NormalItems(k, vs)
    ensures EncodeItems(k, vs).Good? && DecodeItems(k, EncodeItems(k, vs).bytes, |vs|) == vs
    decreases |vs|
  {
    hide EncodeScalar, DecodeScalar, NormalScalar, SizeOf;
    if vs != [] {
      ScalarRoundTrip(k, vs[0]);
      ItemsRoundTrip(k, vs[1..]);
      var first, rest := EncodeScalar(k, vs[0]).bytes, EncodeItems(k, vs[1..]).bytes;
      assert (first + rest)[..SizeOf(k)] == first && (first + rest)[SizeOf(k)..] == rest;
      assert vs == [vs[0]] + vs[1..];
    }
  }

  function ScrubItems(k: Scalar, raw: seq<Byte>, count: nat): (r: seq<Byte>)
    requires |raw| == SizeOf(k) * count
    ensures |r| == |raw|
    decreases count
  {
    if count == 0 then [] else ScrubScalar(k, raw[..SizeOf(k)]) + ScrubItems(k, raw[SizeOf(k)..], count - 1)
  }

  lemma {:induction false} ItemsRepack(k: Scalar, raw: seq<Byte>, count: nat)
    requires |raw| == SizeOf(k) * count
    ensures |DecodeItems(k, raw, count)| == count
    ensures EncodeItems(k, DecodeItems(k, raw, count)) == Good(ScrubItems(k, raw, count))
    decreases count
  {
    hide EncodeScalar, DecodeScalar, ScrubScalar, SizeOf;
    if count > 0 {
      ScalarRepack(k, raw[..SizeOf(k)]);
      ItemsRepack(k, raw[SizeOf(k)..], count - 1);
      var items := DecodeItems(k, raw, count);
      assert items[1..] == DecodeItems(k, raw[SizeOf(k)..], count - 1);
    }
  }

  // ----- unpack after pack

  /** A value in the form unpacking produces, fields left out allowed. */
  ghost predicate Normal(t: FieldType, v: Value)
    decreases t
  {
    match t
    case One(k) => NormalScalar(k, v)
    case Array(k, count) =>
      if k.U8? then v.Raw? && |v.bytes| == count else v.List? && |v.items| == count && NormalItems(k, v.items)
    case Nested(s) => v.Rec? && NamesIn(s.fields, v.entries) && NormalFields(s.fields, v.entries)
  }

  ghost predicate NormalFields(fields: seq<Field>, m: map<string, Value>)
    decreases fields
  {
    fields == [] ||
    ((fields[0].name in m ==> Normal(fields[0].typ, m[fields[0].name])) && NormalFields(fields[1..], m))
  }

  /** The value with every field it leaves out filled in as zero bytes. */
  ghost function Complete(t: FieldType, v: Value): Value
    decreases t
  {
    if t.Nested? && v.Rec? then Rec(CompleteFields(t.s.fields, v.entries)) else v
  }

  ghost function CompleteFields(fields: seq<Field>, m: map<string, Value>): map<string, Value>
    decreases fields
  {
    if fields == [] then map[]
    else
      var f := fields[0];
      CompleteFields(fields[1..], m)[f.name := CompleteField(f, m)]
  }

  lemma {:induction false} ZeroScalar(k: Scalar)
    ensures EncodeScalar(k, if k.OSType? then Raw(Zeros(4)) else Int(0)) == Good(Zeros(SizeOf(k)))
    ensures EncodeScalar(k, Int(0)) == Good(Zeros(SizeOf(k)))
  {
    ToBeZero(SizeOf(k));
  }

  lemma {:induction false} ToBeZero(n: nat)
    ensures ToBe(0, n) == Zeros(n)
    decreases n
  {
    if n > 0 {
      ToBeZero(n - 1);
    }
  }

  lemma {:induction false} ZeroItems(k: Scalar, count: nat)
    ensures EncodeItems(k, seq(count, _ => Int(0))) == Good(Zeros(SizeOf(k) * count))
    decreases count
  {
    var vs := seq(count, _ => Int(0));
    if count > 0 {
      ZeroScalar(k);
      ZeroItems(k, count - 1);
      assert vs[1..] == seq(count - 1, _ => Int(0));
      assert Zeros(SizeOf(k)) + Zeros(SizeOf(k) * (count - 1)) == Zeros(SizeOf(k) * count);
    } else {
      assert vs == [];
    }
  }

  /** Leaving a field out packs zero bytes, at every nesting depth. */
  lemma {:induction false} DefaultIsZero(t: FieldType)
    ensures Encode(t, DefaultValue(t)) == Good(Zeros(TypeSize(t)))
    decreases t, 1
  {
    match t
    case One(k) => ZeroScalar(k);
    case Array(k, count) => ZeroItems(k, count);
    case Nested(s) => StructIsZero(s);
  }

  lemma {:induction false} StructIsZero(s: Struct)
    ensures Pack(s, map[]) == Good(Zeros(StructSize(s)))
    decreases s, 0
  {
    hide Encode, Zeros, AlignUp;
    FieldsAreZero(s.fields, Cap(s), 0);
    var bytes := PackFields(s.fields, Cap(s), 0, map[]).bytes;
    AlignUpLeast(|bytes|, Cap(s));
    ZerosJoin(|bytes|, StructSize(s) - |bytes|);
  }

  lemma {:induction false} ZerosJoin(a: nat, b: nat)
    ensures Zeros(a) + Zeros(b) == Zeros(a + b)
  {
  }

  lemma {:induction false} FieldsAreZero(fields: seq<Field>, cap: nat, at: nat)
    requires cap in {2, 4}
    ensures at <= End(fields, cap, at)
    ensures PackFields(fields, cap, at, map[]) == Good(Zeros(End(fields, cap, at) - at))
    decreases fields, 0
  {
    hide PackField, Next, Zeros;
    EndAfter(fields, cap, at);
    if fields == [] {
      EmptyZeros();
    } else {
      var next := Next(fields[0].typ, cap, at);
      FieldIsZero(fields[0], cap, at);
      FieldsAreZero(fields[1..], cap, next);
      ZerosJoin(next - at, End(fields, cap, at) - next);
    }
  }

  lemma {:induction false} EmptyZeros()
    ensures Zeros(0) == []
  {
  }

  lemma {:induction false} FieldIsZero(f: Field, cap: nat, at: nat)
    requires cap in {2, 4}
    ensures at <= Next(f.typ, cap, at)
    ensures PackField(f, cap, at, map[]) == Good(Zeros(Next(f.typ, cap, at) - at))
    decreases f, 0
  {
    hide Encode, DefaultValue, Place, TypeSize, TypeAlign, Zeros;
    PlaceBounds(f.typ, cap, at);
    DefaultIsZero(f.typ);
    ZerosJoin(Place(f.typ, cap, at) - at, TypeSize(f.typ));
  }

  lemma {:induction false} SplitAt(raw: seq<Byte>, at: nat, end: nat, first: seq<Byte>, rest: seq<Byte>)
    requires at <= end <= |raw| && raw[at..end] == first + rest
    ensures at + |first| + |rest| == end
    ensures raw[at..at + |first|] == first && raw[at + |first|..end] == rest
  {
    var all := raw[at..end];
    assert |all| == |first| + |rest|;
    SubSlice(raw, at, end, 0, |first|);
    SubSlice(raw, at, end, |first|, |all|);
    assert all[0..|first|] == first && all[|first|..|all|] == rest;
  }

  /** Unpacking what was packed gives the value back, with the fields left out as zero. */
  lemma {:induction false} RoundTrip(t: FieldType, v: Value)
    requires Normal(t, v)
    ensures Encode(t, v).Good? && Decode(t, Encode(t, v).bytes) == Complete(t, v)
    decreases t, 1
  {
    match t
    case One(k) => ScalarRoundTrip(k, v);
    case Array(k, count) => if !k.U8? { ItemsRoundTrip(k, v.items); }
    case Nested(s) => UnpackPack(s, v.entries);
  }

  lemma {:induction false} UnpackPack(s: Struct, m: map<string, Value>)
    requires NamesIn(s.fields, m) && NormalFields(s.fields, m)
    ensures Pack(s, m).Good? && Unpack(s, Pack(s, m).bytes) == CompleteFields(s.fields, m)
    decreases s, 0
  {
    FieldsPack(s.fields, Cap(s), 0, m);
    var bytes := PackFields(s.fields, Cap(s), 0, m).bytes;
    AlignUpLeast(|bytes|, Cap(s));
    var raw := Pack(s, m).bytes;
    assert raw[..|bytes|] == bytes;
    FieldsUnpack(s.fields, Cap(s), 0, m, raw);
  }

  lemma {:induction false} FieldPacks(f: Field, cap: nat, at: nat, m: map<string, Value>)
    requires cap in {2, 4} && (f.name in m ==> Normal(f.typ, m[f.name]))
    ensures PackField(f, cap, at, m).Good?
    decreases f, 0
  {
    hide Encode, DefaultValue, Normal;
    if f.name in m { RoundTrip(f.typ, m[f.name]); } else { DefaultIsZero(f.typ); }
  }

  lemma {:induction false} FieldsPack(fields: seq<Field>, cap: nat, at: nat, m: map<string, Value>)
    requires cap in {2, 4} && NormalFields(fields, m)
    ensures PackFields(fields, cap, at, m).Good?
    decreases fields, 0
  {
    hide PackField, Next, Normal;
    if fields != [] {
      FieldPacks(fields[0], cap, at, m);
      FieldsPack(fields[1..], cap, Next(fields[0].typ, cap, at), m);
    }
  }

  ghost function CompleteField(f: Field, m: map<string, Value>): Value
    decreases f
  {
    if f.name in m then Complete(f.typ, m[f.name]) else Decode(f.typ, Zeros(TypeSize(f.typ)))
  }

  lemma {:induction false} FieldUnpacks(f: Field, cap: nat, at: nat, m: map<string, Value>, raw: seq<Byte>)
    requires cap in {2, 4} && (f.name in m ==> Normal(f.typ, m[f.name]))
    requires at <= Next(f.typ, cap, at) <= |raw| && PackField(f, cap, at, m) == Good(raw[at..Next(f.typ, cap, at)])
    ensures UnpackField(f, cap, at, raw) == CompleteField(f, m)
    decreases f, 0
  {
    hide Encode, Decode, DefaultValue, Normal, Complete, TypeAlign, TypeSize, Place;
    PlaceBounds(f.typ, cap, at);
    SplitAt(raw, at, Next(f.typ, cap, at), Zeros(Place(f.typ, cap, at) - at), Encode(f.typ, FieldValue(f, m)).bytes);
    if f.name in m { RoundTrip(f.typ, m[f.name]); } else { DefaultIsZero(f.typ); }
  }

  lemma {:induction false} FieldsUnpack(fields: seq<Field>, cap: nat, at: nat, m: map<string, Value>, raw: seq<Byte>)
    requires cap in {2, 4} && NormalFields(fields, m)
    requires at <= End(fields, cap, at) <= |raw|
    requires PackFields(fields, cap, at, m) == Good(raw[at..End(fields, cap, at)])
    ensures UnpackFields(fields, cap, at, raw) == CompleteFields(fields, m)
    decreases fields, 0
  {
    hide PackField, UnpackField, CompleteField, Normal, Next;
    if fields != [] {
      var next := Next(fields[0].typ, cap, at);
      FieldPacks(fields[0], cap, at, m);
      EndAfter(fields[1..], cap, next);
      SplitAt(raw, at, End(fields, cap, at), PackField(fields[0], cap, at, m).bytes,
              PackFields(fields[1..], cap, next, m).bytes);
      FieldUnpacks(fields[0], cap, at, m, raw);
      FieldsUnpack(fields[1..], cap, next, m, raw);
    }
  }

  // ----- pack after unpack

  /** The bytes with padding zeroed and Booleans made 0 or 1. */
  function Scrub(t: FieldType, raw: seq<Byte>): (r: seq<Byte>)
    requires |raw| == TypeSize(t)
    ensures |r| == |raw|
    decreases t
  {
    match t
    case One(k) => ScrubScalar(k, raw)
    case Array(k, count) => ScrubItems(k, raw, count)
    case Nested(s) => ScrubStruct(s, raw)
  }

  function ScrubField(f: Field, cap: nat, at: nat, raw: seq<Byte>): (r: seq<Byte>)
    requires cap in {2, 4} && Next(f.typ, cap, at) <= |raw|
    ensures at + |r| == Next(f.typ, cap, at)
    decreases f
  {
    PlaceBounds(f.typ, cap, at);
    var o := Place(f.typ, cap, at);
    Zeros(o - at) + Scrub(f.typ, raw[o..Next(f.typ, cap, at)])
  }

  function ScrubFields(fields: seq<Field>, cap: nat, at: nat, raw: seq<Byte>): (r: seq<Byte>)
    requires cap in {2, 4} && End(fields, cap, at) <= |raw|
    ensures at + |r| == End(fields, cap, at)
    decreases fields
  {
    if fields == [] then []
    else
      var next := Next(fields[0].typ, cap, at);
      EndAfter(fields[1..], cap, next);
      ScrubField(fields[0], cap, at, raw) + ScrubFields(fields[1..], cap, next, raw)
  }

  function ScrubStruct(s: Struct, raw: seq<Byte>): (r: seq<Byte>)
    requires |raw| >= StructSize(s)
    ensures |r| == StructSize(s)
    decreases s
  {
    AlignUpLeast(End(s.fields, Cap(s), 0), Cap(s));
    var fields := ScrubFields(s.fields, Cap(s), 0, raw);
    fields + Zeros(StructSize(s) - |fields|)
  }

  /** All names in a declaration and in what it nests are distinct, as the constructor demands. */
  ghost predicate WellNamed(t: FieldType)
    decreases t
  {
    t.Nested? ==> Unique(t.s.fields) && FieldsNamed(t.s.fields)
  }

  ghost predicate FieldsNamed(fields: seq<Field>)
    decreases fields
  {
    fields == [] || (WellNamed(fields[0].typ) && FieldsNamed(fields[1..]))
  }

  lemma {:induction false} U8Scrub(raw: seq<Byte>, count: nat)
    requires |raw| == count
    ensures ScrubItems(U8, raw, count) == raw
    decreases count
  {
    if count > 0 {
      U8Scrub(raw[1..], count - 1);
      assert raw == raw[..1] + raw[1..];
    }
  }

  /** Packing what was unpacked only zeroes padding and normalises Booleans. */
  lemma {:induction false} Repack(t: FieldType, raw: seq<Byte>)
    requires |raw| == TypeSize(t) && WellNamed(t)
    ensures Encode(t, Decode(t, raw)) == Good(Scrub(t, raw))
    decreases t, 1
  {
    match t
    case One(k) => ScalarRepack(k, raw);
    case Array(k, count) => if k.U8? { U8Scrub(raw, count); } else { ItemsRepack(k, raw, count); }
    case Nested(s) => PackUnpack(s, raw);
  }

  lemma {:induction false} PackUnpack(s: Struct, raw: seq<Byte>)
    requires |raw| >= StructSize(s) && Unique(s.fields) && FieldsNamed(s.fields)
    ensures Pack(s, Unpack(s, raw)) == Good(ScrubStruct(s, raw))
    decreases s, 0
  {
    AlignUpLeast(End(s.fields, Cap(s), 0), Cap(s));
    var m := UnpackFields(s.fields, Cap(s), 0, raw);
    UnpackedNames(s.fields, Cap(s), 0, raw);
    UnpackedEntries(s.fields, Cap(s), 0, raw);
    FieldsRepack(s.fields, Cap(s), 0, raw, m);
  }

  lemma {:induction false} UnpackedNames(fields: seq<Field>, cap: nat, at: nat, raw: seq<Byte>)
    requires cap in {2, 4} && End(fields, cap, at) <= |raw|
    ensures NamesIn(fields, UnpackFields(fields, cap, at, raw))
    decreases |fields|
  {
    hide UnpackField, Next;
    if fields != [] {
      var f, next := fields[0], Next(fields[0].typ, cap, at);
      EndAfter(fields[1..], cap, next);
      UnpackedNames(fields[1..], cap, next, raw);
      forall name | name in UnpackFields(fields, cap, at, raw)
        ensures exists i :: 0 <= i < |fields| && fields[i].name == name
      {
        if name != f.name {
          var i :| 0 <= i < |fields[1..]| && fields[1..][i].name == name;
          assert fields[i + 1].name == name;
        } else {
          assert fields[0].name == name;
        }
      }
    }
  }

  /** m holds, under each name, the decoding of the field's bytes. */
  ghost predicate HoldsEntries(fields: seq<Field>, cap: nat, at: nat, raw: seq<Byte>, m: map<string, Value>)
    requires cap in {2, 4} && End(fields, cap, at) <= |raw|
    decreases fields
  {
    if fields == [] then true
    else
      var f, next := fields[0], Next(fields[0].typ, cap, at);
      EndAfter(fields[1..], cap, next);
      f.name in m && m[f.name] == UnpackField(f, cap, at, raw) && HoldsEntries(fields[1..], cap, next, raw, m)
  }

  lemma {:induction false} EntriesUnderUpdate(fields: seq<Field>, cap: nat, at: nat, raw: seq<Byte>,
                                              m: map<string, Value>, name: string, v: Value)
    requires cap in {2, 4} && End(fields, cap, at) <= |raw| && HoldsEntries(fields, cap, at, raw, m)
    requires forall i :: 0 <= i < |fields| ==> fields[i].name != name
    ensures HoldsEntries(fields, cap, at, raw, m[name := v])
    decreases |fields|
  {
    hide UnpackField, Next;
    if fields != [] {
      EndAfter(fields[1..], cap, Next(fields[0].typ, cap, at));
      EntriesUnderUpdate(fields[1..], cap, Next(fields[0].typ, cap, at), raw, m, name, v);
    }
  }

  lemma {:induction false} UnpackedEntries(fields: seq<Field>, cap: nat, at: nat, raw: seq<Byte>)
    requires cap in {2, 4} && End(fields, cap, at) <= |raw| && Unique(fields)
    ensures HoldsEntries(fields, cap, at, raw, UnpackFields(fields, cap, at, raw))
    decreases |fields|
  {
    hide UnpackField, Next;
    if fields != [] {
      var next := Next(fields[0].typ, cap, at);
      EndAfter(fields[1..], cap, next);
      UnpackedEntries(fields[1..], cap, next, raw);
      EntriesUnderUpdate(fields[1..], cap, next, raw, UnpackFields(fields[1..], cap, next, raw), fields[0].name,
                         UnpackField(fields[0], cap, at, raw));
    }
  }

  lemma {:induction false} FieldRepacks(f: Field, cap: nat, at: nat, raw: seq<Byte>, m: map<string, Value>)
    requires cap in {2, 4} && Next(f.typ, cap, at) <= |raw| && WellNamed(f.typ)
    requires f.name in m && m[f.name] == UnpackField(f, cap, at, raw)
    ensures PackField(f, cap, at, m) == Good(ScrubField(f, cap, at, raw))
    decreases f, 0
  {
    hide Encode, Decode, WellNamed, Scrub, Place, TypeSize, TypeAlign;
    PlaceBounds(f.typ, cap, at);
    Repack(f.typ, raw[Place(f.typ, cap, at)..Next(f.typ, cap, at)]);
  }

  lemma {:induction false} FieldsRepack(fields: seq<Field>, cap: nat, at: nat, raw: seq<Byte>, m: map<string, Value>)
    requires cap in {2, 4} && End(fields, cap, at) <= |raw| && FieldsNamed(fields)
    requires HoldsEntries(fields, cap, at, raw, m)
    ensures PackFields(fields, cap, at, m) == Good(ScrubFields(fields, cap, at, raw))
    decreases fields, 0
  {
    hide PackField, UnpackField, ScrubField, WellNamed, Next;
    if fields != [] {
      var next := Next(fields[0].typ, cap, at);
      EndAfter(fields[1..], cap, next);
      FieldRepacks(fields[0], cap, at, raw, m);
      FieldsRepack(fields[1..], cap, next, raw, m);
    }
  }

  // ----- writing one field in place

  lemma {:induction false} SpliceMiddle(pad: seq<Byte>, first: seq<Byte>, rest: seq<Byte>, e: seq<Byte>)
    requires |e| == |first|
    ensures Splice(pad + first + rest, |pad|, e) == pad + e + rest
  {
  }

  lemma {:induction false} SplicePadded(bytes: seq<Byte>, pad: seq<Byte>, o: nat, e: seq<Byte>)
    requires o + |e| <= |bytes|
    ensures Splice(bytes + pad, o, e) == Splice(bytes, o, e) + pad
  {
  }

  lemma {:induction false} SpliceTail(head: seq<Byte>, rest: seq<Byte>, p: nat, e: seq<Byte>)
    requires p + |e| <= |rest|
    ensures Splice(head + rest, |head| + p, e) == head + Splice(rest, p, e)
  {
  }

  /** The record of m with field i changed is the record of m with that field's bytes replaced. */
  ghost predicate Rewrites(fields: seq<Field>, cap: nat, at: nat, m: map<string, Value>, i: nat, v: Value)
    requires cap in {2, 4} && i < |fields|
    requires PackFields(fields, cap, at, m).Good? && Encode(fields[i].typ, v).Good?
  {
    var bytes := PackFields(fields, cap, at, m).bytes;
    var o := Offset(fields, cap, at, i) - at;
    0 <= o && o + TypeSize(fields[i].typ) <= |bytes| &&
    PackFields(fields, cap, at, m[fields[i].name := v]) == Good(Splice(bytes, o, Encode(fields[i].typ, v).bytes))
  }

  /** Writing a field into a packed record is packing with that field changed. */
  lemma {:induction false} FieldsWrite(fields: seq<Field>, cap: nat, at: nat, m: map<string, Value>, i: nat, v: Value)
    requires cap in {2, 4} && Unique(fields) && i < |fields|
    requires PackFields(fields, cap, at, m).Good? && Encode(fields[i].typ, v).Good?
    ensures Rewrites(fields, cap, at, m, i, v)
    decreases |fields|
  {
    hide PackField, Next, Encode, Rewrites, End;
    if i == 0 {
      FirstFieldWrite(fields, cap, at, m, v);
    } else {
      FieldsWrite(fields[1..], cap, Next(fields[0].typ, cap, at), m, i - 1, v);
      LaterFieldWrite(fields, cap, at, m, i, v);
    }
  }

  lemma {:induction false} FirstFieldWrite(fields: seq<Field>, cap: nat, at: nat, m: map<string, Value>, v: Value)
    requires cap in {2, 4} && Unique(fields) && fields != []
    requires PackFields(fields, cap, at, m).Good? && Encode(fields[0].typ, v).Good?
    ensures Rewrites(fields, cap, at, m, 0, v)
  {
    hide PackField, Next, Encode, Splice, TypeSize, Place, Zeros;
    OffsetIn(fields, cap, at, 0);
    var f, next := fields[0], Next(fields[0].typ, cap, at);
    var first, rest := PackField(f, cap, at, m).bytes, PackFields(fields[1..], cap, next, m).bytes;
    FieldsIgnore(fields[1..], cap, next, m, f.name, v);
    FieldWrites(f, cap, at, m, v);
    SplicePadded(first, rest, Place(f.typ, cap, at) - at, Encode(f.typ, v).bytes);
  }

  lemma {:induction false} LaterFieldWrite(fields: seq<Field>, cap: nat, at: nat, m: map<string, Value>, i: nat,
                                           v: Value)
    requires cap in {2, 4} && Unique(fields) && 0 < i < |fields|
    requires PackFields(fields, cap, at, m).Good? && Encode(fields[i].typ, v).Good?
    requires Rewrites(fields[1..], cap, Next(fields[0].typ, cap, at), m, i - 1, v)
    ensures Rewrites(fields, cap, at, m, i, v)
  {
    hide PackField, Next, Encode, Splice, TypeSize, Place, Zeros, End;
    var f, next := fields[0], Next(fields[0].typ, cap, at);
    var first, rest := PackField(f, cap, at, m).bytes, PackFields(fields[1..], cap, next, m).bytes;
    assert f.name != fields[i].name;
    FieldIgnores(f, cap, at, m, fields[i].name, v);
    SpliceTail(first, rest, Offset(fields, cap, at, i) - next, Encode(fields[i].typ, v).bytes);
  }

  lemma {:induction false} FieldWrites(f: Field, cap: nat, at: nat, m: map<string, Value>, v: Value)
    requires cap in {2, 4} && PackField(f, cap, at, m).Good? && Encode(f.typ, v).Good?
    ensures at <= Place(f.typ, cap, at)
    ensures var bytes, o := PackField(f, cap, at, m).bytes, Place(f.typ, cap, at) - at;
            o + TypeSize(f.typ) == |bytes| &&
            PackField(f, cap, at, m[f.name := v]) == Good(Splice(bytes, o, Encode(f.typ, v).bytes))
  {
    hide Encode, TypeSize, TypeAlign, Place;
    PlaceBounds(f.typ, cap, at);
    SpliceMiddle(Zeros(Place(f.typ, cap, at) - at), Encode(f.typ, FieldValue(f, m)).bytes, [], Encode(f.typ, v).bytes);
    hide Splice;
    NoTail(Zeros(Place(f.typ, cap, at) - at) + Encode(f.typ, FieldValue(f, m)).bytes);
    NoTail(Zeros(Place(f.typ, cap, at) - at) + Encode(f.typ, v).bytes);
  }

  lemma {:induction false} NoTail(x: seq<Byte>)
    ensures x + [] == x
  {
  }

  lemma {:induction false} FieldIgnores(f: Field, cap: nat, at: nat, m: map<string, Value>, name: string, v: Value)
    requires cap in {2, 4} && f.name != name
    ensures PackField(f, cap, at, m[name := v]) == PackField(f, cap, at, m)
  {
  }

  lemma {:induction false} FieldsIgnore(fields: seq<Field>, cap: nat, at: nat, m: map<string, Value>, name: string,
                                        v: Value)
    requires cap in {2, 4} && forall i :: 0 <= i < |fields| ==> fields[i].name != name
    ensures PackFields(fields, cap, at, m[name := v]) == PackFields(fields, cap, at, m)
    decreases |fields|
  {
    hide PackField, Next;
    if fields != [] {
      FieldIgnores(fields[0], cap, at, m, name, v);
      FieldsIgnore(fields[1..], cap, Next(fields[0].typ, cap, at), m, name, v);
    }
  }

  lemma {:induction false} WriteFieldIsRepack(s: Struct, m: map<string, Value>, i: nat, v: Value)
    requires Unique(s.fields) && i < |s.fields| && Pack(s, m).Good? && Encode(s.fields[i].typ, v).Good?
    ensures var o := Offset(s.fields, Cap(s), 0, i);
            o + TypeSize(s.fields[i].typ) <= StructSize(s) &&
            Pack(s, m[s.fields[i].name := v]) == Good(Splice(Pack(s, m).bytes, o, Encode(s.fields[i].typ, v).bytes))
  {
    hide Encode, TypeSize, TypeAlign, DefaultValue, Splice, PackFields, Offset, AlignUp, Zeros;
    var m2, o, e := m[s.fields[i].name := v], Offset(s.fields, Cap(s), 0, i), Encode(s.fields[i].typ, v).bytes;
    assert NamesIn(s.fields, m2);
    FieldsWrite(s.fields, Cap(s), 0, m, i, v);
    var bytes := PackFields(s.fields, Cap(s), 0, m).bytes;
    AlignUpLeast(|bytes|, Cap(s));
    var pad := Zeros(StructSize(s) - |bytes|);
    SplicePadded(bytes, pad, o, e);
  }
}
