/** Structures crossing the guest boundary (src/cwhost/abi.py, `_pack_bytes`, `_unpack_bytes`,
    `pack`, `unpack`, `write_field`). */
module StructMemory {
  import opened Alignment
  import opened Bytes
  import opened StructLayout
  import opened StructCodec
  import G = Guest

  // ----- growing a prefix of the declaration by one field

  /** What packing one more field appends. */
  ghost function Then(done: Packed, next: Packed): Packed {
    if done.Good? && next.Good? then Good(done.bytes + next.bytes) else Bad
  }

  lemma {:induction false} ThenAssociates(a: Packed, b: Packed, c: Packed)
    ensures Then(Then(a, b), c) == Then(a, Then(b, c))
    ensures Then(a, Good([])) == Then(Good([]), a) == a
  {
    if a.Good? && b.Good? && c.Good? {
      assert a.bytes + b.bytes + c.bytes == a.bytes + (b.bytes + c.bytes);
    }
  }

  lemma {:induction false} PackHead(fields: seq<Field>, cap: nat, at: nat, m: map<string, Value>)
    requires cap in {2, 4} && fields != []
    ensures PackFields(fields, cap, at, m) ==
            Then(PackField(fields[0], cap, at, m), PackFields(fields[1..], cap, Next(fields[0].typ, cap, at), m))
    ensures End(fields, cap, at) == End(fields[1..], cap, Next(fields[0].typ, cap, at))
  {
    hide PackField, Next;
  }

  lemma {:induction false} PackSnoc(fields: seq<Field>, cap: nat, at: nat, m: map<string, Value>, i: nat)
    requires cap in {2, 4} && i < |fields|
    ensures PackFields(fields[..i + 1], cap, at, m) ==
            Then(PackFields(fields[..i], cap, at, m), PackField(fields[i], cap, End(fields[..i], cap, at), m))
    decreases |fields|
  {
    hide PackField, PackFields, Next, Then, End;
    var rest, next := fields[1..], Next(fields[0].typ, cap, at);
    PackHead(fields[..i + 1], cap, at, m);
    if i == 0 {
      assert fields[..1][1..] == [] && fields[..0] == [];
      OneField(fields[0], cap, at, m);
      OneField(fields[0], cap, next, m);
      ThenAssociates(PackField(fields[0], cap, at, m), Good([]), Good([]));
    } else {
      assert fields[..i][1..] == rest[..i - 1] && fields[..i + 1][1..] == rest[..i];
      PackHead(fields[..i], cap, at, m);
      PackSnoc(rest, cap, next, m, i - 1);
      ThenAssociates(PackField(fields[0], cap, at, m), PackFields(rest[..i - 1], cap, next, m),
                     PackField(fields[i], cap, End(fields[..i], cap, at), m));
    }
  }

  lemma {:induction false} OneField(f: Field, cap: nat, at: nat, m: map<string, Value>)
    requires cap in {2, 4}
    ensures PackFields([f], cap, at, m) == PackField(f, cap, at, m)
    ensures PackFields([], cap, at, m) == Good([]) && End([], cap, at) == at
  {
    hide PackField, Next;
    assert [f][1..] == [];
  }

  lemma {:induction false} EndWithin(fields: seq<Field>, cap: nat, at: nat, i: nat)
    requires cap in {2, 4} && i <= |fields|
    ensures End(fields[..i], cap, at) <= End(fields, cap, at)
    decreases |fields|
  {
    hide Next;
    if i == 0 {
      EndAfter(fields, cap, at);
    } else {
      assert fields[..i][1..] == fields[1..][..i - 1];
      EndWithin(fields[1..], cap, Next(fields[0].typ, cap, at), i - 1);
    }
  }

  lemma {:induction false} UnpackSnoc(fields: seq<Field>, cap: nat, at: nat, raw: seq<Byte>, i: nat)
    requires cap in {2, 4} && i < |fields| && End(fields, cap, at) <= |raw| && Unique(fields)
    ensures End(fields[..i], cap, at) <= End(fields[..i + 1], cap, at) <= |raw|
    ensures Next(fields[i].typ, cap, End(fields[..i], cap, at)) == End(fields[..i + 1], cap, at)
    ensures UnpackFields(fields[..i + 1], cap, at, raw) ==
            var v := UnpackField(fields[i], cap, End(fields[..i], cap, at), raw);
            UnpackFields(fields[..i], cap, at, raw)[fields[i].name := v]
    decreases |fields|
  {
    hide UnpackField, Next;
    var rest, next := fields[1..], Next(fields[0].typ, cap, at);
    EndAfter(rest, cap, next);
    EndWithin(fields, cap, at, i + 1);
    EndWithin(fields, cap, at, i);
    if i == 0 {
      assert fields[..1] == [fields[0]] && fields[..1][1..] == [];
      PlaceBounds(fields[0].typ, cap, at);
    } else {
      assert fields[..i][1..] == rest[..i - 1] && fields[..i + 1][1..] == rest[..i];
      UnpackSnoc(rest, cap, next, raw, i - 1);
      assert fields[0].name != fields[i].name;
    }
  }

  lemma {:induction false} NamedAt(fields: seq<Field>, i: nat)
    requires FieldsNamed(fields) && i < |fields|
    ensures WellNamed(fields[i].typ)
    decreases |fields|
  {
    hide WellNamed;
    if i > 0 { NamedAt(fields[1..], i - 1); }
  }

  // ----- the codec's methods

  method EncodeField(t: FieldType, v: Value) returns (r: Packed)
    requires WellNamed(t)
    ensures r == Encode(t, v)
    decreases t, 1
  {
    match t
    case One(k) => r := EncodeScalar(k, v);
    case Array(k, count) =>
      if k.U8? && v.Raw? {
        r := if |v.bytes| == count then Good(v.bytes) else Bad;
      } else if v.List? && |v.items| == count {
        r := EncodeItems(k, v.items);
      } else {
        r := Bad;
      }
    case Nested(s) =>
      if v.Rec? {
        var raw := new Byte[StructSize(s)](_ => 0);
        var ok := PackBytes(s, raw, v.entries);
        r := if ok then Good(raw[..]) else Bad;
      } else {
        r := Bad;
      }
  }

  /** The first i fields are packed into the buffer, and zeros follow. */
  ghost predicate Packing(s: Struct, m: map<string, Value>, i: nat, buffer: seq<Byte>) {
    i <= |s.fields| && PackFields(s.fields[..i], Cap(s), 0, m).Good? &&
    End(s.fields[..i], Cap(s), 0) <= StructSize(s) &&
    buffer == PackFields(s.fields[..i], Cap(s), 0, m).bytes + Zeros(StructSize(s) - End(s.fields[..i], Cap(s), 0))
  }

  lemma {:induction false} PackStarts(s: Struct, m: map<string, Value>, buffer: seq<Byte>)
    requires |buffer| == StructSize(s) && forall k :: 0 <= k < |buffer| ==> buffer[k] == 0
    ensures Packing(s, m, 0, buffer)
  {
    assert s.fields[..0] == [];
    StructBounds(s);
    assert buffer == [] + Zeros(StructSize(s));
  }

  lemma {:induction false} PackEnds(s: Struct, m: map<string, Value>, buffer: seq<Byte>)
    requires Packing(s, m, |s.fields|, buffer) && NamesIn(s.fields, m)
    ensures Pack(s, m) == Good(buffer)
  {
    hide PackFields, NamesIn, End, StructSize;
    assert s.fields[..|s.fields|] == s.fields;
    UnknownNames(s, m);
  }

  /** `_pack_bytes`: every field's bytes are written into a zeroed buffer at its offset. */
  method PackBytes(s: Struct, target: array<Byte>, m: map<string, Value>) returns (ok: bool)
    requires Unique(s.fields) && FieldsNamed(s.fields)
    requires target.Length == StructSize(s) && forall k :: 0 <= k < target.Length ==> target[k] == 0
    modifies target
    ensures ok <==> Pack(s, m).Good?
    ensures ok ==> target[..] == Pack(s, m).bytes
    decreases s, 1
  {
    hide Pack, Packing, PackFields, Offset, FieldsNamed, Unique, StructSize;
    var built, layout, size := Build(s);
    UnknownNames(s, m);
    if exists name :: name in m && name !in layout {
      return false;
    }
    var i := 0;
    PackStarts(s, m, target[..]);
    while i < |s.fields|
      invariant i <= |s.fields| && Packing(s, m, i, target[..])
    {
      ok := PackOne(s, target, m, layout, i);
      if !ok {
        return;
      }
      i := i + 1;
    }
    PackEnds(s, m, target[..]);
    return true;
  }

  /** One turn of that loop. */
  method PackOne(s: Struct, target: array<Byte>, m: map<string, Value>, layout: map<string, Slot>, i: nat)
    returns (ok: bool)
    requires FieldsNamed(s.fields) && i < |s.fields| && s.fields[i].name in layout
    requires layout[s.fields[i].name] == Slot(Offset(s.fields, Cap(s), 0, i), s.fields[i].typ)
    requires target.Length == StructSize(s) && Packing(s, m, i, target[..])
    modifies target
    ensures ok ==> Packing(s, m, i + 1, target[..])
    ensures !ok ==> PackFields(s.fields, Cap(s), 0, m).Bad?
    decreases s, 0
  {
    hide Encode, PackField, PackFields, Splice, DefaultValue, Zeros, FieldsNamed, WellNamed, Next, TypeSize, TypeAlign;
    hide Place, AlignUp, End, Offset, StructSize;
    var f := s.fields[i];
    ghost var at, done := End(s.fields[..i], Cap(s), 0), PackFields(s.fields[..i], Cap(s), 0, m).bytes;
    NamedAt(s.fields, i);
    FieldFits(s, i);
    var slot := layout[f.name];
    var value := if f.name in m then m[f.name] else DefaultValue(slot.typ);
    var bytes := EncodeField(slot.typ, value);
    if bytes.Bad? {
      FieldBad(s.fields, Cap(s), 0, m, i);
      return false;
    }
    PackSnoc(s.fields, Cap(s), 0, m, i);
    CopyInto(target, slot.offset, bytes.bytes);
    FieldAppends(f, Cap(s), at, m, done, bytes.bytes, StructSize(s));
    return true;
  }

  lemma {:induction false} UnknownNames(s: Struct, m: map<string, Value>)
    ensures Pack(s, m).Good? <==> NamesIn(s.fields, m) && PackFields(s.fields, Cap(s), 0, m).Good?
    ensures Pack(s, m).Good? ==>
              var bytes := PackFields(s.fields, Cap(s), 0, m).bytes;
              Pack(s, m).bytes == bytes + Zeros(StructSize(s) - |bytes|)
  {
    hide PackFields, NamesIn, End;
    StructBounds(s);
  }

  lemma {:induction false} StructBounds(s: Struct)
    ensures End(s.fields, Cap(s), 0) <= StructSize(s)
  {
    AlignUpLeast(End(s.fields, Cap(s), 0), Cap(s));
  }

  lemma {:induction false} FieldFits(s: Struct, i: nat)
    requires i < |s.fields|
    ensures var at, o := End(s.fields[..i], Cap(s), 0), Offset(s.fields, Cap(s), 0, i);
            at <= o && o == Place(s.fields[i].typ, Cap(s), at) &&
            End(s.fields[..i + 1], Cap(s), 0) == o + TypeSize(s.fields[i].typ) <= StructSize(s)
  {
    hide AlignUp, TypeSize, TypeAlign, Place;
    OffsetSnoc(s.fields, Cap(s), 0, i);
    EndSnoc(s.fields, Cap(s), 0, i);
    EndWithin(s.fields, Cap(s), 0, i + 1);
    StructBounds(s);
    PlaceBounds(s.fields[i].typ, Cap(s), End(s.fields[..i], Cap(s), 0));
  }

  /** `target[offset:offset + size] = bytes` */
  method CopyInto(target: array<Byte>, offset: nat, bytes: seq<Byte>)
    requires offset + |bytes| <= target.Length
    modifies target
    ensures target[..] == Splice(old(target[..]), offset, bytes)
  {
    forall k | 0 <= k < |bytes| {
      target[offset + k] := bytes[k];
    }
  }

  lemma {:induction false} FieldAppends(f: Field, cap: nat, at: nat, m: map<string, Value>, done: seq<Byte>,
                                        bytes: seq<Byte>, size: nat)
    requires cap in {2, 4} && |done| == at && Encode(f.typ, FieldValue(f, m)) == Good(bytes)
    requires at <= Place(f.typ, cap, at) && Place(f.typ, cap, at) + |bytes| <= size
    ensures var next := PackField(f, cap, at, m);
            next.Good? &&
            Splice(done + Zeros(size - at), Place(f.typ, cap, at), bytes) ==
            done + next.bytes + Zeros(size - at - |next.bytes|)
  {
    hide Encode, Place, FieldValue;
    var pad := Place(f.typ, cap, at) - at;
    Placed(done, size - at, pad, bytes);
    hide Splice;
    assert PackField(f, cap, at, m) == Good(Zeros(pad) + bytes);
  }

  /** Writing a field into the zeros that follow what is packed. */
  lemma {:induction false} Placed(done: seq<Byte>, room: nat, pad: nat, bytes: seq<Byte>)
    requires pad + |bytes| <= room
    ensures Splice(done + Zeros(room), |done| + pad, bytes) ==
            done + (Zeros(pad) + bytes) + Zeros(room - pad - |bytes|)
  {
  }

  method DecodeField(t: FieldType, raw: seq<Byte>) returns (v: Value)
    requires |raw| == TypeSize(t) && WellNamed(t)
    ensures v == Decode(t, raw)
    decreases t, 1
  {
    match t
    case One(k) => v := DecodeScalar(k, raw);
    case Array(k, count) =>
      if k.U8? {
        v := Raw(raw);
      } else {
        var items := DecodeItems(k, raw, count);
        v := List(items);
      }
    case Nested(s) =>
      var ok, m := UnpackBytes(s, raw);
      v := Rec(m);
  }

  /** `_unpack_bytes`: a dictionary filled field by field. */
  method UnpackBytes(s: Struct, raw: seq<Byte>) returns (ok: bool, m: map<string, Value>)
    requires Unique(s.fields) && FieldsNamed(s.fields)
    ensures ok <==> |raw| >= StructSize(s)
    ensures ok ==> m == Unpack(s, raw)
    decreases s, 0
  {
    hide Decode, UnpackFields, FieldsNamed, WellNamed, Next, TypeSize, TypeAlign, Place, AlignUp, End, Offset, Unique;
    hide StructSize;
    var fields, cap := s.fields, Cap(s);
    var built, layout, size := Build(s);
    m := map[];
    if |raw| < size {
      return false, m;
    }
    var i := 0;
    assert fields[..0] == [] && fields[..|fields|] == fields;
    StructBounds(s);
    UnpackNone(cap, raw);
    while i < |fields|
      invariant i <= |fields| && End(fields[..i], cap, 0) <= |raw|
      invariant m == UnpackFields(fields[..i], cap, 0, raw)
    {
      var f := fields[i];
      NamedAt(fields, i);
      FieldFits(s, i);
      UnpackSnoc(fields, cap, 0, raw, i);
      var slot := layout[f.name];
      var v := DecodeField(slot.typ, raw[slot.offset..slot.offset + TypeSize(slot.typ)]);
      m := m[f.name := v];
      i := i + 1;
    }
    return true, m;
  }

  lemma {:induction false} UnpackNone(cap: nat, raw: seq<Byte>)
    requires cap in {2, 4}
    ensures End([], cap, 0) == 0 && UnpackFields([], cap, 0, raw) == map[]
  {
  }

  // ----- through guest memory

  /** `pack`: nothing is written when a value does not fit its field. */
  method PackAt(s: Struct, g: G.Guest, addr: int, m: map<string, Value>) returns (ok: bool)
    requires Unique(s.fields) && FieldsNamed(s.fields)
    modifies g
    ensures ok <==> Pack(s, m).Good? && (StructSize(s) == 0 || G.Mapped(old(g.mem), addr % TWO32, StructSize(s)))
    ensures g.mem == if ok then G.Store(old(g.mem), addr % TWO32, Pack(s, m).bytes) else old(g.mem)
  {
    hide Pack, StructSize;
    var raw := new Byte[StructSize(s)](_ => 0);
    ok := PackBytes(s, raw, m);
    if ok {
      ok := g.Write(addr, raw[..]);
    }
  }

  /** `unpack` */
  method UnpackAt(s: Struct, g: G.Guest, addr: int) returns (ok: bool, m: map<string, Value>)
    requires Unique(s.fields) && FieldsNamed(s.fields)
    ensures ok <==> StructSize(s) == 0 || G.Mapped(g.mem, addr % TWO32, StructSize(s))
    ensures ok && StructSize(s) > 0 ==> m == Unpack(s, G.Load(g.mem, addr % TWO32, StructSize(s)))
    ensures ok && StructSize(s) == 0 ==> m == Unpack(s, [])
  {
    hide Unpack, StructSize;
    m := map[];
    var raw;
    ok, raw := g.Read(addr, StructSize(s));
    if ok {
      ok, m := UnpackBytes(s, raw);
    }
  }

  ghost predicate Named(fields: seq<Field>, i: int, name: string) {
    0 <= i < |fields| && fields[i].name == name
  }

  /** `write_field` */
  method WriteField(s: Struct, g: G.Guest, addr: int, name: string, v: Value) returns (ok: bool)
    requires Unique(s.fields) && FieldsNamed(s.fields)
    modifies g
    ensures ok ==> exists i :: Named(s.fields, i, name)
    ensures forall i :: Named(s.fields, i, name) ==>
              var at, e := (addr + Offset(s.fields, Cap(s), 0, i)) % TWO32, Encode(s.fields[i].typ, v);
              (ok <==> e.Good? && (e.bytes == [] || G.Mapped(old(g.mem), at, |e.bytes|))) &&
              (ok ==> g.mem == G.Store(old(g.mem), at, e.bytes))
    ensures !ok ==> g.mem == old(g.mem)
  {
    hide Encode, Offset, TypeSize, Place, End, Unique, FieldsNamed, G.Store, G.Load, G.Mapped;
    var built, layout, size := Build(s);
    if name !in layout {
      return false;
    }
    ghost var i :| 0 <= i < |s.fields| && s.fields[i].name == name;
    assert Named(s.fields, i, name);
    OnlyOne(s.fields, i, name);
    NamedAt(s.fields, i);
    var slot := layout[name];
    var bytes := EncodeField(slot.typ, v);
    if bytes.Bad? {
      return false;
    }
    ok := g.Write(addr + slot.offset, bytes.bytes);
  }

  lemma {:induction false} OnlyOne(fields: seq<Field>, i: int, name: string)
    requires Unique(fields) && Named(fields, i, name)
    ensures forall j :: Named(fields, j, name) ==> j == i
  {
  }

  /** Where memory holds a packed record, writing one of its fields leaves the record packed with
      that field changed. */
  lemma {:induction false} FieldWriteRepacks(s: Struct, mem: G.Memory, addr: nat, m: map<string, Value>, i: nat,
                                             v: Value)
    requires Unique(s.fields) && i < |s.fields| && Encode(s.fields[i].typ, v).Good?
    requires addr + StructSize(s) <= TWO32 && G.Mapped(mem, addr, StructSize(s))
    requires Pack(s, m) == Good(G.Load(mem, addr, StructSize(s)))
    ensures var at, bytes := (addr + Offset(s.fields, Cap(s), 0, i)) % TWO32, Encode(s.fields[i].typ, v).bytes;
            var next := Pack(s, m[s.fields[i].name := v]);
            next.Good? && (bytes == [] || G.Mapped(mem, at, |bytes|)) &&
            G.Store(mem, at, bytes) == G.Store(mem, addr, next.bytes)
  {
    hide Pack, StructSize, Encode, Splice, Offset, TypeSize, Unique, G.Store, G.Load, G.Mapped;
    WriteFieldIsRepack(s, m, i, v);
    StoreInside(mem, addr, Pack(s, m).bytes, Offset(s.fields, Cap(s), 0, i), Encode(s.fields[i].typ, v).bytes);
  }

  /** A value its field does not take stops the whole. */
  lemma {:induction false} FieldBad(fields: seq<Field>, cap: nat, at: nat, m: map<string, Value>, i: nat)
    requires cap in {2, 4} && i < |fields| && Encode(fields[i].typ, FieldValue(fields[i], m)).Bad?
    ensures PackFields(fields, cap, at, m).Bad?
    decreases |fields|
  {
    hide Encode, Next, Place, FieldValue;
    if i > 0 && PackField(fields[0], cap, at, m).Good? {
      FieldBad(fields[1..], cap, Next(fields[0].typ, cap, at), m, i - 1);
    }
  }

  /** Storing a part of a record is storing the record with that part replaced. */
  lemma {:induction false} StoreInside(mem: G.Memory, addr: nat, packed: seq<Byte>, o: nat, part: seq<Byte>)
    requires o + |part| <= |packed| && addr + |packed| <= TWO32
    requires G.Mapped(mem, addr, |packed|) && packed == G.Load(mem, addr, |packed|)
    ensures part == [] || G.Mapped(mem, (addr + o) % TWO32, |part|)
    ensures G.Store(mem, (addr + o) % TWO32, part) == G.Store(mem, addr, Splice(packed, o, part))
  {
    hide G.Store, G.Load, G.Mapped, Splice;
    var at := (addr + o) % TWO32;
    var a, b := G.Store(mem, at, part), G.Store(mem, addr, Splice(packed, o, part));
    if part != [] {
      assert at == addr + o;
      MappedPart(mem, addr, |packed|, o, |part|);
    }
    forall x | x in mem ensures a[x] == b[x] {
      StoredByte(mem, addr, packed, o, part, x);
    }
    SameMap(a, b);
  }

  lemma {:induction false} MappedPart(mem: G.Memory, a: int, n: nat, p: nat, m: nat)
    requires G.Mapped(mem, a, n) && p + m <= n
    ensures G.Mapped(mem, a + p, m)
  {
  }

  lemma {:induction false} SameMap<K, V>(a: map<K, V>, b: map<K, V>)
    requires a.Keys == b.Keys && forall k :: k in a ==> a[k] == b[k]
    ensures a == b
  {
  }

  lemma {:induction false} StoredByte(mem: G.Memory, addr: nat, packed: seq<Byte>, o: nat, part: seq<Byte>, x: int)
    requires o + |part| <= |packed| && x in mem
    requires G.Mapped(mem, addr, |packed|) && packed == G.Load(mem, addr, |packed|)
    ensures G.Store(mem, addr, Splice(packed, o, part))[x] ==
            if addr + o <= x < addr + o + |part| then part[x - addr - o] else mem[x]
  {
    hide *;
    if addr <= x < addr + |packed| {
      assert packed[x - addr] == mem[x];
    }
  }
}
