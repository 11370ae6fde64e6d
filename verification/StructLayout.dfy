/** C structure layouts (src/cwhost/abi.py, `Struct.__init__`). */
module StructLayout {
  import opened Alignment

  datatype Scalar = U8 | S8 | U16 | S16 | U32 | S32 | U64 | S64 | Ptr | OSType | Boolean

  datatype FieldType = One(k: Scalar) | Array(k: Scalar, count: nat) | Nested(s: Struct)
  datatype Field = Field(name: string, typ: FieldType)

  /** A declaration: fields in order, and one of the two packings. */
  datatype Struct = Struct(mac68k: bool, fields: seq<Field>)

  function SizeOf(k: Scalar): (n: nat)
    ensures n in {1, 2, 4, 8}
  {
    match k
    case U8 => 1
    case S8 => 1
    case Boolean => 1
    case U16 => 2
    case S16 => 2
    case U32 => 4
    case S32 => 4
    case Ptr => 4
    case OSType => 4
    case U64 => 8
    case S64 => 8
  }

  /** The packing's cap on alignment, which is also the alignment of the whole structure. */
  function Cap(s: Struct): (n: nat)
    ensures n in {2, 4}
  {
    if s.mac68k then 2 else 4
  }

  function TypeAlign(t: FieldType, cap: nat): (a: nat)
    requires cap in {2, 4}
    ensures a in {1, 2, 4}
  {
    match t
    case One(k) => if SizeOf(k) < cap then SizeOf(k) else cap
    case Array(k, _) => if SizeOf(k) < cap then SizeOf(k) else cap
    case Nested(s) => Cap(s)
  }

  function TypeSize(t: FieldType): nat
    decreases t, 0
  {
    match t
    case One(k) => SizeOf(k)
    case Array(k, count) => SizeOf(k) * count
    case Nested(s) => StructSize(s)
  }

  /** Where the fields end when the first one is placed at or after `at`. */
  function End(fields: seq<Field>, cap: nat, at: nat): nat
    requires cap in {2, 4}
  {
    if fields == [] then at
    else End(fields[1..], cap, Next(fields[0].typ, cap, at))
  }

  /** The end of the last field, rounded up to the packing's alignment. */
  function StructSize(s: Struct): nat {
    var end := End(s.fields, Cap(s), 0);
    if s.mac68k then AlignUp(end, 2) else AlignUp(end, 4)
  }

  /** The next multiple of the type's alignment, which is 1, 2 or 4. */
  function Place(t: FieldType, cap: nat, at: nat): nat
    requires cap in {2, 4}
  {
    var align := TypeAlign(t, cap);
    if align == 1 then at else if align == 2 then AlignUp(at, 2) else AlignUp(at, 4)
  }

  /** Where a field placed at or after `at` ends. */
  function Next(t: FieldType, cap: nat, at: nat): nat
    requires cap in {2, 4}
    decreases t, 1
  {
    Place(t, cap, at) + TypeSize(t)
  }

  /** The offset of field i. */
  function Offset(fields: seq<Field>, cap: nat, at: nat, i: nat): nat
    requires cap in {2, 4} && i < |fields|
    decreases |fields|
  {
    if i == 0 then Place(fields[0].typ, cap, at) else Offset(fields[1..], cap, Next(fields[0].typ, cap, at), i - 1)
  }

  ghost predicate Unique(fields: seq<Field>) {
    forall i, j :: 0 <= i < j < |fields| ==> fields[i].name != fields[j].name
  }

  // ----- what a layout is

  lemma {:induction false} PlaceIs(t: FieldType, cap: nat, at: nat)
    requires cap in {2, 4}
    ensures Place(t, cap, at) == AlignUp(at, TypeAlign(t, cap))
  {
    assert AlignUp(at, 1) == at;
  }

  lemma {:induction false} SizeIs(s: Struct)
    ensures StructSize(s) == AlignUp(End(s.fields, Cap(s), 0), Cap(s))
  {
  }

  lemma {:induction false} PlaceBounds(t: FieldType, cap: nat, at: nat)
    requires cap in {2, 4}
    ensures at <= Place(t, cap, at) < at + TypeAlign(t, cap) && Place(t, cap, at) % TypeAlign(t, cap) == 0
    ensures Next(t, cap, at) == Place(t, cap, at) + TypeSize(t)
  {
    PlaceIs(t, cap, at);
    AlignUpLeast(at, TypeAlign(t, cap));
  }

  lemma {:induction false} EndAfter(fields: seq<Field>, cap: nat, at: nat)
    requires cap in {2, 4}
    ensures at <= End(fields, cap, at)
    decreases |fields|
  {
    hide AlignUp, TypeSize, TypeAlign, Place, Next;
    if fields != [] {
      PlaceBounds(fields[0].typ, cap, at);
      EndAfter(fields[1..], cap, Next(fields[0].typ, cap, at));
    }
  }

  lemma {:induction false} OffsetIn(fields: seq<Field>, cap: nat, at: nat, i: nat)
    requires cap in {2, 4} && i < |fields|
    ensures at <= Offset(fields, cap, at, i)
    ensures Offset(fields, cap, at, i) + TypeSize(fields[i].typ) <= End(fields, cap, at)
    ensures Offset(fields, cap, at, i) % TypeAlign(fields[i].typ, cap) == 0
    decreases |fields|
  {
    hide AlignUp, TypeSize, TypeAlign;
    var next := Next(fields[0].typ, cap, at);
    PlaceBounds(fields[0].typ, cap, at);
    if i == 0 {
      EndAfter(fields[1..], cap, next);
    } else {
      OffsetIn(fields[1..], cap, next, i - 1);
    }
  }

  lemma {:induction false} NextIs(t: FieldType, cap: nat, at: nat)
    requires cap in {2, 4}
    ensures Next(t, cap, at) == Place(t, cap, at) + TypeSize(t)
  {
  }

  lemma {:induction false} PlaceLeast(t: FieldType, cap: nat, at: nat, o: nat)
    requires cap in {2, 4} && at <= o && o % TypeAlign(t, cap) == 0
    ensures Place(t, cap, at) <= o
  {
    PlaceIs(t, cap, at);
    AlignUpLeast(at, TypeAlign(t, cap));
  }

  /** Each field stands at the least aligned offset that does not run into the one before it. */
  lemma {:induction false} OffsetLeast(fields: seq<Field>, cap: nat, at: nat, i: nat, o: nat)
    requires cap in {2, 4} && i < |fields| && o % TypeAlign(fields[i].typ, cap) == 0
    requires o >= if i == 0 then at else Offset(fields, cap, at, i - 1) + TypeSize(fields[i - 1].typ)
    ensures Offset(fields, cap, at, i) <= o
    decreases |fields|
  {
    hide AlignUp, TypeSize, TypeAlign, Place, Next;
    if i == 0 {
      PlaceLeast(fields[0].typ, cap, at, o);
    } else {
      NextIs(fields[0].typ, cap, at);
      OffsetLeast(fields[1..], cap, Next(fields[0].typ, cap, at), i - 1, o);
    }
  }

  lemma {:induction false} OffsetsDisjoint(fields: seq<Field>, cap: nat, at: nat, i: nat, j: nat)
    requires cap in {2, 4} && i < j < |fields|
    ensures Offset(fields, cap, at, i) + TypeSize(fields[i].typ) <= Offset(fields, cap, at, j)
    decreases |fields|
  {
    hide AlignUp, TypeSize, TypeAlign;
    var next := Next(fields[0].typ, cap, at);
    if i == 0 {
      OffsetIn(fields[1..], cap, next, j - 1);
    } else {
      OffsetsDisjoint(fields[1..], cap, next, i - 1, j - 1);
    }
  }

  /** Every structure, whatever it nests: fields in bounds, aligned, disjoint, at the least legal
      offset, and a total size that is the least multiple of the packing's alignment. */
  lemma {:induction false} LayoutIsLegal(s: Struct)
    ensures forall i :: 0 <= i < |s.fields| ==>
              var o, t := Offset(s.fields, Cap(s), 0, i), s.fields[i].typ;
              o % TypeAlign(t, Cap(s)) == 0 && o + TypeSize(t) <= StructSize(s)
    ensures forall i, j :: 0 <= i < j < |s.fields| ==>
              Offset(s.fields, Cap(s), 0, i) + TypeSize(s.fields[i].typ) <= Offset(s.fields, Cap(s), 0, j)
    ensures StructSize(s) % Cap(s) == 0 && End(s.fields, Cap(s), 0) <= StructSize(s) < End(s.fields, Cap(s), 0) + Cap(s)
  {
    AlignUpLeast(End(s.fields, Cap(s), 0), Cap(s));
    forall i | 0 <= i < |s.fields|
      ensures var o, t := Offset(s.fields, Cap(s), 0, i), s.fields[i].typ;
              o % TypeAlign(t, Cap(s)) == 0 && o + TypeSize(t) <= StructSize(s)
    {
      OffsetIn(s.fields, Cap(s), 0, i);
    }
    forall i, j | 0 <= i < j < |s.fields|
      ensures Offset(s.fields, Cap(s), 0, i) + TypeSize(s.fields[i].typ) <= Offset(s.fields, Cap(s), 0, j)
    {
      OffsetsDisjoint(s.fields, Cap(s), 0, i, j);
    }
  }

  datatype Slot = Slot(offset: nat, typ: FieldType)

  lemma {:induction false} OffsetSnoc(fields: seq<Field>, cap: nat, at: nat, i: nat)
    requires cap in {2, 4} && i < |fields|
    ensures Offset(fields, cap, at, i) == Place(fields[i].typ, cap, End(fields[..i], cap, at))
    decreases |fields|
  {
    hide AlignUp, TypeSize, TypeAlign;
    if i > 0 {
      OffsetSnoc(fields[1..], cap, Next(fields[0].typ, cap, at), i - 1);
      assert fields[..i][1..] == fields[1..][..i - 1];
    }
  }

  lemma {:induction false} EndSnoc(fields: seq<Field>, cap: nat, at: nat, i: nat)
    requires cap in {2, 4} && i < |fields|
    ensures End(fields[..i + 1], cap, at) == Offset(fields, cap, at, i) + TypeSize(fields[i].typ)
    decreases |fields|
  {
    hide AlignUp, TypeSize, TypeAlign;
    var next := Next(fields[0].typ, cap, at);
    if i == 0 {
      assert fields[..1][1..] == [];
    } else {
      EndSnoc(fields[1..], cap, next, i - 1);
      assert fields[..i + 1][1..] == fields[1..][..i];
    }
  }

  lemma {:induction false} EmptyEnd(cap: nat)
    requires cap in {2, 4}
    ensures End([], cap, 0) == 0
  {
  }

  /** The constructor: a cursor moves over the fields; a repeated name is refused. */
  method Build(s: Struct) returns (ok: bool, layout: map<string, Slot>, size: nat)
    ensures ok <==> Unique(s.fields)
    ensures ok ==> size == StructSize(s)
    ensures ok ==> forall i :: 0 <= i < |s.fields| ==>
              s.fields[i].name in layout &&
              layout[s.fields[i].name] == Slot(Offset(s.fields, Cap(s), 0, i), s.fields[i].typ)
    ensures ok ==> forall name :: name in layout ==> exists i :: 0 <= i < |s.fields| && s.fields[i].name == name
  {
    hide AlignUp, TypeSize, TypeAlign, Offset, End, Cap;
    layout, size := map[], 0;
    EmptyEnd(Cap(s));
    var cursor, i := 0, 0;
    while i < |s.fields|
      invariant i <= |s.fields| && Unique(s.fields[..i]) && cursor == End(s.fields[..i], Cap(s), 0)
      invariant forall j :: 0 <= j < i ==>
                  s.fields[j].name in layout &&
                  layout[s.fields[j].name] == Slot(Offset(s.fields, Cap(s), 0, j), s.fields[j].typ)
      invariant forall name :: name in layout ==> exists j :: 0 <= j < i && s.fields[j].name == name
    {
      var field := s.fields[i];
      if field.name in layout {
        return false, layout, 0;
      }
      OffsetSnoc(s.fields, Cap(s), 0, i);
      EndSnoc(s.fields, Cap(s), 0, i);
      PlaceIs(field.typ, Cap(s), cursor);
      cursor := AlignUp(cursor, TypeAlign(field.typ, Cap(s)));
      layout := layout[field.name := Slot(cursor, field.typ)];
      cursor := cursor + TypeSize(field.typ);
      i := i + 1;
    }
    assert s.fields[..|s.fields|] == s.fields;
    SizeIs(s);
    return true, layout, AlignUp(cursor, Cap(s));
  }

  // ----- sizes and places in numbers

  /** The size of every scalar, and its alignment under either packing. */
  lemma {:induction false} ScalarLayout(k: Scalar)
    ensures k in {U8, S8, Boolean} ==>
              TypeSize(One(k)) == 1 && TypeAlign(One(k), 2) == 1 && TypeAlign(One(k), 4) == 1
    ensures k in {U16, S16} ==> TypeSize(One(k)) == 2 && TypeAlign(One(k), 2) == 2 && TypeAlign(One(k), 4) == 2
    ensures k in {U32, S32, Ptr, OSType} ==>
              TypeSize(One(k)) == 4 && TypeAlign(One(k), 2) == 2 && TypeAlign(One(k), 4) == 4
    ensures k in {U64, S64} ==> TypeSize(One(k)) == 8 && TypeAlign(One(k), 2) == 2 && TypeAlign(One(k), 4) == 4
  {
  }

  /** An array takes its elements' room and aligns as they do; a nested structure aligns by its own packing. */
  lemma {:induction false} CompoundLayout(k: Scalar, count: nat, s: Struct, cap: nat)
    requires cap in {2, 4}
    ensures TypeSize(Array(k, count)) == TypeSize(One(k)) * count
    ensures TypeAlign(Array(k, count), cap) == TypeAlign(One(k), cap)
    ensures TypeSize(Nested(s)) == StructSize(s) && TypeAlign(Nested(s), cap) == if s.mac68k then 2 else 4
  {
  }

  function Even(at: nat): nat {
    at + at % 2
  }

  function Fourth(at: nat): nat {
    at + (4 - at % 4) % 4
  }

  /** Where a field stands when the one before it ends at `at`. */
  function Stands(t: FieldType, mac68k: bool, at: nat): nat {
    match t
    case Nested(s) => if s.mac68k then Even(at) else Fourth(at)
    case _ =>
      if t.k in {U8, S8, Boolean} then at else if mac68k || t.k in {U16, S16} then Even(at) else Fourth(at)
  }

  lemma {:induction false} RoundedUp(at: nat)
    ensures AlignUp(at, 2) == Even(at) && AlignUp(at, 4) == Fourth(at)
  {
    AlignUpLeast(at, 2);
    AlignUpLeast(at, 4);
    hide AlignUp;
    assert Even(at) % 2 == 0 && Fourth(at) % 4 == 0;
  }

  lemma {:induction false} PlaceStands(t: FieldType, mac68k: bool, at: nat)
    ensures Place(t, if mac68k then 2 else 4, at) == Stands(t, mac68k, at)
  {
    hide AlignUp, Even, Fourth;
    RoundedUp(at);
  }

  /** A field wider than a byte stands at the end of the one before it rounded up to even, under mac68k packing, or to
      the multiple of 2 or 4 its type asks for, under power packing; a nested structure where its own packing asks. */
  lemma {:induction false} FieldStands(s: Struct, i: nat)
    requires i < |s.fields|
    ensures var end := if i == 0 then 0
                       else Offset(s.fields, Cap(s), 0, i - 1) + TypeSize(s.fields[i - 1].typ);
            Offset(s.fields, Cap(s), 0, i) == Stands(s.fields[i].typ, s.mac68k, end)
  {
    hide AlignUp, TypeSize, TypeAlign, Place, Stands;
    OffsetSnoc(s.fields, Cap(s), 0, i);
    if i == 0 {
      EmptyEnd(Cap(s));
      assert s.fields[..0] == [];
    } else {
      EndSnoc(s.fields, Cap(s), 0, i - 1);
    }
    PlaceStands(s.fields[i].typ, s.mac68k, End(s.fields[..i], Cap(s), 0));
  }

  /** The size is the end of the last field rounded up to even, or to a multiple of 4. */
  lemma {:induction false} SizeStands(s: Struct)
    ensures var n := |s.fields|;
            var end := if n == 0 then 0 else Offset(s.fields, Cap(s), 0, n - 1) + TypeSize(s.fields[n - 1].typ);
            StructSize(s) == if s.mac68k then Even(end) else Fourth(end)
  {
    hide AlignUp, TypeSize, TypeAlign, Place, Even, Fourth;
    var n := |s.fields|;
    assert s.fields[..n] == s.fields;
    if n == 0 {
      EmptyEnd(Cap(s));
    } else {
      EndSnoc(s.fields, Cap(s), 0, n - 1);
    }
    RoundedUp(End(s.fields, Cap(s), 0));
  }

  lemma {:induction false} FirstField(s: Struct)
    requires s.fields != []
    ensures Offset(s.fields, Cap(s), 0, 0) == 0
  {
    FieldStands(s, 0);
    hide Offset;
  }

  lemma {:induction false} NextField(s: Struct, i: nat, at: nat, size: nat)
    requires i + 1 < |s.fields| && Offset(s.fields, Cap(s), 0, i) == at && TypeSize(s.fields[i].typ) == size
    ensures Offset(s.fields, Cap(s), 0, i + 1) == Stands(s.fields[i + 1].typ, s.mac68k, at + size)
  {
    hide Offset, TypeSize, Stands;
    FieldStands(s, i + 1);
  }

  lemma {:induction false} LastField(s: Struct, i: nat, at: nat, size: nat)
    requires |s.fields| == i + 1 && Offset(s.fields, Cap(s), 0, i) == at && TypeSize(s.fields[i].typ) == size
    ensures StructSize(s) == if s.mac68k then Even(at + size) else Fourth(at + size)
  {
    hide Offset, TypeSize, StructSize, Even, Fourth;
    SizeStands(s);
  }

  function FSSpec(): Struct {
    Struct(true, [Field("vRefNum", One(S16)), Field("parID", One(S32)), Field("name", Array(U8, 64))])
  }

  lemma {:induction false} FSSpecFields()
    ensures var s := FSSpec();
            s.mac68k && |s.fields| == 3 && s.fields[0].typ == One(S16) && s.fields[1].typ == One(S32) &&
            s.fields[2].typ == Array(U8, 64)
  {
  }

  lemma {:induction false} FSSpecLayout()
    ensures var s := FSSpec();
            Offset(s.fields, Cap(s), 0, 0) == 0 && Offset(s.fields, Cap(s), 0, 1) == 2 &&
            Offset(s.fields, Cap(s), 0, 2) == 6 && StructSize(s) == 70
  {
    var s := FSSpec();
    FSSpecFields();
    hide FSSpec, Offset, StructSize, Cap, AlignUp, Place, Next, End;
    FirstField(s);
    NextField(s, 0, 0, 2);
    NextField(s, 1, 2, 4);
    LastField(s, 2, 6, 64);
  }

  function DropInFlags(): Struct {
    Struct(true, [Field("rsrcversion", One(S16)), Field("dropintype", One(OSType)),
                  Field("earliestCompatibleAPIVersion", One(U16)), Field("dropinflags", One(U32)),
                  Field("edit_language", One(OSType)), Field("newestAPIVersion", One(U16))])
  }

  lemma {:induction false} DropInFlagsFields()
    ensures var s := DropInFlags();
            s.mac68k && |s.fields| == 6 && s.fields[0].typ == One(S16) && s.fields[1].typ == One(OSType) &&
            s.fields[2].typ == One(U16) && s.fields[3].typ == One(U32) && s.fields[4].typ == One(OSType) &&
            s.fields[5].typ == One(U16)
  {
  }

  lemma {:induction false} DropInFlagsLayout()
    ensures var s := DropInFlags();
            Offset(s.fields, Cap(s), 0, 0) == 0 && Offset(s.fields, Cap(s), 0, 1) == 2 &&
            Offset(s.fields, Cap(s), 0, 2) == 6 && Offset(s.fields, Cap(s), 0, 3) == 8 &&
            Offset(s.fields, Cap(s), 0, 4) == 12 && Offset(s.fields, Cap(s), 0, 5) == 16 && StructSize(s) == 18
  {
    var s := DropInFlags();
    DropInFlagsFields();
    hide DropInFlags, Offset, StructSize, Cap, AlignUp, Place, Next, End;
    FirstField(s);
    NextField(s, 0, 0, 2);
    NextField(s, 1, 2, 4);
    NextField(s, 2, 6, 2);
    NextField(s, 3, 8, 4);
    NextField(s, 4, 12, 4);
    LastField(s, 5, 16, 2);
  }
}
