/** Resource forks and the chain of open resource files (src/cwhost/resources.py). */
module ResourceFiles {
  import opened BigEndian
  import opened Bytes

  datatype Result<T> = Ok(value: T) | Error

  type Resources = map<seq<Byte>, map<int, seq<Byte>>>

  const STR_LIST: seq<Byte> := [0x53, 0x54, 0x52, 0x23]

  // ----- string lists

  function Pascal(s: seq<Byte>): seq<Byte>
    requires |s| < 256
  {
    [|s|] + s
  }

  ghost predicate Short(strings: seq<seq<Byte>>) {
    forall i :: 0 <= i < |strings| ==> |strings[i]| < 256
  }

  function Pascals(strings: seq<seq<Byte>>): seq<Byte>
    requires Short(strings)
  {
    if strings == [] then [] else Pascal(strings[0]) + Pascals(strings[1..])
  }

  /** The strings of a list, one after the other; bytes after the last are ignored. */
  function Strings(body: seq<Byte>, count: nat): Result<seq<seq<Byte>>>
    decreases count
  {
    if count == 0 then Ok([])
    else if body == [] || 1 + body[0] > |body| then Error
    else
      match Strings(body[1 + body[0]..], count - 1)
      case Error => Error
      case Ok(rest) => Ok([body[1..1 + body[0]]] + rest)
  }

  function StringList(payload: seq<Byte>): Result<seq<seq<Byte>>> {
    if |payload| < 2 then Error else Strings(payload[2..], U16(payload, 0))
  }

  /** Decoding finds a list exactly when the bytes start with its strings, in order. */
  lemma {:induction false} StringsDecode(body: seq<Byte>, count: nat, strings: seq<seq<Byte>>)
    ensures Strings(body, count) == Ok(strings) <==>
            |strings| == count && Short(strings) && Pascals(strings) <= body
    decreases count
  {
    if strings != [] && count > 0 {
      var first := strings[0];
      if body != [] && 1 + body[0] <= |body| {
        var rest := body[1 + body[0]..];
        StringsDecode(rest, count - 1, strings[1..]);
        assert body == [body[0]] + body[1..1 + body[0]] + rest;
        assert strings == [first] + strings[1..];
        if first == body[1..1 + body[0]] {
          ShortHead(strings);
          assert Short(strings) ==> Pascals(strings) == ([body[0]] + first) + Pascals(strings[1..]);
          PrefixUnder([body[0]] + first, rest, body);
          assert Short(strings) ==> (Pascals(strings) <= body <==> Pascals(strings[1..]) <= rest) by {
            if Short(strings) { PrefixCat([body[0]] + first, Pascals(strings[1..]), rest); }
          }
        } else if Short(strings) && Pascals(strings) <= body {
          HeadFits(strings, body);
        }
      } else if Short(strings) && Pascals(strings) <= body {
        HeadFits(strings, body);
      }
    }
  }

  lemma {:induction false} ShortHead(strings: seq<seq<Byte>>)
    requires strings != []
    ensures Short(strings) <==> |strings[0]| < 256 && Short(strings[1..])
  {
    if |strings[0]| < 256 && Short(strings[1..]) {
      forall i | 0 <= i < |strings| ensures |strings[i]| < 256 {
        if i > 0 { assert strings[1..][i - 1] == strings[i]; }
      }
    }
  }

  lemma {:induction false} PrefixUnder<T>(a: seq<T>, rest: seq<T>, body: seq<T>)
    requires body == a + rest
    ensures a <= body
  {
  }

  lemma {:induction false} PrefixCat<T>(a: seq<T>, b: seq<T>, c: seq<T>)
    ensures a + b <= a + c <==> b <= c
  {
    if a + b <= a + c {
      assert (a + c)[|a|..|a| + |b|] == (a + b)[|a|..];
      assert c[..|b|] == (a + c)[|a|..|a| + |b|];
    }
  }

  lemma {:induction false} HeadFits(strings: seq<seq<Byte>>, body: seq<Byte>)
    requires strings != [] && Short(strings) && Pascals(strings) <= body
    ensures body != [] && 1 + body[0] <= |body| && strings[0] == body[1..1 + body[0]]
  {
    var p := Pascals(strings);
    assert p == [|strings[0]|] + strings[0] + Pascals(strings[1..]);
    assert p[0] == |strings[0]| && p[1..1 + |strings[0]|] == strings[0];
    assert body[..|p|] == p;
    assert body[1..1 + |strings[0]|] == body[..|p|][1..1 + |strings[0]|];
  }

  /** Where the loop stands: so many strings found, so many left from this position on. */
  ghost predicate At(payload: seq<Byte>, position: nat, left: nat, strings: seq<seq<Byte>>) {
    position <= |payload| && StringList(payload) == Prepend(strings, Strings(payload[position..], left))
  }

  lemma {:induction false} OneString(payload: seq<Byte>, position: nat, left: nat, strings: seq<seq<Byte>>)
    requires left > 0 && At(payload, position, left, strings)
    ensures position == |payload| || position + 1 + payload[position] > |payload| ==> StringList(payload) == Error
    ensures position < |payload| && position + 1 + payload[position] <= |payload| ==>
              var next := position + 1 + payload[position];
              At(payload, next, left - 1, strings + [payload[position + 1..next]])
  {
    hide StringList;
    var body := payload[position..];
    if position < |payload| && position + 1 + payload[position] <= |payload| {
      StringsHead(body, left);
      assert body[1..1 + body[0]] == payload[position + 1..position + 1 + payload[position]];
      assert body[1 + body[0]..] == payload[position + 1 + payload[position]..];
      hide Strings, Prepend;
      PrependOne(strings, body[1..1 + body[0]], Strings(body[1 + body[0]..], left - 1));
    }
  }

  /** `str_list` */
  method StrList(payload: seq<Byte>) returns (r: Result<seq<seq<Byte>>>)
    ensures r == StringList(payload)
  {
    if |payload| < 2 {
      return Error;
    }
    var count: nat, strings: seq<seq<Byte>>, position: nat, i: nat := U16(payload, 0), [], 2, 0;
    PrependNone([], Strings(payload[2..], count));
    assert At(payload, 2, count, strings);
    hide At, StringList;
    while i < count
      invariant i <= count && position <= |payload| && At(payload, position, count - i, strings)
    {
      OneString(payload, position, count - i, strings);
      if position >= |payload| {
        return Error;
      }
      var length := payload[position];
      position := position + 1;
      if position + length > |payload| {
        return Error;
      }
      strings := strings + [payload[position..position + length]];
      position := position + length;
      i := i + 1;
    }
    AtEnd(payload, position, strings);
    return Ok(strings);
  }

  lemma {:induction false} AtEnd(payload: seq<Byte>, position: nat, strings: seq<seq<Byte>>)
    requires At(payload, position, 0, strings)
    ensures StringList(payload) == Ok(strings)
  {
    PrependNone(strings, Ok([]));
  }

  lemma {:induction false} StringsHead(body: seq<Byte>, count: nat)
    requires count > 0 && body != [] && 1 + body[0] <= |body|
    ensures Strings(body, count) == Prepend([body[1..1 + body[0]]], Strings(body[1 + body[0]..], count - 1))
  {
  }

  lemma {:induction false} PrependNone<T>(a: seq<T>, r: Result<seq<T>>)
    ensures Prepend([], r) == r && Prepend(a, Ok([])) == Ok(a) && Prepend(a, Error) == Error
  {
    if r.Ok? { assert [] + r.value == r.value; }
    assert a + [] == a;
  }

  function Prepend<T>(a: seq<T>, r: Result<seq<T>>): Result<seq<T>> {
    match r
    case Error => Error
    case Ok(b) => Ok(a + b)
  }

  lemma {:induction false} PrependOne<T>(a: seq<T>, x: T, r: Result<seq<T>>)
    ensures Prepend(a, Prepend([x], r)) == Prepend(a + [x], r)
  {
    if r.Ok? { assert a + ([x] + r.value) == a + [x] + r.value; }
  }

  /** The payload of a list: a count of two bytes, and the strings behind it, each with its length before it. */
  ghost predicate SpellsList(payload: seq<Byte>, strings: seq<seq<Byte>>) {
    |payload| >= 2 && |strings| == payload[0] as int * 0x100 + payload[1] as int && Short(strings) &&
    Pascals(strings) <= payload[2..]
  }

  lemma {:induction false} StringListDecodes(payload: seq<Byte>, strings: seq<seq<Byte>>)
    ensures StringList(payload) == Ok(strings) <==> SpellsList(payload, strings)
  {
    if |payload| >= 2 {
      BeWord(payload[0], payload[1], 0, 0);
      assert payload[0..2] == [payload[0], payload[1]];
      StringsDecode(payload[2..], U16(payload, 0), strings);
    }
  }

  // ----- parsing a fork

  /** The header's numbers, once they are known to lie inside the file. */
  datatype Layout = Layout(dataStart: nat, dataEnd: nat, typeStart: nat, mapEnd: nat, types: nat)

  predicate LayoutFits(raw: seq<Byte>, l: Layout) {
    l.dataEnd <= |raw| && l.mapEnd <= |raw| && l.typeStart + 2 + 8 * l.types <= l.mapEnd
  }

  function ParseLayout(raw: seq<Byte>): (r: Result<Layout>)
    ensures r.Ok? ==> LayoutFits(raw, r.value)
  {
    if |raw| < 16 then Error
    else
      var data, map_, dataLength, mapLength := U32(raw, 0), U32(raw, 4), U32(raw, 8), U32(raw, 12);
      if data + dataLength > |raw| || map_ + mapLength > |raw| || mapLength < 30 then Error
      else
        var typeStart, nameStart, mapEnd := map_ + U16(raw, map_ + 24), map_ + U16(raw, map_ + 26), map_ + mapLength;
        if typeStart + 2 > mapEnd || nameStart > mapEnd then Error
        else
          var types := U16(raw, typeStart) + 1;
          if typeStart + 2 + 8 * types > mapEnd then Error
          else Ok(Layout(data, data + dataLength, typeStart, mapEnd, types))
  }

  /** The header is accepted exactly when data area, map and type list lie inside the file, the map has its thirty
      bytes, and the names start inside it. */
  lemma {:induction false} HeaderAccepted(raw: seq<Byte>)
    ensures ParseLayout(raw).Ok? <==>
            |raw| >= 16 && U32(raw, 0) + U32(raw, 8) <= |raw| && U32(raw, 4) + U32(raw, 12) <= |raw| &&
            U32(raw, 12) >= 30 &&
            var map_, length := U32(raw, 4), U32(raw, 12);
            var types := U16(raw, map_ + 24);
            U16(raw, map_ + 26) <= length && types + 2 <= length &&
            types + 2 + 8 * (U16(raw, map_ + types) + 1) <= length
  {
  }

  function TypeOf(raw: seq<Byte>, l: Layout, k: nat): seq<Byte>
    requires LayoutFits(raw, l) && k < l.types
  {
    raw[l.typeStart + 2 + 8 * k..l.typeStart + 6 + 8 * k]
  }

  function CountOf(raw: seq<Byte>, l: Layout, k: nat): nat
    requires LayoutFits(raw, l) && k < l.types
  {
    U16(raw, l.typeStart + 6 + 8 * k) + 1
  }

  function RefsOf(raw: seq<Byte>, l: Layout, k: nat): nat
    requires LayoutFits(raw, l) && k < l.types
  {
    l.typeStart + U16(raw, l.typeStart + 8 + 8 * k)
  }

  /** The reference list of type k lies in the map. */
  predicate ListFits(raw: seq<Byte>, l: Layout, k: nat) {
    LayoutFits(raw, l) && k < l.types && RefsOf(raw, l, k) + 12 * CountOf(raw, l, k) <= l.mapEnd
  }

  /** Reference j of type k. */
  predicate IsRef(raw: seq<Byte>, l: Layout, k: nat, j: nat) {
    ListFits(raw, l, k) && j < CountOf(raw, l, k)
  }

  function IdOf(raw: seq<Byte>, l: Layout, k: nat, j: nat): int
    requires IsRef(raw, l, k, j)
  {
    var x := U16(raw, RefsOf(raw, l, k) + 12 * j);
    if x >= 0x8000 then x - 0x1_0000 else x
  }

  /** Ids are signed 16-bit numbers. */
  lemma {:induction false} IdIs(raw: seq<Byte>, l: Layout, k: nat, j: nat)
    requires IsRef(raw, l, k, j)
    ensures -0x8000 <= IdOf(raw, l, k, j) < 0x8000
    ensures IdOf(raw, l, k, j) % 0x1_0000 == U16(raw, RefsOf(raw, l, k) + 12 * j)
  {
    var at := RefsOf(raw, l, k) + 12 * j;
    BeWord(raw[at], raw[at + 1], 0, 0);
    assert raw[at..at + 2] == [raw[at], raw[at + 1]];
  }

  function PositionOf(raw: seq<Byte>, l: Layout, k: nat, j: nat): nat
    requires IsRef(raw, l, k, j)
  {
    var at := RefsOf(raw, l, k) + 12 * j;
    l.dataStart + Be(raw[at + 5..at + 8])
  }

  /** The data the reference points at, length word first, lie in the data area. */
  predicate DataFits(raw: seq<Byte>, l: Layout, k: nat, j: nat)
    requires IsRef(raw, l, k, j)
  {
    var p := PositionOf(raw, l, k, j);
    p + 4 <= l.dataEnd && p + 4 + U32(raw, p) <= l.dataEnd
  }

  function DataOf(raw: seq<Byte>, l: Layout, k: nat, j: nat): seq<Byte>
    requires IsRef(raw, l, k, j) && DataFits(raw, l, k, j)
  {
    var p := PositionOf(raw, l, k, j);
    raw[p + 4..p + 4 + U32(raw, p)]
  }

  /** References come in file order. */
  predicate Before(k: nat, j: nat, kEnd: nat, jEnd: nat) {
    k < kEnd || (k == kEnd && j < jEnd)
  }

  ghost predicate SameKey(raw: seq<Byte>, l: Layout, k: nat, j: nat, k2: nat, j2: nat)
    requires IsRef(raw, l, k, j) && IsRef(raw, l, k2, j2)
  {
    TypeOf(raw, l, k) == TypeOf(raw, l, k2) && IdOf(raw, l, k, j) == IdOf(raw, l, k2, j2)
  }

  function Find(res: Resources, t: seq<Byte>, id: int): Result<seq<Byte>> {
    if t in res && id in res[t] then Ok(res[t][id]) else Error
  }

  /** All references up to a point are readable and under different keys. */
  ghost predicate GoodUpTo(raw: seq<Byte>, l: Layout, kEnd: nat, jEnd: nat) {
    LayoutFits(raw, l) &&
    (forall k :: 0 <= k < kEnd && k < l.types ==> ListFits(raw, l, k)) &&
    (forall k: nat, j: nat :: IsRef(raw, l, k, j) && Before(k, j, kEnd, jEnd) ==> DataFits(raw, l, k, j)) &&
    (forall k: nat, j: nat, k2: nat, j2: nat ::
       IsRef(raw, l, k, j) && IsRef(raw, l, k2, j2) && Before(k, j, k2, j2) && Before(k2, j2, kEnd, jEnd) ==>
         !SameKey(raw, l, k, j, k2, j2))
  }

  /** The dictionary holds the data of just these references. */
  ghost predicate HoldsUpTo(raw: seq<Byte>, l: Layout, kEnd: nat, jEnd: nat, res: Resources)
    requires GoodUpTo(raw, l, kEnd, jEnd)
  {
    (forall k: nat, j: nat :: IsRef(raw, l, k, j) && Before(k, j, kEnd, jEnd) ==>
       Find(res, TypeOf(raw, l, k), IdOf(raw, l, k, j)) == Ok(DataOf(raw, l, k, j))) &&
    (forall t, id :: Find(res, t, id).Ok? ==> exists k: nat, j: nat :: KeyedBy(raw, l, k, j, kEnd, jEnd, t, id))
  }

  ghost predicate KeyedBy(raw: seq<Byte>, l: Layout, k: nat, j: nat, kEnd: nat, jEnd: nat, t: seq<Byte>, id: int) {
    IsRef(raw, l, k, j) && Before(k, j, kEnd, jEnd) && TypeOf(raw, l, k) == t && IdOf(raw, l, k, j) == id
  }

  /** The header is sound and all references are readable and under different keys. */
  ghost predicate Parses(raw: seq<Byte>) {
    ParseLayout(raw).Ok? && GoodUpTo(raw, ParseLayout(raw).value, ParseLayout(raw).value.types, 0)
  }

  ghost predicate ParsesTo(raw: seq<Byte>, res: Resources) {
    Parses(raw) && HoldsUpTo(raw, ParseLayout(raw).value, ParseLayout(raw).value.types, 0, res)
  }

  /** `ResourceFork.parse`: it succeeds exactly when every reference is readable and no two share type
      and id, and then the dictionary is the references. */
  method Parse(raw: seq<Byte>) returns (r: Result<Resources>)
    ensures r.Ok? <==> Parses(raw)
    ensures r.Ok? ==> ParsesTo(raw, r.value)
  {
    hide GoodUpTo, HoldsUpTo;
    var layout := ParseLayout(raw);
    if layout.Error? {
      return Error;
    }
    var l, res: Resources, k: nat := layout.value, map[], 0;
    NothingYet(raw, l);
    while k < l.types
      invariant k <= l.types && GoodUpTo(raw, l, k, 0) && HoldsUpTo(raw, l, k, 0, res)
    {
      if RefsOf(raw, l, k) + 12 * CountOf(raw, l, k) > l.mapEnd {
        BadList(raw, l, k);
        return Error;
      }
      var ok;
      ok, res := ParseType(raw, l, k, res);
      if !ok {
        return Error;
      }
      NextType(raw, l, k, res);
      k := k + 1;
    }
    return Ok(res);
  }

  method ParseType(raw: seq<Byte>, l: Layout, k: nat, before: Resources) returns (ok: bool, res: Resources)
    requires ListFits(raw, l, k) && GoodUpTo(raw, l, k, 0) && HoldsUpTo(raw, l, k, 0, before)
    ensures ok ==> GoodUpTo(raw, l, k, CountOf(raw, l, k)) && HoldsUpTo(raw, l, k, CountOf(raw, l, k), res)
    ensures !ok ==> !GoodUpTo(raw, l, l.types, 0)
  {
    hide GoodUpTo, HoldsUpTo, Find, TypeOf, IdOf, DataFits, DataOf;
    res := before;
    var t, j: nat := TypeOf(raw, l, k), 0;
    while j < CountOf(raw, l, k)
      invariant j <= CountOf(raw, l, k) && GoodUpTo(raw, l, k, j) && HoldsUpTo(raw, l, k, j, res)
    {
      var id := IdOf(raw, l, k, j);
      if !DataFits(raw, l, k, j) {
        BadData(raw, l, k, j);
        return false, res;
      }
      if Find(res, t, id).Ok? {
        Duplicate(raw, l, k, j, res);
        return false, res;
      }
      AddRef(raw, l, k, j, res);
      res := Put(res, t, id, DataOf(raw, l, k, j));
      j := j + 1;
    }
    return true, res;
  }

  /** `setdefault(t, {})[id] = data` */
  function Put(res: Resources, t: seq<Byte>, id: int, data: seq<Byte>): (r: Resources)
    ensures forall t2, id2 :: Find(r, t2, id2) == if t2 == t && id2 == id then Ok(data) else Find(res, t2, id2)
  {
    res[t := (if t in res then res[t] else map[])[id := data]]
  }

  lemma {:induction false} NothingYet(raw: seq<Byte>, l: Layout)
    requires LayoutFits(raw, l)
    ensures GoodUpTo(raw, l, 0, 0) && HoldsUpTo(raw, l, 0, 0, map[])
  {
  }

  lemma {:induction false} BadList(raw: seq<Byte>, l: Layout, k: nat)
    requires LayoutFits(raw, l) && k < l.types && !ListFits(raw, l, k)
    ensures !GoodUpTo(raw, l, l.types, 0)
  {
  }

  lemma {:induction false} BadData(raw: seq<Byte>, l: Layout, k: nat, j: nat)
    requires IsRef(raw, l, k, j) && !DataFits(raw, l, k, j)
    ensures !GoodUpTo(raw, l, l.types, 0)
  {
    assert Before(k, j, l.types, 0);
  }

  lemma {:induction false} Duplicate(raw: seq<Byte>, l: Layout, k: nat, j: nat, res: Resources)
    requires IsRef(raw, l, k, j) && GoodUpTo(raw, l, k, j) && HoldsUpTo(raw, l, k, j, res)
    requires Find(res, TypeOf(raw, l, k), IdOf(raw, l, k, j)).Ok?
    ensures !GoodUpTo(raw, l, l.types, 0)
  {
    hide Find, TypeOf, IdOf, DataFits, DataOf;
    var k1: nat, j1: nat :| KeyedBy(raw, l, k1, j1, k, j, TypeOf(raw, l, k), IdOf(raw, l, k, j));
    assert SameKey(raw, l, k1, j1, k, j) && Before(k1, j1, k, j) && Before(k, j, l.types, 0);
  }

  lemma {:induction false} AddRefGood(raw: seq<Byte>, l: Layout, k: nat, j: nat, res: Resources)
    requires IsRef(raw, l, k, j) && GoodUpTo(raw, l, k, j) && HoldsUpTo(raw, l, k, j, res) && DataFits(raw, l, k, j)
    requires Find(res, TypeOf(raw, l, k), IdOf(raw, l, k, j)).Error?
    ensures GoodUpTo(raw, l, k, j + 1)
  {
    hide Find, TypeOf, IdOf, DataFits, DataOf, CountOf, RefsOf;
    forall k1: nat, j1: nat | IsRef(raw, l, k1, j1) && Before(k1, j1, k, j)
      ensures !SameKey(raw, l, k1, j1, k, j)
    {
      assert Find(res, TypeOf(raw, l, k1), IdOf(raw, l, k1, j1)).Ok?;
    }
  }

  lemma {:induction false} AddRef(raw: seq<Byte>, l: Layout, k: nat, j: nat, res: Resources)
    requires IsRef(raw, l, k, j) && GoodUpTo(raw, l, k, j) && HoldsUpTo(raw, l, k, j, res) && DataFits(raw, l, k, j)
    requires Find(res, TypeOf(raw, l, k), IdOf(raw, l, k, j)).Error?
    ensures GoodUpTo(raw, l, k, j + 1)
    ensures HoldsUpTo(raw, l, k, j + 1, Put(res, TypeOf(raw, l, k), IdOf(raw, l, k, j), DataOf(raw, l, k, j)))
  {
    hide Find, TypeOf, IdOf, DataFits, DataOf, CountOf, RefsOf, Put;
    AddRefGood(raw, l, k, j, res);
    var jEnd := j + 1;
    var res2 := Put(res, TypeOf(raw, l, k), IdOf(raw, l, k, j), DataOf(raw, l, k, j));
    forall k1: nat, j1: nat | IsRef(raw, l, k1, j1) && Before(k1, j1, k, jEnd)
      ensures Find(res2, TypeOf(raw, l, k1), IdOf(raw, l, k1, j1)) == Ok(DataOf(raw, l, k1, j1))
    {
      if Before(k1, j1, k, j) {
        assert Find(res, TypeOf(raw, l, k1), IdOf(raw, l, k1, j1)) == Ok(DataOf(raw, l, k1, j1));
      }
    }
    forall t, id | Find(res2, t, id).Ok? ensures exists k1: nat, j1: nat :: KeyedBy(raw, l, k1, j1, k, jEnd, t, id) {
      if t == TypeOf(raw, l, k) && id == IdOf(raw, l, k, j) {
        assert KeyedBy(raw, l, k, j, k, jEnd, t, id);
      } else {
        var k1: nat, j1: nat :| KeyedBy(raw, l, k1, j1, k, j, t, id);
        assert KeyedBy(raw, l, k1, j1, k, jEnd, t, id);
      }
    }
  }

  lemma {:induction false} BeforeNext(raw: seq<Byte>, l: Layout, k: nat, k1: nat, j1: nat)
    requires ListFits(raw, l, k) && IsRef(raw, l, k1, j1)
    ensures Before(k1, j1, k + 1, 0) <==> Before(k1, j1, k, CountOf(raw, l, k))
  {
  }

  lemma {:induction false} NextTypeGood(raw: seq<Byte>, l: Layout, k: nat)
    requires ListFits(raw, l, k) && GoodUpTo(raw, l, k, CountOf(raw, l, k))
    ensures GoodUpTo(raw, l, k + 1, 0)
  {
    hide TypeOf, IdOf, DataFits, Before, IsRef;
    var kEnd := k + 1;
    forall k1: nat, j1: nat | IsRef(raw, l, k1, j1) && Before(k1, j1, kEnd, 0) ensures DataFits(raw, l, k1, j1) {
      BeforeNext(raw, l, k, k1, j1);
    }
    forall k1: nat, j1: nat, k2: nat, j2: nat |
      IsRef(raw, l, k1, j1) && IsRef(raw, l, k2, j2) && Before(k1, j1, k2, j2) && Before(k2, j2, kEnd, 0)
      ensures !SameKey(raw, l, k1, j1, k2, j2)
    {
      BeforeNext(raw, l, k, k2, j2);
    }
  }

  lemma {:induction false} NextType(raw: seq<Byte>, l: Layout, k: nat, res: Resources)
    requires ListFits(raw, l, k) && GoodUpTo(raw, l, k, CountOf(raw, l, k)) &&
             HoldsUpTo(raw, l, k, CountOf(raw, l, k), res)
    ensures GoodUpTo(raw, l, k + 1, 0) && HoldsUpTo(raw, l, k + 1, 0, res)
  {
    hide Find, TypeOf, IdOf, DataFits, DataOf, Before, SameKey;
    NextTypeGood(raw, l, k);
    var n, kEnd := CountOf(raw, l, k), k + 1;
    forall k1: nat, j1: nat | IsRef(raw, l, k1, j1) && Before(k1, j1, kEnd, 0)
      ensures Find(res, TypeOf(raw, l, k1), IdOf(raw, l, k1, j1)) == Ok(DataOf(raw, l, k1, j1))
    {
      BeforeNext(raw, l, k, k1, j1);
    }
    forall t, id | Find(res, t, id).Ok? ensures exists k1: nat, j1: nat :: KeyedBy(raw, l, k1, j1, kEnd, 0, t, id) {
      var k1: nat, j1: nat :| KeyedBy(raw, l, k1, j1, k, n, t, id);
      BeforeNext(raw, l, k, k1, j1);
      assert KeyedBy(raw, l, k1, j1, kEnd, 0, t, id);
    }
  }

  // ----- an instance, byte by byte

  /** A fork with one resource, STR# -128: header, a byte of filler and three bytes of data, and the map. */
  function SampleFork(): seq<Byte> {
    [0, 0, 0, 16] + [0, 0, 0, 24] + [0, 0, 0, 8] + [0, 0, 0, 50] +
    [0xEE, 0, 0, 0, 3, 7, 8, 9] +
    Zeros(24) + [0, 28, 0, 50] +
    [0, 0, 0x53, 0x54, 0x52, 0x23, 0, 0, 0, 10] +
    [0xFF, 0x80, 0xFF, 0xFF, 0x20, 0, 0, 1, 0, 0, 0, 0]
  }

  lemma {:induction false} FourAt(raw: seq<Byte>, at: nat, a: Byte, b: Byte, c: Byte, d: Byte)
    requires at + 4 <= |raw| && raw[at] == a && raw[at + 1] == b && raw[at + 2] == c && raw[at + 3] == d
    ensures raw[at..at + 4] == [a, b, c, d]
    ensures U32(raw, at) == 0x100_0000 * a + 0x1_0000 * b + 0x100 * c + d
    ensures U16(raw, at) == 0x100 * a + b && Be(raw[at..at + 3]) == 0x1_0000 * a + 0x100 * b + c
  {
    BeWord(a, b, c, d);
    assert raw[at..at + 4] == [a, b, c, d] && raw[at..at + 3] == [a, b, c] && raw[at..at + 2] == [a, b];
  }

  lemma {:induction false} SampleOffsets()
    ensures var raw := SampleFork(); |raw| == 74 && U32(raw, 0) == 16 && U32(raw, 4) == 24
  {
    var raw := SampleFork();
    hide U32, U16, Be;
    FourAt(raw, 0, 0, 0, 0, 16);
    FourAt(raw, 4, 0, 0, 0, 24);
  }

  lemma {:induction false} SampleLengths()
    ensures var raw := SampleFork(); |raw| == 74 && U32(raw, 8) == 8 && U32(raw, 12) == 50
  {
    var raw := SampleFork();
    hide U32, U16, Be;
    FourAt(raw, 8, 0, 0, 0, 8);
    FourAt(raw, 12, 0, 0, 0, 50);
  }

  lemma {:induction false} SampleTypes()
    ensures var raw := SampleFork();
            |raw| == 74 && U16(raw, 48) == 28 && U16(raw, 50) == 50 && U16(raw, 52) == 0 &&
            raw[54..58] == [0x53, 0x54, 0x52, 0x23]
  {
    var raw := SampleFork();
    hide U32, U16, Be;
    FourAt(raw, 48, 0, 28, 0, 50);
    FourAt(raw, 50, 0, 50, 0, 0);
    FourAt(raw, 52, 0, 0, 0x53, 0x54);
    FourAt(raw, 54, 0x53, 0x54, 0x52, 0x23);
  }

  lemma {:induction false} SampleRefs()
    ensures var raw := SampleFork();
            |raw| == 74 && U16(raw, 58) == 0 && U16(raw, 60) == 10 && U16(raw, 62) == 0xFF80 && Be(raw[67..70]) == 1
  {
    var raw := SampleFork();
    hide U32, U16, Be;
    FourAt(raw, 58, 0, 0, 0, 10);
    FourAt(raw, 60, 0, 10, 0xFF, 0x80);
    FourAt(raw, 62, 0xFF, 0x80, 0xFF, 0xFF);
    FourAt(raw, 67, 0, 0, 1, 0);
  }

  lemma {:induction false} SampleData()
    ensures var raw := SampleFork(); |raw| == 74 && U32(raw, 17) == 3 && raw[21..24] == [7, 8, 9]
  {
    var raw := SampleFork();
    hide U32, U16, Be;
    FourAt(raw, 17, 0, 0, 0, 3);
    assert raw[21] == 7 && raw[22] == 8 && raw[23] == 9;
  }

  /** It parses to just that resource. */
  lemma {:induction false} SampleParses()
    ensures ParsesTo(SampleFork(), map[[0x53, 0x54, 0x52, 0x23] := map[-128 := [7, 8, 9]]])
  {
    SampleOffsets();
    SampleLengths();
    SampleTypes();
    SampleRefs();
    SampleData();
    hide SampleFork, U32, U16, Be;
    var raw := SampleFork();
    var l := Layout(16, 24, 52, 74, 1);
    assert ParseLayout(raw) == Ok(l);
    assert TypeOf(raw, l, 0) == [0x53, 0x54, 0x52, 0x23] && CountOf(raw, l, 0) == 1 && RefsOf(raw, l, 0) == 62;
    assert IsRef(raw, l, 0, 0) && IdOf(raw, l, 0, 0) == -128 && PositionOf(raw, l, 0, 0) == 17;
    assert DataFits(raw, l, 0, 0) && DataOf(raw, l, 0, 0) == [7, 8, 9];
    hide ParseLayout, TypeOf, CountOf, RefsOf, IdOf, PositionOf, DataFits, DataOf;
    OneResource(raw, l);
  }

  lemma {:induction false} OneResource(raw: seq<Byte>, l: Layout)
    requires ParseLayout(raw) == Ok(l) && l.types == 1 && ListFits(raw, l, 0) && CountOf(raw, l, 0) == 1
    requires DataFits(raw, l, 0, 0)
    ensures ParsesTo(raw, map[TypeOf(raw, l, 0) := map[IdOf(raw, l, 0, 0) := DataOf(raw, l, 0, 0)]])
  {
    hide ParseLayout, TypeOf, CountOf, RefsOf, IdOf, PositionOf, DataFits, DataOf;
    var t, id, data := TypeOf(raw, l, 0), IdOf(raw, l, 0, 0), DataOf(raw, l, 0, 0);
    var res: Resources := map[t := map[id := data]];
    forall k: nat, j: nat | IsRef(raw, l, k, j) ensures k == 0 && j == 0 {
      assert k == 0;
    }
    assert GoodUpTo(raw, l, 1, 0);
    forall t2, id2 | Find(res, t2, id2).Ok? ensures KeyedBy(raw, l, 0, 0, 1, 0, t2, id2) {
    }
    assert HoldsUpTo(raw, l, 1, 0, res);
  }
}
