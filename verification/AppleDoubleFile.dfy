/** AppleDouble containers (src/cwhost/appledouble.py; RFC 1740, appendix B). */
module AppleDoubleFile {
  import opened BigEndian
  import opened Bytes
  import opened Wrappers

  const MAGIC := 0x0005_1607
  const VERSION := 0x0002_0000
  const HEADER := 26

  datatype Entry = Entry(id: int, data: seq<Byte>)

  /** A dictionary in insertion order. */
  ghost predicate Unique(entries: seq<Entry>) {
    forall i, j :: 0 <= i < j < |entries| ==> entries[i].id != entries[j].id
  }

  predicate Has(entries: seq<Entry>, id: int) {
    exists i :: 0 <= i < |entries| && entries[i].id == id
  }

  function Lookup(entries: seq<Entry>, id: int): Option<seq<Byte>> {
    if entries == [] then None
    else if entries[0].id == id then Some(entries[0].data)
    else Lookup(entries[1..], id)
  }

  /** `entries[id] = data` */
  function Update(entries: seq<Entry>, id: int, data: seq<Byte>): seq<Entry> {
    if entries == [] then [Entry(id, data)]
    else if entries[0].id == id then [Entry(id, data)] + entries[1..]
    else [entries[0]] + Update(entries[1..], id, data)
  }

  // ----- the bytes

  function Total(entries: seq<Entry>): nat {
    if entries == [] then 0 else Total(entries[..|entries| - 1]) + |entries[|entries| - 1].data|
  }

  function Payload(entries: seq<Entry>): (s: seq<Byte>)
    ensures |s| == Total(entries)
  {
    if entries == [] then [] else Payload(entries[..|entries| - 1]) + entries[|entries| - 1].data
  }

  function Descriptor(e: Entry, offset: nat): (s: seq<Byte>)
    ensures |s| == 12
  {
    ToBe(e.id, 4) + ToBe(offset, 4) + ToBe(|e.data|, 4)
  }

  function Table(entries: seq<Entry>, start: nat): (s: seq<Byte>)
    ensures |s| == 12 * |entries|
  {
    if entries == [] then []
    else
      var front := entries[..|entries| - 1];
      Table(front, start) + Descriptor(entries[|entries| - 1], start + Total(front))
  }

  function Header(count: nat): (s: seq<Byte>)
    ensures |s| == HEADER
  {
    ToBe(MAGIC, 4) + ToBe(VERSION, 4) + Zeros(16) + ToBe(count, 2)
  }

  function TableEnd(count: nat): nat {
    HEADER + 12 * count
  }

  function Encode(entries: seq<Entry>): seq<Byte> {
    Header(|entries|) + Table(entries, TableEnd(|entries|)) + Payload(entries)
  }

  /** One descriptor's fields fit 32 bits. */
  predicate Fits(e: Entry, offset: nat) {
    0 <= e.id < TWO32 && offset < TWO32 && |e.data| < TWO32
  }

  ghost predicate AllFit(entries: seq<Entry>, n: nat)
    requires n <= |entries|
  {
    forall i {:trigger entries[i]} :: 0 <= i < n ==> Fits(entries[i], TableEnd(|entries|) + Total(entries[..i]))
  }

  /** What the format can hold: a 16-bit count, 32-bit ids, offsets and lengths. */
  ghost predicate Writable(entries: seq<Entry>) {
    |entries| < 0x1_0000 && AllFit(entries, |entries|)
  }

  /** `write`: the descriptor table and the payload grow together. */
  method Write(entries: seq<Entry>) returns (r: Option<seq<Byte>>)
    ensures r.Some? <==> Writable(entries)
    ensures r.Some? ==> r.value == Encode(entries)
  {
    var count := |entries|;
    if count >= 0x1_0000 {
      return None;
    }
    var output: seq<Byte>, payload: seq<Byte>, offset: nat, i: nat := Header(count), [], TableEnd(count), 0;
    hide Header, Descriptor, TableEnd, Encode, Fits, AllFit, Progress;
    Starts(entries);
    while i < count
      invariant i <= count && AllFit(entries, i) && Progress(entries, i, offset, output, payload)
    {
      var e := entries[i];
      FitStep(entries, i);
      Advances(entries, i, offset, output, payload);
      if !Fits(e, offset) {
        return None;
      }
      output := output + Descriptor(e, offset);
      payload := payload + e.data;
      offset := offset + |e.data|;
      i := i + 1;
    }
    Ends(entries, offset, output, payload);
    return Some(output + payload);
  }

  /** What the loop has written after i entries. */
  ghost predicate Progress(entries: seq<Entry>, i: nat, offset: nat, output: seq<Byte>, payload: seq<Byte>)
    requires i <= |entries|
  {
    var start := TableEnd(|entries|);
    offset == start + Total(entries[..i]) && payload == Payload(entries[..i]) &&
    output == Header(|entries|) + Table(entries[..i], start)
  }

  lemma {:induction false} Starts(entries: seq<Entry>)
    ensures AllFit(entries, 0) && Progress(entries, 0, TableEnd(|entries|), Header(|entries|), [])
  {
    hide Header;
    assert entries[..0] == [];
  }

  lemma {:induction false} Advances(entries: seq<Entry>, i: nat, offset: nat, output: seq<Byte>, payload: seq<Byte>)
    requires i < |entries| && Progress(entries, i, offset, output, payload)
    ensures offset == TableEnd(|entries|) + Total(entries[..i])
    ensures Progress(entries, i + 1, offset + |entries[i].data|, output + Descriptor(entries[i], offset),
                     payload + entries[i].data)
  {
    hide Header, Descriptor, TableEnd, Table, Payload, Total;
    OneMore(entries, TableEnd(|entries|), i);
    Rejoin(Header(|entries|), Table(entries[..i], TableEnd(|entries|)), Descriptor(entries[i], offset));
  }

  lemma {:induction false} Ends(entries: seq<Entry>, offset: nat, output: seq<Byte>, payload: seq<Byte>)
    requires Progress(entries, |entries|, offset, output, payload)
    ensures output + payload == Encode(entries)
  {
    hide Header, TableEnd, Table, Payload, Total;
    assert entries[..|entries|] == entries;
  }

  lemma {:induction false} OneMore(entries: seq<Entry>, start: nat, i: nat)
    requires i < |entries|
    ensures Table(entries[..i + 1], start) ==
            Table(entries[..i], start) + Descriptor(entries[i], start + Total(entries[..i]))
    ensures Payload(entries[..i + 1]) == Payload(entries[..i]) + entries[i].data
    ensures Total(entries[..i + 1]) == Total(entries[..i]) + |entries[i].data|
  {
    hide Descriptor;
    assert entries[..i + 1][..i] == entries[..i] && entries[..i + 1][i] == entries[i];
  }

  lemma {:induction false} FitStep(entries: seq<Entry>, i: nat)
    requires i < |entries|
    ensures AllFit(entries, i + 1) <==>
            AllFit(entries, i) && Fits(entries[i], TableEnd(|entries|) + Total(entries[..i]))
    ensures AllFit(entries, |entries|) ==> AllFit(entries, i + 1)
  {
    hide Fits, Total, TableEnd;
  }

  lemma {:induction false} Rejoin<T>(a: seq<T>, b: seq<T>, c: seq<T>)
    ensures a + b + c == a + (b + c)
  {
  }

  // ----- reading

  /** The entry of descriptor i, if its data lie between the table and the end of the file. */
  function EntryAt(data: seq<Byte>, count: nat, i: nat): Option<Entry>
    requires i < count && TableEnd(count) <= |data|
  {
    var at := HEADER + 12 * i;
    var id, offset, length := U32(data, at), U32(data, at + 4), U32(data, at + 8);
    if offset < TableEnd(count) || offset + length > |data| then None
    else Some(Entry(id, data[offset..offset + length]))
  }

  function ReadTable(data: seq<Byte>, count: nat, i: nat, got: seq<Entry>): Option<seq<Entry>>
    requires i <= count && TableEnd(count) <= |data|
    decreases count - i
  {
    if i == count then Some(got)
    else
      var e := EntryAt(data, count, i);
      if e.None? || Has(got, e.value.id) then None else ReadTable(data, count, i + 1, got + [e.value])
  }

  predicate HeaderOk(data: seq<Byte>) {
    |data| >= HEADER && U32(data, 0) == MAGIC && U32(data, 4) == VERSION && TableEnd(Be(data[24..26])) <= |data|
  }

  function Decode(data: seq<Byte>): Option<seq<Entry>> {
    if HeaderOk(data) then ReadTable(data, Be(data[24..26]), 0, []) else None
  }

  /** `read` */
  method Read(data: seq<Byte>) returns (r: Option<seq<Entry>>)
    ensures r == Decode(data)
  {
    hide U32, TableEnd;
    if !HeaderOk(data) {
      return None;
    }
    var count, entries, i := Be(data[24..26]), [], 0;
    while i < count
      invariant i <= count && Decode(data) == ReadTable(data, count, i, entries)
    {
      var e := EntryAt(data, count, i);
      if e.None? || Has(entries, e.value.id) {
        return None;
      }
      entries, i := entries + [e.value], i + 1;
    }
    return Some(entries);
  }

  // ----- the round trip

  lemma {:induction false} TotalGrows(entries: seq<Entry>, i: nat)
    requires i < |entries|
    ensures Total(entries[..i + 1]) == Total(entries[..i]) + |entries[i].data|
    ensures Total(entries[..i + 1]) <= Total(entries)
    decreases |entries|
  {
    assert entries[..i + 1][..i] == entries[..i];
    if i + 1 == |entries| {
      assert entries[..i + 1] == entries;
    } else {
      var front := entries[..|entries| - 1];
      TotalGrows(front, i);
      assert front[..i + 1] == entries[..i + 1];
    }
  }

  lemma {:induction false} TableAt(entries: seq<Entry>, start: nat, i: nat)
    requires i < |entries|
    ensures Table(entries, start)[12 * i..12 * i + 12] == Descriptor(entries[i], start + Total(entries[..i]))
    decreases |entries|
  {
    hide Descriptor, Total;
    var front := entries[..|entries| - 1];
    if i + 1 == |entries| {
      assert entries[..i] == front;
    } else {
      TableAt(front, start, i);
      assert front[..i] == entries[..i];
    }
  }

  lemma {:induction false} PayloadAt(entries: seq<Entry>, i: nat)
    requires i < |entries|
    ensures Total(entries[..i]) + |entries[i].data| <= Total(entries)
    ensures Payload(entries)[Total(entries[..i])..Total(entries[..i]) + |entries[i].data|] == entries[i].data
    decreases |entries|
  {
    TotalGrows(entries, i);
    var front, last := entries[..|entries| - 1], entries[|entries| - 1].data;
    var before := Payload(front);
    assert Payload(entries) == before + last;
    if i + 1 == |entries| {
      assert entries[..i] == front && last[0..|last|] == last;
      SliceSuffix(before, last, 0, |last|);
    } else {
      assert front[..i] == entries[..i] && front[i] == entries[i];
      PayloadAt(front, i);
      hide Payload;
      SlicePrefix(before, last, Total(entries[..i]), Total(entries[..i]) + |entries[i].data|);
    }
  }

  lemma {:induction false} SlicePrefix<T>(a: seq<T>, b: seq<T>, i: nat, j: nat)
    requires i <= j <= |a|
    ensures (a + b)[i..j] == a[i..j]
  {
  }

  lemma {:induction false} SliceMiddle<T>(a: seq<T>, b: seq<T>, c: seq<T>, i: nat, j: nat)
    requires i <= j <= |b|
    ensures (a + b + c)[|a| + i..|a| + j] == b[i..j]
  {
  }

  lemma {:induction false} SliceSuffix<T>(a: seq<T>, b: seq<T>, i: nat, j: nat)
    requires i <= j <= |b|
    ensures (a + b)[|a| + i..|a| + j] == b[i..j]
  {
  }

  lemma {:induction false} WordReads(v: nat, n: nat)
    requires (n == 4 && v < TWO32) || (n == 2 && v < 0x1_0000)
    ensures Be(ToBe(v, n)) == v
  {
    Pow256Values();
    BeToBe(v, n);
  }

  lemma {:induction false} DescriptorReads(e: Entry, offset: nat, data: seq<Byte>, at: nat)
    requires Fits(e, offset) && at + 12 <= |data| && data[at..at + 12] == Descriptor(e, offset)
    ensures U32(data, at) == e.id && U32(data, at + 4) == offset && U32(data, at + 8) == |e.data|
  {
    var d, x, y, z := data[at..at + 12], ToBe(e.id, 4), ToBe(offset, 4), ToBe(|e.data|, 4);
    SubSlice(data, at, at + 12, 0, 4);
    SubSlice(data, at, at + 12, 4, 8);
    SubSlice(data, at, at + 12, 8, 12);
    SliceMiddle([], x, y + z, 0, 4);
    SliceMiddle(x, y, z, 0, 4);
    SliceSuffix(x + y, z, 0, 4);
    assert [] + x + (y + z) == x + y + z;
    assert x[0..4] == x && y[0..4] == y && z[0..4] == z;
    hide ToBe;
    WordReads(e.id, 4);
    WordReads(offset, 4);
    WordReads(|e.data|, 4);
  }

  /** Each descriptor of a written file names its entry, and points at the entry's bytes. */
  lemma {:induction false} EntryReads(entries: seq<Entry>, i: nat)
    requires Writable(entries) && i < |entries|
    ensures TableEnd(|entries|) <= |Encode(entries)|
    ensures EntryAt(Encode(entries), |entries|, i) == Some(entries[i])
  {
    hide Header, Table, Payload, Descriptor, U32, Total;
    var n := |entries|;
    var data, h, t, p := Encode(entries), Header(n), Table(entries, TableEnd(n)), Payload(entries);
    var at, from, e := HEADER + 12 * i, Total(entries[..i]), entries[i];
    TableAt(entries, TableEnd(n), i);
    SliceMiddle(h, t, p, 12 * i, 12 * i + 12);
    assert Fits(e, TableEnd(n) + from);
    DescriptorReads(e, TableEnd(n) + from, data, at);
    PayloadAt(entries, i);
    SliceSuffix(h + t, p, from, from + |e.data|);
  }

  lemma {:induction false} TableReads(entries: seq<Entry>, i: nat)
    requires Writable(entries) && Unique(entries) && i <= |entries| && TableEnd(|entries|) <= |Encode(entries)|
    ensures ReadTable(Encode(entries), |entries|, i, entries[..i]) == Some(entries)
    decreases |entries| - i
  {
    hide Encode, EntryAt, TableEnd, Writable;
    if i == |entries| {
      assert entries[..i] == entries;
    } else {
      EntryReads(entries, i);
      assert entries[..i] + [entries[i]] == entries[..i + 1];
      TableReads(entries, i + 1);
    }
  }

  /** Reading what was written gives every entry back. */
  lemma {:induction false} ReadWrite(entries: seq<Entry>)
    requires Writable(entries) && Unique(entries)
    ensures Decode(Encode(entries)) == Some(entries)
  {
    hide Table, Payload, ReadTable, U32, AllFit;
    var n := |entries|;
    var data, h := Encode(entries), Header(n);
    HeaderReads(n, Table(entries, TableEnd(n)) + Payload(entries));
    Rejoin(h, Table(entries, TableEnd(n)), Payload(entries));
    TableReads(entries, 0);
    assert entries[..0] == [];
  }

  lemma {:induction false} HeaderReads(n: nat, rest: seq<Byte>)
    requires n < 0x1_0000
    ensures U32(Header(n) + rest, 0) == MAGIC && U32(Header(n) + rest, 4) == VERSION
    ensures Be((Header(n) + rest)[24..26]) == n
  {
    var h := Header(n);
    SlicePrefix(h, rest, 0, 4);
    SlicePrefix(h, rest, 4, 8);
    SlicePrefix(h, rest, 24, 26);
    assert h[0..4] == ToBe(MAGIC, 4) && h[4..8] == ToBe(VERSION, 4) && h[24..26] == ToBe(n, 2);
    WordReads(MAGIC, 4);
    WordReads(VERSION, 4);
    WordReads(n, 2);
  }

  // ----- what reading gives, and updating one entry

  lemma {:induction false} ReadIsUnique(data: seq<Byte>, count: nat, i: nat, got: seq<Entry>)
    requires i <= count && TableEnd(count) <= |data| && Unique(got)
    requires ReadTable(data, count, i, got).Some?
    ensures Unique(ReadTable(data, count, i, got).value)
    decreases count - i
  {
    hide EntryAt, TableEnd;
    if i < count {
      ReadIsUnique(data, count, i + 1, got + [EntryAt(data, count, i).value]);
    }
  }

  lemma {:induction false} UpdateLooksUp(entries: seq<Entry>, id: int, data: seq<Byte>, other: int)
    ensures Lookup(Update(entries, id, data), other) == if other == id then Some(data) else Lookup(entries, other)
    ensures Has(Update(entries, id, data), other) <==> other == id || Has(entries, other)
    decreases |entries|
  {
    var updated := Update(entries, id, data);
    HasHead(updated, other);
    if entries != [] {
      HasHead(entries, other);
      if entries[0].id != id {
        UpdateLooksUp(entries[1..], id, data, other);
        assert updated[1..] == Update(entries[1..], id, data);
      } else {
        assert updated[1..] == entries[1..];
      }
    }
  }

  lemma {:induction false} HasHead(entries: seq<Entry>, id: int)
    ensures entries != [] ==> (Has(entries, id) <==> entries[0].id == id || Has(entries[1..], id))
  {
    if entries != [] && Has(entries, id) && entries[0].id != id {
      var i :| 0 <= i < |entries| && entries[i].id == id;
      assert entries[1..][i - 1].id == id;
    }
  }

  lemma {:induction false} UpdateUnique(entries: seq<Entry>, id: int, data: seq<Byte>)
    requires Unique(entries)
    ensures Unique(Update(entries, id, data))
    decreases |entries|
  {
    if entries != [] && entries[0].id != id {
      var rest := Update(entries[1..], id, data);
      UpdateUnique(entries[1..], id, data);
      forall j | 0 <= j < |rest| ensures rest[j].id != entries[0].id {
        UpdateLooksUp(entries[1..], id, data, rest[j].id);
        assert Has(rest, rest[j].id);
      }
    }
  }

  /** Rewriting a container with one entry changed: that entry reads back as given, every other one as
      it was. */
  lemma {:induction false} RewriteKeepsRest(file: seq<Byte>, id: int, data: seq<Byte>, other: int)
    requires Decode(file).Some? && Writable(Update(Decode(file).value, id, data))
    ensures var again := Decode(Encode(Update(Decode(file).value, id, data)));
            again.Some? && Lookup(again.value, id) == Some(data) &&
            (other != id ==> Lookup(again.value, other) == Lookup(Decode(file).value, other))
  {
    hide ReadTable, Writable, Encode;
    var entries := Decode(file).value;
    ReadIsUnique(file, Be(file[24..26]), 0, []);
    UpdateUnique(entries, id, data);
    ReadWrite(Update(entries, id, data));
    UpdateLooksUp(entries, id, data, id);
    UpdateLooksUp(entries, id, data, other);
  }

  /** The header, byte by byte: magic and version, sixteen bytes of filler, the count. */
  lemma {:induction false} HeaderBytes(count: nat)
    requires count < 0x1_0000
    ensures Header(count) ==
            [0x00, 0x05, 0x16, 0x07] + [0x00, 0x02, 0x00, 0x00] + Zeros(16) + [count / 0x100, count % 0x100]
  {
    ToBeWord(0x0005_1607);
    ToBeWord(0x0002_0000);
    ToBeWord(count);
    assert ToBe(MAGIC, 4) == [0x00, 0x05, 0x16, 0x07] && ToBe(VERSION, 4) == [0x00, 0x02, 0x00, 0x00];
    hide ToBe, Zeros;
  }

  lemma {:induction false} DescriptorBytes()
    ensures Descriptor(Entry(9, [0xAB]), 38) == [0, 0, 0, 9] + [0, 0, 0, 38] + [0, 0, 0, 1]
  {
    ToBeWord(9);
    ToBeWord(38);
    ToBeWord(1);
    hide ToBe;
  }

  /** A file with one entry: header, descriptor, data. */
  lemma {:induction false} OneEntryFile()
    ensures Encode([Entry(9, [0xAB])]) ==
            Header(1) + ([0, 0, 0, 9] + [0, 0, 0, 38] + [0, 0, 0, 1]) + [0xAB]
  {
    var e := Entry(9, [0xAB]);
    DescriptorBytes();
    hide Header, Descriptor;
    assert [e][..0] == [];
    assert Payload([]) == [] && Total([]) == 0 && Table([], 38) == [];
    assert Payload([e]) == [] + [0xAB] == [0xAB] && Table([e], 38) == [] + Descriptor(e, 38) == Descriptor(e, 38);
  }
}
