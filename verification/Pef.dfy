/** Section images and relocation streams of a parsed PEF container (src/cwhost/pef.py). */
module Pef {
  import opened Bytes
  import PatternData

  /** The section kinds that are told apart. */
  datatype Kind = Code | ExecutableData | Pattern | Other

  datatype Section = Section(
    kind: Kind, defaultAddress: nat, totalSize: nat, unpackedSize: nat, packedSize: nat, containerOffset: nat)

  datatype Import = Import(name: string, weak: bool)

  datatype RelocHeader = RelocHeader(sectionIndex: nat, blocks: nat, first: nat)

  /** The tables of a container; section k is `sections[k]`. */
  datatype Container = Container(
    data: seq<Byte>, sections: seq<Section>, loader: seq<Byte>, relocInstrOffset: nat,
    imports: seq<Import>, headers: seq<RelocHeader>)

  datatype Error = ExceedsFile | BadPattern | StreamExceedsLoader
  datatype Result = Good(bytes: seq<Byte>) | Failed(error: Error)

  function RawSection(c: Container, s: Section): Result {
    if s.containerOffset + s.packedSize > |c.data| then Failed(ExceedsFile)
    else Good(c.data[s.containerOffset..s.containerOffset + s.packedSize])
  }

  /** The first pattern-initialised section from `from` on, or |sections|. */
  function FirstPattern(sections: seq<Section>, from: nat): (k: nat)
    requires from <= |sections|
    ensures from <= k <= |sections|
    ensures k < |sections| ==> sections[k].kind.Pattern?
    ensures forall j :: from <= j < k ==> !sections[j].kind.Pattern?
    decreases |sections| - from
  {
    if from == |sections| || sections[from].kind.Pattern? then from else FirstPattern(sections, from + 1)
  }

  /** Python's `b[:n].ljust(n, b"\0")`. */
  function Fit(b: seq<Byte>, n: nat): (r: seq<Byte>)
    ensures |r| == n
    ensures forall i :: 0 <= i < n ==> r[i] == if i < |b| then b[i] else 0
  {
    if |b| >= n then b[..n] else b + Zeros(n - |b|)
  }

  /** A pattern section's own bytes expanded and filled up to its total size. */
  function Expansion(c: Container, s: Section): Result {
    match RawSection(c, s)
    case Failed(e) => Failed(e)
    case Good(packed) =>
      match PatternData.ExpandFrom(packed, 0, [], s.unpackedSize)
      case Expanded(bytes) => Good(bytes + Zeros(s.totalSize - |bytes|))
      case _ => Failed(BadPattern)
  }

  /** `pidata()["expanded"]`: always the first pattern section. */
  function PatternImage(c: Container): Result {
    var k := FirstPattern(c.sections, 0);
    if k == |c.sections| then Good([]) else Expansion(c, c.sections[k])
  }

  function SectionImage(c: Container, index: nat): (r: Result)
    requires index < |c.sections|
    ensures r.Good? ==> |r.bytes| == c.sections[index].totalSize
  {
    var s := c.sections[index];
    match (if s.kind.Pattern? then PatternImage(c) else RawSection(c, s))
    case Failed(e) => Failed(e)
    case Good(image) => Good(Fit(image, s.totalSize))
  }

  function RelocStream(c: Container, index: nat): Result
    requires index < |c.headers|
  {
    var start := c.relocInstrOffset + c.headers[index].first;
    var end := start + c.headers[index].blocks * 2;
    if end > |c.loader| then Failed(StreamExceedsLoader) else Good(c.loader[start..end])
  }

  /** A section that is not pattern-initialised is its bytes in the file, cut or zero-filled to its total size; it
      is refused exactly when the file is too short. */
  lemma {:induction false} StoredSectionImage(c: Container, index: nat)
    requires index < |c.sections| && !c.sections[index].kind.Pattern?
    ensures var s, r := c.sections[index], SectionImage(c, index);
            if s.containerOffset + s.packedSize > |c.data| then r == Failed(ExceedsFile)
            else
              r.Good? && |r.bytes| == s.totalSize &&
              forall k :: 0 <= k < s.totalSize ==>
                r.bytes[k] == if k < s.packedSize then c.data[s.containerOffset + k] else 0
  {
  }

  /** A pattern section's image depends on the first pattern section: refused when that one runs over the end of the
      file, or does not expand to its stated size. */
  lemma {:induction false} PatternSectionRefused(c: Container, index: nat)
    requires index < |c.sections| && c.sections[index].kind.Pattern?
    ensures var first, r := c.sections[FirstPattern(c.sections, 0)], SectionImage(c, index);
            var end := first.containerOffset + first.packedSize;
            if end > |c.data| then r == Failed(ExceedsFile)
            else
              var x := PatternData.ExpandFrom(c.data[first.containerOffset..end], 0, [], first.unpackedSize);
              if !x.Expanded? then r == Failed(BadPattern)
              else
                r.Good? && |r.bytes| == c.sections[index].totalSize &&
                forall k :: 0 <= k < |r.bytes| ==> r.bytes[k] == if k < |x.bytes| then x.bytes[k] else 0
  {
  }

  /** A relocation header's stream is `blocks` half-words of the loader section, `first` bytes behind the start of the
      instructions; it is refused exactly when it runs over the end. */
  lemma {:induction false} StreamBytes(c: Container, h: nat)
    requires h < |c.headers|
    ensures var start, n, r := c.relocInstrOffset + c.headers[h].first, 2 * c.headers[h].blocks, RelocStream(c, h);
            if start + n > |c.loader| then r == Failed(StreamExceedsLoader)
            else r.Good? && |r.bytes| == n && forall k :: 0 <= k < n ==> r.bytes[k] == c.loader[start + k]
  {
  }

  /** A pattern section that holds the encoding of an instruction list materialises as the
      list's meaning, cut or zero-filled to the section's total size; so does every later pattern
      section, whatever it holds itself. */
  lemma {:induction false} PatternSectionImage(c: Container, index: nat, ps: seq<PatternData.Pattern>)
    requires index < |c.sections| && c.sections[index].kind.Pattern?
    requires PatternData.AllGood(ps)
    requires var s := c.sections[FirstPattern(c.sections, 0)];
             RawSection(c, s) == Good(PatternData.EncodeAll(ps)) && s.unpackedSize == |PatternData.AllBytes(ps)|
    ensures var first := c.sections[FirstPattern(c.sections, 0)];
            SectionImage(c, index) ==
            Good(Fit(Fit(PatternData.AllBytes(ps), if first.totalSize < first.unpackedSize then first.unpackedSize
                                                    else first.totalSize), c.sections[index].totalSize))
  {
    PatternData.ExpandEncode(ps);
  }

  /** With one pattern section, that is its own meaning, cut or zero-filled. */
  lemma {:induction false} OnlyPatternSection(c: Container, index: nat, ps: seq<PatternData.Pattern>)
    requires index < |c.sections| && c.sections[index].kind.Pattern?
    requires forall k :: 0 <= k < index ==> !c.sections[k].kind.Pattern?
    requires PatternData.AllGood(ps)
    requires RawSection(c, c.sections[index]) == Good(PatternData.EncodeAll(ps))
    requires c.sections[index].unpackedSize == |PatternData.AllBytes(ps)|
    ensures SectionImage(c, index) == Good(Fit(PatternData.AllBytes(ps), c.sections[index].totalSize))
  {
    assert FirstPattern(c.sections, 0) == index;
    PatternSectionImage(c, index, ps);
    var b, n := PatternData.AllBytes(ps), c.sections[index].totalSize;
    assert Fit(Fit(b, if n < |b| then |b| else n), n) == Fit(b, n);
  }

  // ----- which pattern sections get their own contents

  /** What the section itself holds. */
  function OwnImage(c: Container, index: nat): Result
    requires index < |c.sections|
  {
    match Expansion(c, c.sections[index])
    case Failed(e) => Failed(e)
    case Good(image) => Good(Fit(image, c.sections[index].totalSize))
  }

  ghost predicate OwnImaged(c: Container, data: seq<Byte>, index: nat)
    requires index < |c.sections|
  {
    SectionImage(c.(data := data), index) == OwnImage(c.(data := data), index)
  }

  ghost predicate ExpandsFrom(s: Section, packed: seq<Byte>) {
    |packed| == s.packedSize && PatternData.ExpandFrom(packed, 0, [], s.unpackedSize).Expanded?
  }

  /** The two sections lie apart in the file, the first one expands to something, and the other one can
      be expanded at all. */
  ghost predicate Independent(first: Section, s: Section) {
    (first.containerOffset + first.packedSize <= s.containerOffset ||
     s.containerOffset + s.packedSize <= first.containerOffset) &&
    first.unpackedSize > 0 && exists packed :: ExpandsFrom(s, packed)
  }

  lemma {:induction false} ReservedExpands(packed: seq<Byte>, pos: nat, size: nat)
    requires size > 0 && forall i :: 0 <= i < |packed| ==> packed[i] == 0xE1
    ensures PatternData.ExpandFrom(packed, pos, [], size) == PatternData.WrongLength
    decreases |packed| - pos
  {
    if pos < |packed| {
      assert PatternData.DecodeOne(packed, pos) == PatternData.Piece([], pos + 1);
      ReservedExpands(packed, pos + 1, size);
    }
  }

  /** File contents for which the first pattern section is bad and the other one good. */
  lemma {:induction false} OtherContents(c: Container, first: nat, index: nat) returns (data: seq<Byte>)
    requires first < |c.sections| && index < |c.sections| && Independent(c.sections[first], c.sections[index])
    ensures Expansion(c.(data := data), c.sections[first]) == Failed(BadPattern)
    ensures OwnImage(c.(data := data), index).Good?
  {
    var a, b := c.sections[first], c.sections[index];
    var packed :| ExpandsFrom(b, packed);
    var n, m := a.containerOffset + a.packedSize, b.containerOffset + b.packedSize;
    var blank: seq<Byte> := seq(n + m, _ => 0xE1);
    data := Splice(blank, b.containerOffset, packed);
    var d := c.(data := data);
    assert data[b.containerOffset..m] == packed;
    hide Splice, PatternData.ExpandFrom;
    assert RawSection(d, b) == Good(packed);
    ReservedExpands(data[a.containerOffset..n], 0, a.unpackedSize);
    assert RawSection(d, a) == Good(data[a.containerOffset..n]);
  }

  /** A pattern section's image is its own contents, whatever the file holds, if and only if it is the
      first pattern section. */
  lemma {:induction false} OwnContentsIffFirst(c: Container, index: nat)
    requires index < |c.sections| && c.sections[index].kind.Pattern?
    requires var first := FirstPattern(c.sections, 0);
             first != index ==> Independent(c.sections[first], c.sections[index])
    ensures (forall data :: OwnImaged(c, data, index)) <==> FirstPattern(c.sections, 0) == index
  {
    hide Expansion;
    var first := FirstPattern(c.sections, 0);
    if first == index {
      forall data ensures OwnImaged(c, data, index) {}
    } else {
      var data := OtherContents(c, first, index);
      assert PatternImage(c.(data := data)) == Failed(BadPattern);
      assert !OwnImaged(c, data, index);
    }
  }

  /** An instance: the second section holds a 7 and gets a 0. */
  lemma {:induction false} SecondPatternIsMisread()
    ensures var c := Container([0x01, 0x21, 7], [Section(Pattern, 0, 1, 1, 1, 0), Section(Pattern, 0, 1, 1, 2, 1)],
                               [], 0, [], []);
            SectionImage(c, 1) == Good([0]) && OwnImage(c, 1) == Good([7])
  {
    var data: seq<Byte> := [0x01, 0x21, 7];
    var zero, copy := PatternData.ZeroRun(PatternData.InByte(1)),
                      PatternData.CopyBlock(PatternData.InByte(1), [7]);
    assert data[0..1] == [0x01] == PatternData.Encode(zero) && data[1..3] == [0x21, 7] == PatternData.Encode(copy);
    OnePattern(zero);
    OnePattern(copy);
    assert PatternData.PatternBytes(zero) == [0];
    hide PatternData.ExpandFrom;
    assert [0] + Zeros(0) == [0] && [7] + Zeros(0) == [7];
  }

  lemma {:induction false} OnePattern(p: PatternData.Pattern)
    requires PatternData.GoodPattern(p)
    ensures PatternData.ExpandFrom(PatternData.Encode(p), 0, [], |PatternData.PatternBytes(p)|) ==
            PatternData.Expanded(PatternData.PatternBytes(p))
  {
    var ps := [p];
    assert ps[1..] == [];
    assert PatternData.EncodeAll(ps) == PatternData.Encode(p) + [] == PatternData.Encode(p);
    assert PatternData.AllBytes(ps) == PatternData.PatternBytes(p) + [] == PatternData.PatternBytes(p);
    PatternData.ExpandEncode(ps);
  }
}
