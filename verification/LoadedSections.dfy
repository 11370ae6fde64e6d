/** What a loaded section holds (src/cwhost/loader.py): the value each instruction adds, and the words that come
    out of it. */
module LoadedSections {
  import opened Bytes
  import opened Loader
  import opened Patches
  import opened Pef
  import opened RelocationInstructions
  import opened RelocationMeaning
  import opened RelocationOrigins
  import opened RelocationTheorems
  import opened Wrappers
  import G = Guest
  import M = RelocationMachine
  import R = Relocation

  // ----- what a load adds

  /** What a load adds for an origin: an import's descriptor address, or how far a section has moved. */
  function LoadValue(c: Container, o: Origin): int
    requires Known(o, |c.sections|, |c.imports|)
  {
    match o
    case OfImport(i) => 0x2900_0000 + 8 * i
    case OfSection(s) => 0x1000_0000 + 0x0100_0000 * s - c.sections[s].defaultAddress
    case StartC => if |c.sections| > 0 then 0x1000_0000 - c.sections[0].defaultAddress else 0
    case StartD => if |c.sections| > 1 then 0x1100_0000 - c.sections[1].defaultAddress else 0
  }

  /** The delta of section s: named, or in C or D from the start. */
  predicate MovesWith(o: Origin, s: nat) {
    o == OfSection(s) || (o == StartC && s == 0) || (o == StartD && s == 1)
  }

  /** A header is applied with every import at its descriptor, every section's delta, and the first two of those
      in C and D. */
  lemma {:induction false} HeaderRelocates(c: Container, h: nat, env: Env)
    requires h < |c.headers| && Applies(c, h)
    requires |env.imports| == |c.imports| && |env.deltas| == |c.sections|
    requires forall i :: 0 <= i < |c.imports| ==> env.imports[i] == 0x2900_0000 + 8 * i
    requires forall s :: 0 <= s < |c.sections| ==>
               env.deltas[s] == 0x1000_0000 + 0x0100_0000 * s - c.sections[s].defaultAddress
    ensures RelocateHeader(c, h) ==
            Relocate(M.Words(RelocStream(c, h).bytes), env, SectionImage(c, c.headers[h].sectionIndex).bytes,
                     if |c.sections| > 0 then env.deltas[0] else 0, if |c.sections| > 1 then env.deltas[1] else 0)
  {
    hide Relocate, SectionImage, RelocStream, M.Words;
    assert Tables(c).deltas == env.deltas;
    assert Tables(c).imports == env.imports;
  }

  /** Where header h adds, and from where the values come. */
  function HeaderMarks(c: Container, h: nat): seq<Mark>
    requires h < |c.headers| && Applies(c, h)
  {
    StreamMarks(Program(M.Words(RelocStream(c, h).bytes)), |c.sections|, |c.imports|,
                c.sections[c.headers[h].sectionIndex].totalSize)
  }

  /** The adds of header h are at its marks, and each adds what its origin is worth in a load. */
  lemma {:induction false} HeaderAddsAre(c: Container, h: nat)
    requires h < |c.headers| && Applies(c, h)
    ensures |HeaderAdds(c, h)| == |HeaderMarks(c, h)|
    ensures forall k :: 0 <= k < |HeaderAdds(c, h)| ==>
              var mark := HeaderMarks(c, h)[k];
              Known(mark.origin, |c.sections|, |c.imports|) &&
              HeaderAdds(c, h)[k] == Patch(mark.at, LoadValue(c, mark.origin))
  {
    ImageLength(c, h);
    hide Marks, Adds, Program, Applies, RelocStream, Image, M.Words;
    var ops := Program(M.Words(RelocStream(c, h).bytes));
    var st := State(Image(c, c.headers[h].sectionIndex), 0, 0, InitialC(c), InitialD(c));
    AddsBear(Tables(c), ops, st, Trail(0, 0, StartC, StartD), InitialC(c), InitialD(c));
  }

  // ----- the words that come out of it

  /** The adds header h makes to the image of its section. */
  function HeaderAdds(c: Container, h: nat): seq<Patch>
    requires h < |c.headers| && Applies(c, h)
  {
    Footprint(M.Words(RelocStream(c, h).bytes), Tables(c), Image(c, c.headers[h].sectionIndex),
              InitialC(c), InitialD(c))
  }

  /** The stream adds `value` at p exactly once, and no other add touches the word there. */
  ghost predicate AddedOnce(adds: seq<Patch>, p: nat, value: int) {
    exists i :: 0 <= i < |adds| && adds[i] == Patch(p, value) &&
      forall j :: 0 <= j < |adds| && j != i ==> adds[j].at != p && Apart(adds[j].at, p)
  }

  /** The stream adds to the word at p exactly once, with this origin, and no other add touches the word. */
  ghost predicate MarkedOnce(marks: seq<Mark>, p: nat, o: Origin) {
    exists i :: 0 <= i < |marks| && marks[i] == Mark(p, o) &&
      forall j :: 0 <= j < |marks| && j != i ==> marks[j].at != p && Apart(marks[j].at, p)
  }

  lemma {:induction false} OnceMarked(c: Container, h: nat, p: nat, o: Origin)
    requires h < |c.headers| && Applies(c, h) && MarkedOnce(HeaderMarks(c, h), p, o)
    ensures Known(o, |c.sections|, |c.imports|) && AddedOnce(HeaderAdds(c, h), p, LoadValue(c, o))
  {
    hide Applies, HeaderAdds, HeaderMarks, LoadValue;
    HeaderAddsAre(c, h);
    var marks, adds := HeaderMarks(c, h), HeaderAdds(c, h);
    var i :| 0 <= i < |marks| && marks[i] == Mark(p, o) &&
      forall j :: 0 <= j < |marks| && j != i ==> marks[j].at != p && Apart(marks[j].at, p);
    assert adds[i] == Patch(p, LoadValue(c, o));
    forall j | 0 <= j < |adds| && j != i ensures adds[j].at != p && Apart(adds[j].at, p) {
      assert adds[j].at == marks[j].at;
    }
  }

  /** Header h applies, is the last for its section, and the section is in place. */
  ghost predicate Decisive(mem: G.Memory, c: Container, h: nat) {
    h < |c.headers| && Applies(c, h) &&
    (forall i :: h < i < |c.headers| ==> c.headers[i].sectionIndex != c.headers[h].sectionIndex) &&
    PlacedSection(mem, c, c.headers[h].sectionIndex, |c.headers|)
  }

  lemma {:induction false} TotalNone(adds: seq<Patch>, p: nat)
    requires forall j :: 0 <= j < |adds| ==> adds[j].at != p
    ensures TotalAt(adds, p) == 0
    decreases |adds|
  {
    if adds != [] {
      TotalNone(adds[1..], p);
    }
  }

  lemma {:induction false} TotalOnce(adds: seq<Patch>, p: nat, i: nat)
    requires i < |adds| && adds[i].at == p
    requires forall j :: 0 <= j < |adds| && j != i ==> adds[j].at != p
    ensures TotalAt(adds, p) == adds[i].value
    decreases |adds|
  {
    if i == 0 {
      TotalNone(adds[1..], p);
    } else {
      TotalOnce(adds[1..], p, i - 1);
    }
  }

  lemma {:induction false} AppliedIsAdds(c: Container, h: nat)
    requires h < |c.headers| && Applies(c, h)
    ensures c.headers[h].sectionIndex < |c.sections|
    ensures var image := Image(c, c.headers[h].sectionIndex);
            InRange(HeaderAdds(c, h), |image|) && Applied(c, h) == ApplyAll(image, HeaderAdds(c, h))
  {
    hide Fold, Step, Adds, ApplyAll;
    var ops := Program(M.Words(RelocStream(c, h).bytes));
    SectionIsItsAdds(Tables(c), ops, State(Image(c, c.headers[h].sectionIndex), 0, 0, InitialC(c), InitialD(c)));
  }

  lemma {:induction false} WordLands(c: Container, h: nat, p: nat, value: int)
    requires h < |c.headers| && Applies(c, h)
    requires p + 4 <= |Image(c, c.headers[h].sectionIndex)| && AddedOnce(HeaderAdds(c, h), p, value)
    ensures p + 4 <= |Applied(c, h)|
    ensures WordAt(Applied(c, h), p) == (WordAt(Image(c, c.headers[h].sectionIndex), p) + value) % TWO32
  {
    hide Applies, WordAt, Applied, Image, HeaderAdds;
    AppliedIsAdds(c, h);
    var adds := HeaderAdds(c, h);
    var i :| 0 <= i < |adds| && adds[i] == Patch(p, value) &&
      forall j :: 0 <= j < |adds| && j != i ==> adds[j].at != p && Apart(adds[j].at, p);
    TotalOnce(adds, p, i);
    FinalWord(Image(c, c.headers[h].sectionIndex), adds, p);
  }

  /** The word at p of loaded section k, as the guest reads it. */
  lemma {:induction false} GuestReadsWord(mem: G.Memory, c: Container, k: nat, n: nat, p: nat)
    requires k < |c.sections| && n <= |c.headers| && PlacedSection(mem, c, k, n)
    requires p + 4 <= c.sections[k].totalSize == |FinalImage(c, k, n)|
    ensures G.Mapped(mem, SectionBase(k) + p, 4)
    ensures Be(G.Load(mem, SectionBase(k) + p, 4)) == WordAt(FinalImage(c, k, n), p)
  {
    G.LoadPart(mem, SectionBase(k), c.sections[k].totalSize, p, 4);
  }

  /** A pre-linked pointer lands: a word that held `off` into section s at its default address, and to which the
      section's last stream adds the delta of s once, from the table or from C or D, reads in the guest as the address
      of `off` in section s where it was loaded. */
  lemma {:induction false} PointerLands(mem: G.Memory, c: Container, h: nat, s: nat, p: nat, off: int, o: Origin)
    requires Decisive(mem, c, h) && s < |c.sections| && MovesWith(o, s) && MarkedOnce(HeaderMarks(c, h), p, o)
    requires var k := c.headers[h].sectionIndex;
             p + 4 <= c.sections[k].totalSize == |Image(c, k)| &&
             WordAt(Image(c, k), p) == (c.sections[s].defaultAddress + off) % TWO32
    ensures var at := 0x1000_0000 + 0x0100_0000 * c.headers[h].sectionIndex + p;
            G.Mapped(mem, at, 4) && Be(G.Load(mem, at, 4)) == (0x1000_0000 + 0x0100_0000 * s + off) % TWO32
  {
    hide Applies, HeaderAdds, HeaderMarks, Image, WordAt, Be, AddedOnce, PlacedSection, MarkedOnce;
    OnceMarked(c, h, p, o);
    WordLandsInGuest(mem, c, h, p, LoadValue(c, o));
    PointerSum(c.sections[s].defaultAddress, off, 0x1000_0000 + 0x0100_0000 * s);
  }

  lemma {:induction false} PointerSum(at: int, off: int, base: int)
    ensures ((at + off) % TWO32 + (base - at)) % TWO32 == (base + off) % TWO32
  {
    ModSum(at + off, 0, base - at);
  }

  lemma {:induction false} WordLandsInGuest(mem: G.Memory, c: Container, h: nat, p: nat, value: int)
    requires Decisive(mem, c, h) && p + 4 <= c.sections[c.headers[h].sectionIndex].totalSize
    requires AddedOnce(HeaderAdds(c, h), p, value)
    ensures var k := c.headers[h].sectionIndex;
            G.Mapped(mem, SectionBase(k) + p, 4) && p + 4 <= |Image(c, k)| &&
            Be(G.Load(mem, SectionBase(k) + p, 4)) == (WordAt(Image(c, k), p) + value) % TWO32
  {
    hide Applies, Applied, Image, HeaderAdds, FinalImage, AddedOnce, SectionBase, WordAt, PlacedSection;
    var k := c.headers[h].sectionIndex;
    ImageLength(c, h);
    AppliedLength(c, h);
    LastHeaderDecides(c, k, h, |c.headers|);
    WordLands(c, h, p, value);
    GuestReadsWord(mem, c, k, |c.headers|, p);
  }

  lemma {:induction false} ImageLength(c: Container, h: nat)
    requires h < |c.headers| && Applies(c, h)
    ensures |Image(c, c.headers[h].sectionIndex)| == c.sections[c.headers[h].sectionIndex].totalSize
  {
  }

  /** An import word lands: a word to which the section's last stream adds import i once has gained the address of
      the import's descriptor. */
  lemma {:induction false} ImportLands(mem: G.Memory, c: Container, h: nat, i: nat, p: nat)
    requires Decisive(mem, c, h) && p + 4 <= c.sections[c.headers[h].sectionIndex].totalSize && i < |c.imports|
    requires MarkedOnce(HeaderMarks(c, h), p, OfImport(i))
    ensures var k := c.headers[h].sectionIndex;
            var at := 0x1000_0000 + 0x0100_0000 * k + p;
            G.Mapped(mem, at, 4) && p + 4 <= |Image(c, k)| &&
            Be(G.Load(mem, at, 4)) == (WordAt(Image(c, k), p) + 0x2900_0000 + 8 * i) % TWO32
  {
    hide Applies, HeaderAdds, HeaderMarks, Image, WordAt, Be, AddedOnce, PlacedSection, MarkedOnce;
    OnceMarked(c, h, p, OfImport(i));
    WordLandsInGuest(mem, c, h, p, 0x2900_0000 + 8 * i);
  }

  lemma {:induction false} GuestReadsByte(mem: G.Memory, c: Container, k: nat, n: nat, b: nat)
    requires k < |c.sections| && n <= |c.headers| && PlacedSection(mem, c, k, n)
    requires b < c.sections[k].totalSize == |FinalImage(c, k, n)|
    ensures SectionBase(k) + b in mem && mem[SectionBase(k) + b] == FinalImage(c, k, n)[b]
  {
    hide FinalImage, SectionImage;
    var whole := G.Load(mem, SectionBase(k), c.sections[k].totalSize);
    assert whole[b] == mem[SectionBase(k) + b];
  }

  /** A byte no add covers is the byte of the unrelocated image. */
  lemma {:induction false} UntouchedLands(mem: G.Memory, c: Container, h: nat, b: nat)
    requires Decisive(mem, c, h) && b < c.sections[c.headers[h].sectionIndex].totalSize
    requires forall j :: 0 <= j < |HeaderAdds(c, h)| ==> !(HeaderAdds(c, h)[j].at <= b < HeaderAdds(c, h)[j].at + 4)
    ensures var k := c.headers[h].sectionIndex;
            SectionBase(k) + b in mem && b < |Image(c, k)| && mem[SectionBase(k) + b] == Image(c, k)[b]
  {
    hide Applies, Applied, Image, HeaderAdds, FinalImage, SectionBase;
    var k := c.headers[h].sectionIndex;
    ImageLength(c, h);
    AppliedLength(c, h);
    AppliedIsAdds(c, h);
    LastHeaderDecides(c, k, h, |c.headers|);
    UntouchedByte(Image(c, k), HeaderAdds(c, h), b);
    hide PlacedSection;
    GuestReadsByte(mem, c, k, |c.headers|, b);
  }

  /** An instance: of two imports the second one is added to the first word of a section. */
  function TwoImports(): Container {
    Container([], [Section(Code, 0, 4, 0, 0, 0)], [0xFF, 0xFF, 0x60, 0x01], 1,
              [Import("a", false), Import("b", false)], [RelocHeader(0, 1, 1)])
  }

  lemma {:induction false} TwoImportsStream()
    ensures var c := TwoImports();
            RelocStream(c, 0) == Good([0x60, 0x01]) && M.Words([0x60, 0x01]) == [0x6001] &&
            SectionImage(c, 0) == Good([0, 0, 0, 0])
  {
    var c := TwoImports();
    assert c.loader[2..4] == [0x60, 0x01];
    assert [0x60, 0x01][0..2] == [0x60, 0x01] && [0x60, 0x01][..1] == [0x60] && [0x60][..0] == [];
    assert Be([0x60, 0x01]) == 256 * Be([0x60]) + 1 && Be([0x60]) == 0x60;
    assert c.data[0..0] == [] && Fit([], 4) == [0, 0, 0, 0];
  }

  lemma {:induction false} ZeroWord(s: seq<Byte>)
    requires s == [0, 0, 0, 0]
    ensures WordAt(s, 0) == 0
  {
    assert s[0..4] == s && s[..3] == [0, 0, 0] && s[..3][..2] == [0, 0] && s[..3][..2][..1] == [0];
    assert Be(s) == 256 * Be(s[..3]) && Be(s[..3]) == 256 * Be(s[..3][..2]) && [0][..0] == [];
  }

  lemma {:induction false} DescriptorBytes(s: seq<Byte>)
    requires |s| == 4 && WordAt(s, 0) == 0x2900_0008
    ensures s == [0x29, 0, 0, 8]
  {
    assert s[0..4] == s;
    ToBeBe(s);
    assert ToBe(0x2900_0008, 4) == ToBe(0x29_0000, 3) + [8] && ToBe(0x29_0000, 3) == ToBe(0x2900, 2) + [0];
    assert ToBe(0x2900, 2) == ToBe(0x29, 1) + [0] && ToBe(0x29, 1) == ToBe(0, 0) + [0x29];
  }

  lemma {:induction false} ZeroGains(st: State, out: Outcome)
    requires st.section == [0, 0, 0, 0] && st.pos == 0 && AddsWords(st, [0x2900_0008], 4, out)
    ensures out.Done? && out.st.section == [0x29, 0, 0, 8]
  {
    hide WordAt;
    var after := out.st.section;
    assert WordsFrom(st.section, 0) == 1;
    assert Gains(st.section, after, 0 + 4 * 0, [0x2900_0008][0]);
    ZeroWord(st.section);
    DescriptorBytes(after);
  }

  lemma {:induction false} AddsSecondImport(env: Env, d1: int, d2: int)
    requires |env.imports| == 2 && env.imports[1] == 0x2900_0008
    ensures var out := Relocate([0x6001], env, [0, 0, 0, 0], d1, d2);
            out.Done? && out.st.section == [0x29, 0, 0, 8]
  {
    var zero: seq<Byte> := [0, 0, 0, 0];
    EmptyDoes(env, zero, d1, d2);
    ImportDoes([], env, zero, d1, d2, [0x6001], 1);
    hide Relocate, AddsWords;
    var out := Relocate([0x6001], env, zero, d1, d2);
    assert [] + [0x6001] == [0x6001];
    var st := State(zero, 0, 0, d1, d2);
    ZeroGains(if out.Done? then st.(importIndex := 2) else st, out);
  }

  lemma {:induction false} SecondImportAdded()
    ensures Applies(TwoImports(), 0) && FinalImage(TwoImports(), 0, 1) == [0x29, 0, 0, 8]
  {
    var c := TwoImports();
    TwoImportsStream();
    assert Tables(c).imports[1] == 0x2900_0008;
    AddsSecondImport(Tables(c), InitialC(c), InitialD(c));
    hide Relocate, M.Words, RelocStream, SectionImage, Tables, InitialC, InitialD;
  }

  lemma {:induction false} SecondImportLands(mem: G.Memory)
    requires Placed(mem, TwoImports(), 1, 1)
    ensures G.Mapped(mem, 0x1000_0000, 4) && G.Load(mem, 0x1000_0000, 4) == [0x29, 0, 0, 8]
  {
    hide FinalImage;
    SecondImportAdded();
    assert PlacedSection(mem, TwoImports(), 0, 1);
  }
}
