/** Several relocation headers for one section (src/cwhost/loader.py:128-141): whose result survives. */
module HeaderOrder {
  import opened Bytes
  import opened Loader
  import opened Patches
  import opened Pef
  import opened Relocation
  import opened RelocationMeaning
  import M = RelocationMachine
  import T = RelocationTheorems

  // ----- two simple streams

  ghost predicate QuietFrom(words: seq<Word>, from: nat) {
    forall i :: from <= i < |words| ==> words[i] == 0
  }

  /** Words of zero skip nothing and add nothing. */
  lemma {:induction false} QuietDoes(words: seq<Word>, history: seq<Token>, from: nat, env: Env, st: State)
    requires from <= |words| && AllDecoded(words, history) && QuietFrom(words, from)
    ensures Fold(env, Remaining(words, history, from), st) == Done(st)
    decreases |words| - from
  {
    RemainingStep(words, history, from);
    Fold0(env, st);
    if from < |words| {
      var tok := Token(from, 1, KSkip);
      assert TokenOf(words, tok) && Operands(words, tok) == Skip(0, 0);
      assert Meaning(Skip(0, 0)) == [Move(0)];
      hide Remaining, Meaning, Operands, TokenOf, Opcode, Fold;
      T.RemainingPlain(words, history, tok);
      FoldAppend(env, [Move(0)], Remaining(words, history + [tok], from + 1), st);
      Fold1(env, Move(0), st);
      QuietDoes(words, history + [tok], from + 1, env, st);
    }
  }

  lemma {:induction false} QuietRelocates(words: seq<Word>, env: Env, section: seq<Byte>, c: int, d: int)
    requires QuietFrom(words, 0)
    ensures Relocate(words, env, section, c, d) == Done(State(section, 0, 0, c, d))
  {
    QuietDoes(words, [], 0, env, State(section, 0, 0, c, d));
  }

  /** One add of C at the start, then nothing. */
  lemma {:induction false} OneAddRelocates(words: seq<Word>, env: Env, section: seq<Byte>, c: int, d: int)
    requires words != [] && words[0] == 0x4000 && QuietFrom(words, 1) && |section| >= 4
    ensures Relocate(words, env, section, c, d).Done?
    ensures Relocate(words, env, section, c, d).st.section == AddAt(section, 0, c)
  {
    var tok, st := Token(0, 1, KByC), State(section, 0, 0, c, d);
    assert TokenOf(words, tok) && Operands(words, tok) == RunC(1);
    T.RunMeans();
    hide Meaning, Operands, TokenOf, Opcode, AddAt, Fold;
    T.RemainingPlain(words, [], tok);
    Fold2(env, Add(FromC), Move(4), st);
    var next := st.(section := AddAt(section, 0, c), pos := 4);
    FoldAppend(env, [Add(FromC), Move(4)], Remaining(words, [] + [tok], 1), st);
    QuietDoes(words, [] + [tok], 1, env, next);
  }

  lemma {:induction false} AddShows(section: seq<Byte>, c: int)
    requires |section| >= 4 && c % TWO32 != 0
    ensures AddAt(section, 0, c) != section
  {
    hide AddAt, WordAt;
    WordAfterAdd(section, 0, c);
    SameSum(WordAt(section, 0), c);
  }

  lemma {:induction false} SameSum(w: int, c: int)
    requires 0 <= w < TWO32
    ensures (w + c) % TWO32 == w ==> c % TWO32 == 0
  {
    var q := (w + c) / TWO32;
    assert w + c == q * TWO32 + (w + c) % TWO32;
  }

  // ----- which header's result the section keeps

  /** The last of the first n headers that names section k, or -1. */
  function LastHeader(headers: seq<RelocHeader>, k: nat, n: nat): (l: int)
    requires n <= |headers|
    ensures -1 <= l < n
    ensures l >= 0 ==> headers[l].sectionIndex == k
    ensures forall i :: l < i < n ==> headers[i].sectionIndex != k
  {
    if n == 0 then -1 else if headers[n - 1].sectionIndex == k then n - 1 else LastHeader(headers, k, n - 1)
  }

  function Latest(c: Container, h: nat): (l: nat)
    requires h < |c.headers|
    ensures h <= l < |c.headers| && c.headers[l].sectionIndex == c.headers[h].sectionIndex
    ensures forall i :: l < i < |c.headers| ==> c.headers[i].sectionIndex != c.headers[h].sectionIndex
  {
    LastHeader(c.headers, c.headers[h].sectionIndex, |c.headers|)
  }

  /** With these relocation streams, if header h and the last header for its section apply, the section
      ends as h left it. */
  ghost predicate Survives(c: Container, h: nat, loader: seq<Byte>)
    requires h < |c.headers| && c.headers[h].sectionIndex < |c.sections|
  {
    var d := c.(loader := loader);
    Applies(d, h) && Applies(d, Latest(c, h)) ==>
      FinalImage(d, c.headers[h].sectionIndex, |c.headers|) == Applied(d, h)
  }

  function StreamStart(c: Container, h: nat): nat
    requires h < |c.headers|
  {
    c.relocInstrOffset + c.headers[h].first
  }

  function StreamEnd(c: Container, h: nat): nat
    requires h < |c.headers|
  {
    StreamStart(c, h) + c.headers[h].blocks * 2
  }

  /** The section can be relocated at all: its image exists and has room for a word, and adding the
      initial C to a word shows. */
  ghost predicate Relocatable(c: Container, k: nat) {
    k < |c.sections| && SectionImage(c, k).Good? && c.sections[k].totalSize >= 4 && InitialC(c) % TWO32 != 0
  }

  /** The streams of h and l are not both read from the same bytes, and h's is not empty. */
  ghost predicate StreamsApart(c: Container, h: nat, l: nat)
    requires h < |c.headers| && l < |c.headers|
  {
    c.headers[h].blocks > 0 && (StreamEnd(c, h) <= StreamStart(c, l) || StreamEnd(c, l) <= StreamStart(c, h))
  }

  /** A loader section in which header h adds C once, and everything else is zero. */
  function OneAddLoader(c: Container, h: nat, l: nat): (loader: seq<Byte>)
    requires h < |c.headers| && l < |c.headers| && StreamsApart(c, h, l)
    ensures |loader| == StreamEnd(c, h) + StreamEnd(c, l)
    ensures forall i :: 0 <= i < |loader| ==> loader[i] == if i == StreamStart(c, h) then 0x40 else 0
  {
    Splice(Zeros(StreamEnd(c, h) + StreamEnd(c, l)), StreamStart(c, h), [0x40])
  }

  lemma {:induction false} HalfValue(stream: seq<Byte>, k: nat)
    requires 2 * k + 1 < |stream|
    ensures var high: int, low: int := stream[2 * k], stream[2 * k + 1]; M.Half(stream, k) as int == 0x100 * high + low
  {
    var s := stream[2 * k..2 * k + 2];
    assert s[..1] == [stream[2 * k]] && s[..1][..0] == [];
    assert Be(s[..1]) == stream[2 * k];
  }

  /** Header h's stream is one add of C. */
  ghost predicate AddsOnce(d: Container, h: nat) {
    h < |d.headers| && RelocStream(d, h).Good? && |RelocStream(d, h).bytes| % 2 == 0 &&
    var words := M.Words(RelocStream(d, h).bytes);
    words != [] && words[0] == 0x4000 && QuietFrom(words, 1)
  }

  /** Header h's stream does nothing. */
  ghost predicate AddsNothing(d: Container, h: nat) {
    h < |d.headers| && RelocStream(d, h).Good? && |RelocStream(d, h).bytes| % 2 == 0 &&
    QuietFrom(M.Words(RelocStream(d, h).bytes), 0)
  }

  /** Header h's stream lies in the loader section, and word j of it is the two bytes there. */
  lemma {:induction false} StreamWord(d: Container, h: nat, j: nat)
    requires h < |d.headers| && StreamEnd(d, h) <= |d.loader| && j < d.headers[h].blocks
    ensures RelocStream(d, h).Good? && |RelocStream(d, h).bytes| == 2 * d.headers[h].blocks
    ensures var high: int, low: int := d.loader[StreamStart(d, h) + 2 * j], d.loader[StreamStart(d, h) + 2 * j + 1];
            M.Words(RelocStream(d, h).bytes)[j] as int == 0x100 * high + low
  {
    var bytes := RelocStream(d, h).bytes;
    HalfValue(bytes, j);
    hide M.Half;
    assert bytes[2 * j] == d.loader[StreamStart(d, h) + 2 * j];
    assert bytes[2 * j + 1] == d.loader[StreamStart(d, h) + (2 * j + 1)];
  }

  /** The two streams in that loader section. */
  lemma {:induction false} OneAddWords(c: Container, h: nat, l: nat, d: Container)
    requires h < |c.headers| && l < |c.headers| && StreamsApart(c, h, l) && d == c.(loader := OneAddLoader(c, h, l))
    ensures AddsOnce(d, h) && AddsNothing(d, l)
  {
    hide M.Words, RelocStream, OneAddLoader;
    forall j: nat | j < c.headers[h].blocks
      ensures RelocStream(d, h).Good? && |RelocStream(d, h).bytes| == 2 * c.headers[h].blocks
      ensures M.Words(RelocStream(d, h).bytes)[j] == if j == 0 then 0x4000 else 0
    {
      StreamWord(d, h, j);
    }
    StreamWord(d, h, 0);
    QuietStream(c, h, l, d);
  }

  lemma {:induction false} QuietStream(c: Container, h: nat, l: nat, d: Container)
    requires h < |c.headers| && l < |c.headers| && StreamsApart(c, h, l) && d == c.(loader := OneAddLoader(c, h, l))
    ensures AddsNothing(d, l)
  {
    hide M.Words, OneAddLoader;
    forall j: nat | j < c.headers[l].blocks
      ensures M.Words(RelocStream(d, l).bytes)[j] == 0
    {
      StreamWord(d, l, j);
    }
  }

  lemma {:induction false} SameImage(c: Container, loader: seq<Byte>, k: nat)
    requires k < |c.sections|
    ensures SectionImage(c.(loader := loader), k) == SectionImage(c, k)
    ensures InitialC(c.(loader := loader)) == InitialC(c)
    ensures Relocatable(c.(loader := loader), k) <==> Relocatable(c, k)
  {
  }

  /** Among the headers for one section, the result of h survives, whatever the streams say, if and only
      if h is the last of them. */
  lemma {:induction false} SurvivesIffLast(c: Container, h: nat)
    requires h < |c.headers| && Relocatable(c, c.headers[h].sectionIndex)
    requires Latest(c, h) != h ==> StreamsApart(c, h, Latest(c, h))
    ensures (forall loader :: Survives(c, h, loader)) <==> Latest(c, h) == h
  {
    hide OneAddLoader, Applies, Applied, Image, FinalImage, AddAt, InitialC, SectionImage;
    var k, l := c.headers[h].sectionIndex, Latest(c, h);
    if l == h {
      forall loader ensures Survives(c, h, loader) {
        LastHeaderDecides(c.(loader := loader), k, h, |c.headers|);
      }
    } else {
      var loader := OneAddLoader(c, h, l);
      var d := c.(loader := loader);
      BothApply(c, h, l, k, d);
      HeaderIsLost(d, h, l, k);
      assert !Survives(c, h, loader);
    }
  }

  lemma {:induction false} AddingApplies(d: Container, h: nat, k: nat)
    requires h < |d.headers| && k == d.headers[h].sectionIndex && Relocatable(d, k)
    requires AddsOnce(d, h)
    ensures Applies(d, h) && |Image(d, k)| >= 4
    ensures Applied(d, h) == AddAt(Image(d, k), 0, InitialC(d))
  {
    hide SectionImage, RelocStream, InitialC, InitialD, Relocate, Tables, AddAt;
    OneAddRelocates(M.Words(RelocStream(d, h).bytes), Tables(d), Image(d, k), InitialC(d), InitialD(d));
  }

  lemma {:induction false} QuietApplies(d: Container, h: nat, k: nat)
    requires h < |d.headers| && k == d.headers[h].sectionIndex && Relocatable(d, k)
    requires AddsNothing(d, h)
    ensures Applies(d, h) && Applied(d, h) == Image(d, k)
  {
    hide SectionImage, RelocStream, InitialC, InitialD, Relocate, Tables;
    QuietRelocates(M.Words(RelocStream(d, h).bytes), Tables(d), Image(d, k), InitialC(d), InitialD(d));
  }

  /** Where h adds something and the last header adds nothing, the section ends without what h added. */
  lemma {:induction false} HeaderIsLost(d: Container, h: nat, l: nat, k: nat)
    requires h < |d.headers| && k == d.headers[h].sectionIndex && Relocatable(d, k) && l == Latest(d, h)
    requires Applies(d, h) && |Image(d, k)| >= 4 && Applied(d, h) == AddAt(Image(d, k), 0, InitialC(d))
    requires Applies(d, l) && Applied(d, l) == Image(d, k)
    ensures FinalImage(d, k, |d.headers|) == Image(d, k) != Applied(d, h)
  {
    hide Applies, Applied, Image, FinalImage, AddAt, SectionImage, InitialC;
    AddShows(Image(d, k), InitialC(d));
    LastHeaderDecides(d, k, l, |d.headers|);
  }

  /** With the loader section above, both headers apply. */
  lemma {:induction false} BothApply(c: Container, h: nat, l: nat, k: nat, d: Container)
    requires h < |c.headers| && k == c.headers[h].sectionIndex && Relocatable(c, k)
    requires l < |c.headers| && c.headers[l].sectionIndex == k
    requires StreamsApart(c, h, l) && d == c.(loader := OneAddLoader(c, h, l))
    ensures Relocatable(d, k)
    ensures Applies(d, h) && |Image(d, k)| >= 4 && Applied(d, h) == AddAt(Image(d, k), 0, InitialC(d))
    ensures Applies(d, l) && Applied(d, l) == Image(d, k)
  {
    SameImage(c, d.loader, k);
    OneAddWords(c, h, l, d);
    hide SectionImage, RelocStream, InitialC, AddAt, OneAddLoader, StreamsApart, Applies, Applied, Image, QuietFrom;
    hide AddsOnce, AddsNothing;
    AddingApplies(d, h, k);
    QuietApplies(d, l, k);
  }

  /** An instance: two headers for one section of zeros, the first adding C, the second nothing. */
  lemma {:induction false} FirstHeaderIsLost()
    ensures var c := Container([0, 0, 0, 0], [Section(Code, 0, 4, 4, 4, 0)], [0x40, 0, 0, 0, 0, 0], 0, [],
                               [RelocHeader(0, 1, 0), RelocHeader(0, 1, 2)]);
            Applies(c, 0) && Applies(c, 1) && FinalImage(c, 0, 2) == [0, 0, 0, 0] != Applied(c, 0)
  {
    var c := Container([0, 0, 0, 0], [Section(Code, 0, 4, 4, 4, 0)], [0x40, 0, 0, 0, 0, 0], 0, [],
                       [RelocHeader(0, 1, 0), RelocHeader(0, 1, 2)]);
    assert SectionImage(c, 0) == Good([0, 0, 0, 0]);
    assert InitialC(c) == SECTION_BASE;
    assert Latest(c, 0) == 1;
    assert OneAddLoader(c, 0, 1) == c.loader;
    BothApply(c, 0, 1, 0, c);
    HeaderIsLost(c, 0, 1, 0);
  }
}
