/** Placing and relocating a PEF fragment in guest memory (src/cwhost/loader.py). */
module Loader {
  import opened Bytes
  import opened Pef
  import opened RelocationMeaning
  import opened Patches
  import opened RelocationTheorems
  import opened Wrappers
  import R = Relocation
  import M = RelocationMachine
  import G = Guest

  const SECTION_BASE := 0x1000_0000
  const SECTION_STRIDE := 0x0100_0000
  const IMAGE_BASE := 0x0F00_0000
  const DESCRIPTOR_BASE := 0x2900_0000

  datatype LoadError =
    | UnimplementedImport
    | BadContainer(error: Pef.Error)
    | GuestRefused
    | NoSuchSection
    | BadRelocation(cause: R.Error)

  function SectionBase(k: nat): nat {
    SECTION_BASE + SECTION_STRIDE * k
  }

  function Descriptor(i: nat): nat {
    DESCRIPTOR_BASE + 8 * i
  }

  function Tables(c: Container): Env {
    Env(seq(|c.sections|, k requires 0 <= k < |c.sections| => SectionBase(k) - c.sections[k].defaultAddress),
        seq(|c.imports|, i => if i < 0 then 0 else Descriptor(i)))
  }

  function InitialC(c: Container): int {
    if |c.sections| > 0 then Tables(c).deltas[0] else 0
  }

  function InitialD(c: Container): int {
    if |c.sections| > 1 then Tables(c).deltas[1] else 0
  }

  /** Header h can be applied: its section and stream exist and relocation succeeds. */
  predicate Applies(c: Container, h: nat)
    requires h < |c.headers|
  {
    c.headers[h].sectionIndex < |c.sections| &&
    SectionImage(c, c.headers[h].sectionIndex).Good? &&
    RelocStream(c, h).Good? && |RelocStream(c, h).bytes| % 2 == 0 &&
    RelocateHeader(c, h).Done?
  }

  /** Header h applied to the unrelocated image of its section. */
  function RelocateHeader(c: Container, h: nat): Outcome
    requires h < |c.headers| && c.headers[h].sectionIndex < |c.sections|
    requires SectionImage(c, c.headers[h].sectionIndex).Good?
    requires RelocStream(c, h).Good? && |RelocStream(c, h).bytes| % 2 == 0
  {
    Relocate(M.Words(RelocStream(c, h).bytes), Tables(c), SectionImage(c, c.headers[h].sectionIndex).bytes,
             InitialC(c), InitialD(c))
  }

  /** The bytes header h leaves in its section. */
  function Applied(c: Container, h: nat): seq<Byte>
    requires h < |c.headers|
  {
    if Applies(c, h) then RelocateHeader(c, h).st.section else []
  }

  function Image(c: Container, k: nat): seq<Byte>
    requires k < |c.sections|
  {
    match SectionImage(c, k) case Good(bytes) => bytes case Failed(_) => []
  }

  /** The bytes of section k once the first n headers have been applied. Each header starts from
      the unrelocated image, so the last one for a section is the one that counts. */
  function FinalImage(c: Container, k: nat, n: nat): (r: seq<Byte>)
    requires k < |c.sections| && n <= |c.headers|
    decreases n
  {
    if n == 0 then Image(c, k)
    else if c.headers[n - 1].sectionIndex == k then Applied(c, n - 1)
    else FinalImage(c, k, n - 1)
  }

  lemma {:induction false} FoldKeepsLength(env: Env, ops: seq<Op>, st: State)
    ensures |Fold(env, ops, st).st.section| == |st.section|
  {
    SectionIsItsAdds(env, ops, st);
  }

  lemma {:induction false} AppliedLength(c: Container, h: nat)
    requires h < |c.headers| && Applies(c, h)
    ensures c.headers[h].sectionIndex < |c.sections|
    ensures |Applied(c, h)| == c.sections[c.headers[h].sectionIndex].totalSize
  {
    FoldKeepsLength(Tables(c), Program(M.Words(RelocStream(c, h).bytes)),
                    State(SectionImage(c, c.headers[h].sectionIndex).bytes, 0, 0, InitialC(c), InitialD(c)));
  }

  /** With one header for section k, that header decides. */
  lemma {:induction false} LastHeaderDecides(c: Container, k: nat, h: nat, n: nat)
    requires k < |c.sections| && h < n <= |c.headers|
    requires c.headers[h].sectionIndex == k
    requires forall i :: h < i < n ==> c.headers[i].sectionIndex != k
    ensures FinalImage(c, k, n) == Applied(c, h)
    decreases n
  {
    hide Applied, Image;
    if n - 1 > h {
      LastHeaderDecides(c, k, h, n - 1);
    }
  }

  // ----- the room a load needs

  datatype Region = Region(addr: int, size: int)

  ghost function PagesOf(r: Region): set<int> {
    G.Pages(r.addr, r.size)
  }

  ghost predicate Fits(keys: set<int>, r: Region) {
    G.PageEnd(r.addr + r.size) <= TWO32 && keys !! PagesOf(r)
  }

  /** The pages of all regions are free, below 2^32 and apart from each other. */
  ghost predicate Room(keys: set<int>, rs: seq<Region>) {
    (forall i :: 0 <= i < |rs| ==> Fits(keys, rs[i])) &&
    (forall i, j :: 0 <= i < j < |rs| ==> PagesOf(rs[i]) !! PagesOf(rs[j]))
  }

  /** What is mapped once all regions are. */
  ghost function Taken(keys: set<int>, rs: seq<Region>): set<int> {
    if rs == [] then keys else Taken(keys, rs[..|rs| - 1]) + PagesOf(rs[|rs| - 1])
  }

  lemma {:induction false} TakenApart(keys: set<int>, rs: seq<Region>, r: Region)
    ensures Taken(keys, rs) !! PagesOf(r) <==>
            keys !! PagesOf(r) && forall i :: 0 <= i < |rs| ==> PagesOf(rs[i]) !! PagesOf(r)
    decreases |rs|
  {
    hide PagesOf;
    if rs != [] {
      TakenApart(keys, rs[..|rs| - 1], r);
      assert forall i :: 0 <= i < |rs| - 1 ==> rs[..|rs| - 1][i] == rs[i];
    }
  }

  lemma {:induction false} RoomNext(keys: set<int>, rs: seq<Region>, r: Region)
    ensures Room(keys, rs + [r]) <==> Room(keys, rs) && Fits(Taken(keys, rs), r)
    ensures Taken(keys, rs + [r]) == Taken(keys, rs) + PagesOf(r)
  {
    hide PagesOf, G.PageEnd;
    var more := rs + [r];
    assert more[..|rs|] == rs;
    TakenApart(keys, rs, r);
    assert forall i :: 0 <= i < |rs| ==> more[i] == rs[i];
    if Room(keys, more) {
      assert Fits(keys, more[|rs|]);
      assert forall i :: 0 <= i < |rs| ==> PagesOf(more[i]) !! PagesOf(more[|rs|]);
    }
  }

  lemma {:induction false} RoomPrefix(keys: set<int>, rs: seq<Region>, more: seq<Region>)
    requires rs <= more && Room(keys, more)
    ensures Room(keys, rs)
  {
    assert forall i :: 0 <= i < |rs| ==> rs[i] == more[i];
  }

  /** The ranges of the first n sections that are not empty. */
  function SectionRegions(c: Container, n: nat): seq<Region>
    requires n <= |c.sections|
  {
    if n == 0 then []
    else
      var size := c.sections[n - 1].totalSize;
      SectionRegions(c, n - 1) + if size == 0 then [] else [Region(SectionBase(n - 1), size)]
  }

  function ImageRegion(c: Container): Region {
    Region(IMAGE_BASE, if |c.data| > 0 then |c.data| else 1)
  }

  function DescriptorRegions(c: Container): seq<Region> {
    if |c.imports| == 0 then [] else [Region(DESCRIPTOR_BASE, |c.imports| * 8)]
  }

  /** Everything a load maps, in order. */
  function Regions(c: Container): seq<Region> {
    SectionRegions(c, |c.sections|) + [ImageRegion(c)] + DescriptorRegions(c)
  }

  lemma {:induction false} SectionRegionsGrow(c: Container, m: nat, n: nat)
    requires m <= n <= |c.sections|
    ensures SectionRegions(c, m) <= SectionRegions(c, n)
    decreases n
  {
    if m < n {
      SectionRegionsGrow(c, m, n - 1);
    }
  }

  ghost predicate Bound(c: Container, slots: map<string, int>) {
    forall i :: i in c.imports ==> i.weak || i.name in slots
  }

  ghost predicate ImagesGood(c: Container, n: nat)
    requires n <= |c.sections|
  {
    forall k :: 0 <= k < n && c.sections[k].totalSize > 0 ==> SectionImage(c, k).Good?
  }

  ghost predicate HeadersApply(c: Container, n: nat)
    requires n <= |c.headers|
  {
    forall h :: 0 <= h < n ==> Applies(c, h)
  }

  /** When a load succeeds: every strong import is bound, every section has an image, what is to be
      mapped has room, and every header applies. */
  ghost predicate Loadable(keys: set<int>, c: Container, slots: map<string, int>) {
    Bound(c, slots) && ImagesGood(c, |c.sections|) && Room(keys, Regions(c)) && HeadersApply(c, |c.headers|)
  }

  /** The first m sections are mapped, and could be. */
  ghost predicate Mapping(start: set<int>, keys: set<int>, c: Container, m: nat)
    requires m <= |c.sections|
  {
    keys == Taken(start, SectionRegions(c, m)) && Room(start, SectionRegions(c, m)) && ImagesGood(c, m)
  }

  lemma {:induction false} MappingStarts(start: set<int>, c: Container)
    ensures Mapping(start, start, c, 0)
  {
  }

  /** The next section goes on the way to a load, or stops it for good. */
  lemma {:induction false} MappingNext(start: set<int>, before: set<int>, after: set<int>, c: Container, m: nat,
                                       slots: map<string, int>, ok: bool)
    requires m < |c.sections| && Mapping(start, before, c, m)
    requires var r := Region(SectionBase(m), c.sections[m].totalSize);
             (ok <==> r.size == 0 || (SectionImage(c, m).Good? && Fits(before, r))) &&
             (ok ==> after == before + if r.size == 0 then {} else PagesOf(r))
    ensures ok ==> Mapping(start, after, c, m + 1)
    ensures !ok ==> !Loadable(start, c, slots)
  {
    hide Taken, Room, Fits, PagesOf, SectionImage, HeadersApply, Bound;
    var rs, r := SectionRegions(c, m), Region(SectionBase(m), c.sections[m].totalSize);
    if r.size == 0 {
      assert SectionRegions(c, m + 1) == rs;
    } else {
      RoomNext(start, rs, r);
      assert SectionRegions(c, m + 1) == rs + [r];
      SectionRegionsGrow(c, m + 1, |c.sections|);
      if Room(start, Regions(c)) { RoomPrefix(start, rs + [r], Regions(c)); }
    }
  }

  /** The same for the container image and the descriptors. */
  lemma {:induction false} TablesNext(start: set<int>, keys: set<int>, c: Container, ok: bool)
    requires Mapping(start, keys, c, |c.sections|)
    requires ok <==> TablesFit(keys, c)
    ensures ok <==> Room(start, Regions(c))
  {
    hide Taken, Room, Fits, PagesOf;
    var rs, image := SectionRegions(c, |c.sections|), ImageRegion(c);
    RoomNext(start, rs, image);
    if |c.imports| == 0 {
      assert Regions(c) == rs + [image];
    } else {
      RoomNext(start, rs + [image], DescriptorRegions(c)[0]);
      assert Regions(c) == rs + [image] + [DescriptorRegions(c)[0]];
    }
  }

  ghost predicate TablesFit(keys: set<int>, c: Container) {
    Fits(keys, ImageRegion(c)) &&
    (|c.imports| > 0 ==> Fits(keys + PagesOf(ImageRegion(c)), DescriptorRegions(c)[0]))
  }

  // ----- the load itself

  /** What was in memory still is. */
  ghost predicate Kept(before: G.Memory, after: G.Memory) {
    forall x :: x in before ==> x in after && after[x] == before[x]
  }

  ghost predicate InSections(c: Container, x: int) {
    exists k :: 0 <= k < |c.sections| && SectionBase(k) <= x < SectionBase(k) + c.sections[k].totalSize
  }

  /** The container's bytes. */
  ghost predicate ImagePlaced(mem: G.Memory, c: Container) {
    G.Mapped(mem, 0x0F00_0000, |c.data|) && G.Load(mem, 0x0F00_0000, |c.data|) == c.data
  }

  /** Only bytes of sections have changed. */
  ghost predicate KeptOutside(c: Container, before: G.Memory, after: G.Memory) {
    after.Keys == before.Keys && forall x :: x in before && !InSections(c, x) ==> after[x] == before[x]
  }

  /** Nothing of a section was mapped before the load, nor is it where the container is. */
  lemma {:induction false} SectionsFresh(start: set<int>, c: Container, x: int)
    requires Room(start, Regions(c)) && InSections(c, x)
    ensures x !in start && !(0x0F00_0000 <= x < 0x0F00_0000 + |c.data|)
  {
    var k :| 0 <= k < |c.sections| && SectionBase(k) <= x < SectionBase(k) + c.sections[k].totalSize;
    var r, image := Region(SectionBase(k), c.sections[k].totalSize), ImageRegion(c);
    var rs := SectionRegions(c, |c.sections|);
    var i := RegionOf(c, |c.sections|, k);
    assert Regions(c)[i] == r && Regions(c)[|rs|] == image;
    hide Regions, SectionRegions;
    G.PagesCover(r.addr, r.size);
    G.PagesCover(image.addr, image.size);
    assert Fits(start, Regions(c)[i]);
    assert x in PagesOf(r) && PagesOf(Regions(c)[i]) !! PagesOf(Regions(c)[|rs|]);
  }

  lemma {:induction false} RegionOf(c: Container, n: nat, k: nat) returns (i: nat)
    requires k < n <= |c.sections| && c.sections[k].totalSize > 0
    ensures i < |SectionRegions(c, n)| && SectionRegions(c, n)[i] == Region(SectionBase(k), c.sections[k].totalSize)
    decreases n
  {
    if k == n - 1 {
      i := |SectionRegions(c, n - 1)|;
    } else {
      i := RegionOf(c, n - 1, k);
    }
  }

  /** So a load keeps what was in memory, and the container stays. */
  lemma {:induction false} LoadKeeps(start: G.Memory, placed: G.Memory, after: G.Memory, c: Container)
    requires Room(start.Keys, Regions(c)) && Kept(start, placed) && ImagePlaced(placed, c)
    requires KeptOutside(c, placed, after)
    ensures Kept(start, after) && ImagePlaced(after, c)
  {
    hide Room, Regions, InSections;
    forall x | x in start ensures x in after && after[x] == start[x] {
      if InSections(c, x) { SectionsFresh(start.Keys, c, x); }
    }
    forall x | 0x0F00_0000 <= x < 0x0F00_0000 + |c.data| ensures x in after && after[x] == placed[x] {
      if InSections(c, x) { SectionsFresh(start.Keys, c, x); }
    }
  }

  ghost predicate PlacedSection(mem: G.Memory, c: Container, k: nat, n: nat)
    requires k < |c.sections| && n <= |c.headers|
  {
    c.sections[k].totalSize > 0 ==>
      SectionImage(c, k).Good? && G.Mapped(mem, SectionBase(k), c.sections[k].totalSize) &&
      SectionBase(k) + c.sections[k].totalSize <= TWO32 &&
      G.Load(mem, SectionBase(k), c.sections[k].totalSize) == FinalImage(c, k, n)
  }

  /** The first m sections hold what n headers make of them, in ranges that do not meet. */
  ghost predicate Placed(mem: G.Memory, c: Container, m: nat, n: nat)
    requires m <= |c.sections| && n <= |c.headers|
  {
    (forall k :: 0 <= k < m ==> PlacedSection(mem, c, k, n)) &&
    (forall j, k :: 0 <= j < k < m && c.sections[j].totalSize > 0 && c.sections[k].totalSize > 0 ==>
       SectionBase(j) + c.sections[j].totalSize <= SectionBase(k))
  }

  /** Growing the mapped memory, or writing outside the sections, keeps them in place. */
  lemma {:induction false} PlacedFrame(old_: G.Memory, new_: G.Memory, c: Container, m: nat, n: nat)
    requires m <= |c.sections| && n <= |c.headers|
    requires Placed(old_, c, m, n)
    requires forall x :: x in old_ ==> x in new_ && new_[x] == old_[x]
    ensures Placed(new_, c, m, n)
  {
    forall k | 0 <= k < m ensures PlacedSection(new_, c, k, n) {
      if c.sections[k].totalSize > 0 {
        assert PlacedSection(old_, c, k, n);
        var base, size := SectionBase(k), c.sections[k].totalSize;
        assert G.Load(new_, base, size) == G.Load(old_, base, size);
      }
    }
  }

  /** Mapping a region gives its addresses, and a store in them keeps what was there before. */
  lemma {:induction false} MappedApart(before: G.Memory, mapped: G.Memory, r: Region, data: seq<Byte>)
    requires before.Keys !! PagesOf(r) && mapped.Keys == before.Keys + PagesOf(r) && |data| <= r.size
    requires forall x :: x in before ==> mapped[x] == before[x]
    ensures G.Mapped(mapped, r.addr, r.size) && forall x :: r.addr <= x < r.addr + r.size ==> x !in before
    ensures forall x :: x in before ==>
              x in G.Store(mapped, r.addr, data) && G.Store(mapped, r.addr, data)[x] == before[x]
  {
    G.PagesCover(r.addr, r.size);
    assert forall x :: r.addr <= x < r.addr + r.size ==> x in PagesOf(r);
    assert forall x :: x in PagesOf(r) ==> x in mapped.Keys && x !in before.Keys;
  }

  method PlaceSection(guest: G.Guest, c: Container, k: nat) returns (error: Option<LoadError>)
    requires k < |c.sections| && Placed(guest.mem, c, k, 0)
    modifies guest
    ensures error.None? ==> Placed(guest.mem, c, k + 1, 0)
    ensures error != Some(UnimplementedImport)
    ensures var r := Region(SectionBase(k), c.sections[k].totalSize);
            (error.None? <==> r.size == 0 || (SectionImage(c, k).Good? && Fits(old(guest.mem).Keys, r))) &&
            (error.None? ==> guest.mem.Keys == old(guest.mem).Keys + if r.size == 0 then {} else PagesOf(r))
    ensures error.None? ==> Kept(old(guest.mem), guest.mem)
  {
    hide SectionImage, Placed, FinalImage, G.PageEnd, PagesOf;
    var base, size := SectionBase(k), c.sections[k].totalSize;
    ghost var before, r := guest.mem, Region(base, size);
    if size == 0 {
      PlacedNext(before, before, c, k);
      return None;
    }
    assert PagesOf(r) == G.Pages(base, size) by { PagesAre(r); }
    var ok := guest.Map(base, size);
    if !ok {
      return Some(GuestRefused);
    }
    ghost var mapped := guest.mem;
    var image := SectionImage(c, k);
    if image.Failed? {
      return Some(BadContainer(image.error));
    }
    MappedApart(before, mapped, r, image.bytes);
    SectionBelow(k, size);
    ok := guest.Write(base, image.bytes);
    assert ok;
    G.LoadStored(mapped, base, image.bytes);
    PlacedNext(before, guest.mem, c, k);
    return None;
  }

  lemma {:induction false} PagesAre(r: Region)
    ensures PagesOf(r) == G.Pages(r.addr, r.size)
  {
  }

  lemma {:induction false} SectionBelow(k: nat, size: nat)
    requires size > 0 && G.PageEnd(SectionBase(k) + size) <= TWO32
    ensures SectionBase(k) + size <= TWO32 && SectionBase(k) % TWO32 == SectionBase(k)
  {
    G.PagesCover(SectionBase(k), size);
  }

  lemma {:induction false} PlacedNext(before: G.Memory, after: G.Memory, c: Container, k: nat)
    requires k < |c.sections| && Placed(before, c, k, 0)
    requires forall x :: x in before ==> x in after && after[x] == before[x]
    requires c.sections[k].totalSize > 0 ==>
               SectionBase(k) !in before && SectionImage(c, k).Good? &&
               G.Mapped(after, SectionBase(k), c.sections[k].totalSize) &&
               SectionBase(k) + c.sections[k].totalSize <= TWO32 &&
               G.Load(after, SectionBase(k), c.sections[k].totalSize) == SectionImage(c, k).bytes
    ensures Placed(after, c, k + 1, 0)
  {
    hide SectionImage;
    PlacedFrame(before, after, c, k, 0);
    assert PlacedSection(after, c, k, 0);
    forall j | 0 <= j < k && c.sections[j].totalSize > 0 && c.sections[k].totalSize > 0
      ensures SectionBase(j) + c.sections[j].totalSize <= SectionBase(k)
    {
      assert PlacedSection(before, c, j, 0) && G.Mapped(before, SectionBase(j), c.sections[j].totalSize);
    }
  }

  /** The descriptors lie outside every section. */
  ghost predicate DescriptorsApart(c: Container) {
    forall k, i :: 0 <= k < |c.sections| && c.sections[k].totalSize > 0 && 0 <= i < |c.imports| ==>
      Descriptor(i) + 8 <= SectionBase(k) || SectionBase(k) + c.sections[k].totalSize <= Descriptor(i)
  }

  lemma {:induction false} DescriptorsAreApart(before: G.Memory, c: Container)
    requires Placed(before, c, |c.sections|, 0)
    requires forall x :: DESCRIPTOR_BASE <= x < DESCRIPTOR_BASE + |c.imports| * 8 ==> x !in before
    ensures DescriptorsApart(c)
  {
    forall k, i | 0 <= k < |c.sections| && c.sections[k].totalSize > 0 && 0 <= i < |c.imports|
      ensures Descriptor(i) + 8 <= SectionBase(k) || SectionBase(k) + c.sections[k].totalSize <= Descriptor(i)
    {
      assert PlacedSection(before, c, k, 0);
      var base, size := SectionBase(k), c.sections[k].totalSize;
      assert G.Mapped(before, base, size);
      var x := if base <= Descriptor(i) then Descriptor(i) else base;
      assert base <= x < base + size ==> x in before;
      assert Descriptor(i) <= x < Descriptor(i) + 8 ==> x !in before;
    }
  }

  /** Map the container and write it. */
  method PlaceImage(guest: G.Guest, c: Container) returns (ok: bool)
    modifies guest
    ensures ok <==> Fits(old(guest.mem).Keys, ImageRegion(c))
    ensures ok ==> guest.mem.Keys == old(guest.mem).Keys + PagesOf(ImageRegion(c))
    ensures ok ==> Kept(old(guest.mem), guest.mem) && ImagePlaced(guest.mem, c)
  {
    hide PagesOf, G.PageEnd;
    ghost var before, image := guest.mem, ImageRegion(c);
    PagesAre(image);
    var size := if |c.data| > 0 then |c.data| else 1;
    ok := guest.Map(IMAGE_BASE, size);
    if !ok {
      return;
    }
    ghost var mapped := guest.mem;
    MappedApart(before, mapped, image, c.data);
    ok := guest.Write(IMAGE_BASE, c.data);
    assert ok;
    G.LoadStored(mapped, IMAGE_BASE, c.data);
  }

  /** The container, then the import descriptors. */
  method PlaceTables(guest: G.Guest, c: Container, slots: map<string, int>) returns (error: Option<LoadError>)
    requires Placed(guest.mem, c, |c.sections|, 0)
    modifies guest
    ensures error.None? ==> Placed(guest.mem, c, |c.sections|, 0)
    ensures error.None? ==> DescriptorsPlaced(guest.mem, c, slots, |c.imports|) && DescriptorsApart(c)
    ensures error != Some(UnimplementedImport)
    ensures error.None? <==> TablesFit(old(guest.mem).Keys, c)
    ensures error.None? ==> Kept(old(guest.mem), guest.mem) && ImagePlaced(guest.mem, c)
  {
    hide Placed, DescriptorsPlaced, DescriptorsApart, PagesOf, Fits, Kept, ImagePlaced;
    ghost var before := guest.mem;
    var ok := PlaceImage(guest, c);
    if !ok {
      return Some(GuestRefused);
    }
    ghost var placed := guest.mem;
    PlacedStays(before, placed, c);
    if |c.imports| == 0 {
      assert DescriptorsPlaced(guest.mem, c, slots, 0) && DescriptorsApart(c) by { NoDescriptors(guest.mem, c, slots); }
      return None;
    }
    error := PlaceDescriptors(guest, c, slots);
    if error.None? {
      ImageKept(placed, guest.mem, c);
      KeptChain(before, placed, guest.mem);
    }
  }

  lemma {:induction false} PlacedStays(before: G.Memory, after: G.Memory, c: Container)
    requires Placed(before, c, |c.sections|, 0) && Kept(before, after)
    ensures Placed(after, c, |c.sections|, 0)
  {
    PlacedFrame(before, after, c, |c.sections|, 0);
  }

  lemma {:induction false} ImageKept(before: G.Memory, after: G.Memory, c: Container)
    requires ImagePlaced(before, c) && Kept(before, after)
    ensures ImagePlaced(after, c)
  {
  }

  method PlaceDescriptors(guest: G.Guest, c: Container, slots: map<string, int>) returns (error: Option<LoadError>)
    requires |c.imports| > 0 && Placed(guest.mem, c, |c.sections|, 0)
    modifies guest
    ensures error.None? ==> Placed(guest.mem, c, |c.sections|, 0)
    ensures error.None? ==> DescriptorsPlaced(guest.mem, c, slots, |c.imports|) && DescriptorsApart(c)
    ensures error != Some(UnimplementedImport)
    ensures error.None? <==> Fits(old(guest.mem).Keys, Region(DESCRIPTOR_BASE, |c.imports| * 8))
    ensures error.None? ==> Kept(old(guest.mem), guest.mem)
  {
    hide Placed, DescriptorsPlaced, DescriptorsApart;
    ghost var before := guest.mem;
    ghost var r := Region(DESCRIPTOR_BASE, |c.imports| * 8);
    PagesAre(r);
    var ok := guest.Map(DESCRIPTOR_BASE, |c.imports| * 8);
    if !ok {
      return Some(GuestRefused);
    }
    ghost var mapped := guest.mem;
    MappedApart(before, mapped, r, []);
    G.PagesCover(DESCRIPTOR_BASE, |c.imports| * 8);
    DescriptorsAreApart(before, c);
    NoDescriptors(mapped, c, slots);
    var i := 0;
    while i < |c.imports|
      invariant i <= |c.imports|
      invariant guest.mem.Keys == mapped.Keys
      invariant forall x :: x in before ==> x in guest.mem && guest.mem[x] == before[x]
      invariant DescriptorsPlaced(guest.mem, c, slots, i)
    {
      assert forall x :: Descriptor(i) <= x < Descriptor(i) + 8 ==> x in mapped && x !in before;
      PlaceDescriptor(guest, c, slots, i, before);
      i := i + 1;
    }
    PlacedFrame(before, guest.mem, c, |c.sections|, 0);
    return None;
  }

  method PlaceDescriptor(guest: G.Guest, c: Container, slots: map<string, int>, i: nat, ghost before: G.Memory)
    requires i < |c.imports| && DescriptorsPlaced(guest.mem, c, slots, i)
    requires G.Mapped(guest.mem, Descriptor(i), 8) && Descriptor(i) + 8 <= TWO32
    requires forall x :: Descriptor(i) <= x < Descriptor(i) + 8 ==> x !in before
    requires forall x :: x in before ==> x in guest.mem && guest.mem[x] == before[x]
    modifies guest
    ensures guest.mem.Keys == old(guest.mem).Keys && DescriptorsPlaced(guest.mem, c, slots, i + 1)
    ensures forall x :: x in before ==> x in guest.mem && guest.mem[x] == before[x]
  {
    hide DescriptorsPlaced, ToBe, Slot;
    var pair := ToBe(Slot(slots, c.imports[i].name), 4) + ToBe(0, 4);
    ghost var was := guest.mem;
    var ok := guest.Write(Descriptor(i), pair);
    assert ok;
    DescriptorStored(was, c, slots, i);
    StoreFrame(before, was, Descriptor(i), pair);
  }

  /** A store outside `before` keeps `before` as it is. */
  lemma {:induction false} StoreFrame(before: G.Memory, mem: G.Memory, a: int, data: seq<Byte>)
    requires forall x :: x in before ==> x in mem && mem[x] == before[x]
    requires forall x :: a <= x < a + |data| ==> x !in before
    ensures forall x :: x in before ==> x in G.Store(mem, a, data) && G.Store(mem, a, data)[x] == before[x]
  {
  }

  lemma {:induction false} NoDescriptors(mem: G.Memory, c: Container, slots: map<string, int>)
    ensures DescriptorsPlaced(mem, c, slots, 0)
    ensures |c.imports| == 0 ==> DescriptorsApart(c)
  {
  }

  function Slot(slots: map<string, int>, name: string): int {
    if name in slots then slots[name] else 0
  }

  /** Descriptor i is the pair (slot of import i, 0). */
  ghost predicate DescriptorPlaced(mem: G.Memory, c: Container, slots: map<string, int>, i: nat)
    requires i < |c.imports|
  {
    G.Mapped(mem, Descriptor(i), 8) && Descriptor(i) + 8 <= TWO32 &&
    G.Load(mem, Descriptor(i), 8) == ToBe(Slot(slots, c.imports[i].name), 4) + ToBe(0, 4)
  }

  ghost predicate DescriptorsPlaced(mem: G.Memory, c: Container, slots: map<string, int>, n: nat)
    requires n <= |c.imports|
  {
    forall i :: 0 <= i < n ==> DescriptorPlaced(mem, c, slots, i)
  }

  lemma {:induction false} DescriptorStored(mem: G.Memory, c: Container, slots: map<string, int>, i: nat)
    requires i < |c.imports| && DescriptorsPlaced(mem, c, slots, i)
    requires G.Mapped(mem, Descriptor(i), 8) && Descriptor(i) + 8 <= TWO32
    ensures var pair := ToBe(Slot(slots, c.imports[i].name), 4) + ToBe(0, 4);
            DescriptorsPlaced(G.Store(mem, Descriptor(i), pair), c, slots, i + 1)
  {
    var pair := ToBe(Slot(slots, c.imports[i].name), 4) + ToBe(0, 4);
    G.LoadStored(mem, Descriptor(i), pair);
    forall j | 0 <= j < i ensures DescriptorPlaced(G.Store(mem, Descriptor(i), pair), c, slots, j) {
      assert DescriptorPlaced(mem, c, slots, j);
      G.LoadElsewhere(mem, Descriptor(i), pair, Descriptor(j), 8);
    }
  }

  /** Apply one relocation header to a fresh copy of its section's image. */
  method ApplyHeader(guest: G.Guest, c: Container, slots: map<string, int>, h: nat) returns (error: Option<LoadError>)
    requires h < |c.headers|
    requires Placed(guest.mem, c, |c.sections|, h) && DescriptorsPlaced(guest.mem, c, slots, |c.imports|)
    requires DescriptorsApart(c)
    modifies guest
    ensures error.None? ==> Applies(c, h) && Placed(guest.mem, c, |c.sections|, h + 1)
    ensures error.None? ==> DescriptorsPlaced(guest.mem, c, slots, |c.imports|)
    ensures error != Some(UnimplementedImport)
    ensures error.None? <==> Applies(c, h)
    ensures error.None? ==> KeptOutside(c, old(guest.mem), guest.mem)
  {
    hide Placed, DescriptorsPlaced, DescriptorsApart, SectionImage, FinalImage, RelocStream, Relocate, Tables;
    hide InitialC, InitialD, M.Words;
    var s := c.headers[h].sectionIndex;
    if s >= |c.sections| {
      return Some(NoSuchSection);
    }
    var image := SectionImage(c, s);
    if image.Failed? {
      return Some(BadContainer(image.error));
    }
    var stream := RelocStream(c, h);
    if stream.Failed? {
      return Some(BadContainer(stream.error));
    }
    var bytes := image.bytes;
    var target := new Byte[|bytes|](i requires 0 <= i < |bytes| => bytes[i]);
    assert target[..] == bytes;
    var cause := M.ApplyRelocations(target, stream.bytes, Tables(c), InitialC(c), InitialD(c));
    if cause.Some? {
      return Some(BadRelocation(cause.value));
    }
    assert Applies(c, h);
    AppliedLength(c, h);
    ghost var before := guest.mem;
    PlacedFits(before, c, s, h);
    var ok := guest.Write(SectionBase(s), target[..]);
    assert ok;
    if target.Length == 0 {
      assert guest.mem == before;
      PlacedAfterEmpty(before, c, s, h);
    } else {
      StoreOutside(before, c, s, target[..]);
      PlacedAfterStore(before, c, s, target[..], h);
      DescriptorsAfterStore(before, c, slots, s, target[..]);
    }
    return None;
  }

  lemma {:induction false} StoreOutside(mem: G.Memory, c: Container, s: nat, data: seq<Byte>)
    requires s < |c.sections| && |data| == c.sections[s].totalSize
    ensures KeptOutside(c, mem, G.Store(mem, SectionBase(s), data))
  {
  }

  lemma {:induction false} PlacedFits(mem: G.Memory, c: Container, s: nat, h: nat)
    requires s < |c.sections| && h <= |c.headers| && Placed(mem, c, |c.sections|, h)
    ensures c.sections[s].totalSize > 0 ==>
              SectionBase(s) < TWO32 && G.Mapped(mem, SectionBase(s), c.sections[s].totalSize)
  {
    assert PlacedSection(mem, c, s, h);
  }

  lemma {:induction false} PlacedAfterEmpty(mem: G.Memory, c: Container, s: nat, h: nat)
    requires s < |c.sections| && h < |c.headers| && c.headers[h].sectionIndex == s
    requires Placed(mem, c, |c.sections|, h) && c.sections[s].totalSize == 0
    ensures Placed(mem, c, |c.sections|, h + 1)
  {
    var n := h + 1;
    hide PlacedSection;
    forall k | 0 <= k < |c.sections| ensures PlacedSection(mem, c, k, n) {
      SectionAfterEmpty(mem, c, s, k, h);
    }
  }

  lemma {:induction false} PlacedAfterStore(mem: G.Memory, c: Container, s: nat, target: seq<Byte>, h: nat)
    requires s < |c.sections| && h < |c.headers| && c.headers[h].sectionIndex == s
    requires Placed(mem, c, |c.sections|, h)
    requires c.sections[s].totalSize > 0 && |target| == c.sections[s].totalSize && target == Applied(c, h)
    ensures Placed(G.Store(mem, SectionBase(s), target), c, |c.sections|, h + 1)
  {
    var after, n := G.Store(mem, SectionBase(s), target), h + 1;
    hide PlacedSection, Applied;
    forall k | 0 <= k < |c.sections| ensures PlacedSection(after, c, k, n) {
      SectionAfterStore(mem, c, s, target, k, h);
    }
  }

  lemma {:induction false} DescriptorsAfterStore(mem: G.Memory, c: Container, slots: map<string, int>, s: nat,
                                                 target: seq<Byte>)
    requires s < |c.sections| && DescriptorsPlaced(mem, c, slots, |c.imports|) && DescriptorsApart(c)
    requires |target| == c.sections[s].totalSize > 0
    ensures DescriptorsPlaced(G.Store(mem, SectionBase(s), target), c, slots, |c.imports|)
  {
    var after := G.Store(mem, SectionBase(s), target);
    forall i | 0 <= i < |c.imports| ensures DescriptorPlaced(after, c, slots, i) {
      DescriptorAfterStore(mem, c, slots, s, target, i);
    }
  }

  lemma {:induction false} DescriptorAfterStore(mem: G.Memory, c: Container, slots: map<string, int>, s: nat,
                                                target: seq<Byte>, i: nat)
    requires s < |c.sections| && i < |c.imports| && DescriptorPlaced(mem, c, slots, i) && DescriptorsApart(c)
    requires |target| == c.sections[s].totalSize > 0
    ensures DescriptorPlaced(G.Store(mem, SectionBase(s), target), c, slots, i)
  {
    G.LoadElsewhere(mem, SectionBase(s), target, Descriptor(i), 8);
  }

  lemma {:induction false} SectionAfterEmpty(mem: G.Memory, c: Container, s: nat, k: nat, h: nat)
    requires s < |c.sections| && k < |c.sections| && h < |c.headers| && c.headers[h].sectionIndex == s
    requires Placed(mem, c, |c.sections|, h) && c.sections[s].totalSize == 0
    ensures PlacedSection(mem, c, k, h + 1)
  {
    hide Applied, Image, SectionImage;
    assert PlacedSection(mem, c, k, h);
  }

  lemma {:induction false} SectionAfterStore(mem: G.Memory, c: Container, s: nat, target: seq<Byte>, k: nat, h: nat)
    requires s < |c.sections| && k < |c.sections| && h < |c.headers| && c.headers[h].sectionIndex == s
    requires Placed(mem, c, |c.sections|, h)
    requires c.sections[s].totalSize > 0 && |target| == c.sections[s].totalSize && target == Applied(c, h)
    ensures PlacedSection(G.Store(mem, SectionBase(s), target), c, k, h + 1)
  {
    hide Applied, Image, SectionImage;
    assert PlacedSection(mem, c, s, h) && PlacedSection(mem, c, k, h);
    G.LoadStored(mem, SectionBase(s), target);
    if k != s && c.sections[k].totalSize > 0 {
      G.LoadElsewhere(mem, SectionBase(s), target, SectionBase(k), c.sections[k].totalSize);
    }
  }

  lemma {:induction false} NothingPlaced(mem: G.Memory, c: Container)
    ensures Placed(mem, c, 0, 0)
  {
  }

  /** `load` succeeds exactly when it can; then every section holds its relocated image and every import
      its descriptor. */
  method Load(guest: G.Guest, c: Container, slots: map<string, int>) returns (error: Option<LoadError>)
    modifies guest
    ensures error == None <==> Loadable(old(guest.mem).Keys, c, slots)
    ensures error == None ==>
              Placed(guest.mem, c, |c.sections|, |c.headers|) && DescriptorsPlaced(guest.mem, c, slots, |c.imports|)
    ensures error == None ==> ImagePlaced(guest.mem, c) && Kept(old(guest.mem), guest.mem)
    ensures error == Some(UnimplementedImport) <==> !Bound(c, slots)
    ensures error == Some(UnimplementedImport) ==> guest.mem == old(guest.mem)
  {
    hide Applies, FinalImage, DescriptorsApart, Placed, DescriptorsPlaced, Mapping, Room, TablesFit, SectionImage, Fits;
    hide PagesOf, ImagesGood, Regions, Kept, KeptOutside, ImagePlaced;
    if exists i :: i in c.imports && !i.weak && i.name !in slots {
      return Some(UnimplementedImport);
    }
    ghost var start, was := guest.mem.Keys, guest.mem;
    KeptChain(was, was, was);
    assert Placed(guest.mem, c, 0, 0) by { NothingPlaced(guest.mem, c); }
    MappingStarts(start, c);
    var k := 0;
    while k < |c.sections|
      invariant k <= |c.sections| && Placed(guest.mem, c, k, 0) && Mapping(start, guest.mem.Keys, c, k)
      invariant Kept(was, guest.mem)
    {
      ghost var before := guest.mem;
      error := PlaceSection(guest, c, k);
      MappingNext(start, before.Keys, guest.mem.Keys, c, k, slots, error.None?);
      if error.Some? {
        return;
      }
      KeptChain(was, before, guest.mem);
      k := k + 1;
    }
    MappedImages(start, guest.mem.Keys, c);
    ghost var before := guest.mem;
    error := PlaceTables(guest, c, slots);
    TablesNext(start, before.Keys, c, error.None?);
    if error.Some? {
      return;
    }
    KeptChain(was, before, guest.mem);
    ghost var placed := guest.mem;
    OutsideChain(c, placed, placed, placed);
    var h := 0;
    while h < |c.headers|
      invariant h <= |c.headers| && HeadersApply(c, h)
      invariant DescriptorsApart(c) && KeptOutside(c, placed, guest.mem)
      invariant Placed(guest.mem, c, |c.sections|, h) && DescriptorsPlaced(guest.mem, c, slots, |c.imports|)
    {
      before := guest.mem;
      error := ApplyHeader(guest, c, slots, h);
      if error.Some? {
        return;
      }
      OutsideChain(c, placed, before, guest.mem);
      h := h + 1;
    }
    LoadKeeps(was, placed, guest.mem, c);
    return None;
  }

  lemma {:induction false} KeptChain(a: G.Memory, b: G.Memory, c: G.Memory)
    ensures Kept(a, a)
    ensures Kept(a, b) && Kept(b, c) ==> Kept(a, c)
  {
  }

  lemma {:induction false} OutsideChain(c: Container, x: G.Memory, y: G.Memory, z: G.Memory)
    ensures KeptOutside(c, x, x)
    ensures KeptOutside(c, x, y) && KeptOutside(c, y, z) ==> KeptOutside(c, x, z)
  {
    hide InSections;
  }

  lemma {:induction false} MappedImages(start: set<int>, keys: set<int>, c: Container)
    requires Mapping(start, keys, c, |c.sections|)
    ensures ImagesGood(c, |c.sections|)
  {
  }
}
