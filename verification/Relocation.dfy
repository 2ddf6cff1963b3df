/**
 Base relocation of a loaded library: the table in the file image is walked block by
 block, and the guest's memory is patched at each 32-bit target it names. All offsets
 are 32-bit words, which wrap; what such wraps do to the walk is proved.
 */
module Relocation {
  import opened Numeric
  import opened Options
  import opened Patching
  import opened Reversal

  /** A section header: where the section lies in memory, and where its data lies in the file */
  datatype Section = Section(virtualSize: U32, virtualAddress: U32, rawSize: U32, rawOffset: U32)

  datatype Image = Image(sizeOfHeaders: U32, raw: seq<Byte>, sections: seq<Section>, relocRva: U32, relocSize: U32)

  const HIGHLOW := 3
  const TWO31 := 0x8000_0000

  // ----- the sections, as the parser takes them from the file -----

  /** The parser gives a section data if its pointer plus its size, in 32 bits, is within the file.
      What there is to read then is what follows the pointer. */
  function Data(raw: seq<Byte>, s: Section): Option<seq<Byte>> {
    if s.rawOffset > 0 && s.rawSize > 0 && (s.rawOffset + s.rawSize) % TWO32 <= |raw| then
      Some(if s.rawOffset <= |raw| then raw[s.rawOffset..] else [])
    else
      None
  }

  /** The section has passed the parser's test because the sum has wrapped. */
  predicate PassedByWrap(raw: seq<Byte>, s: Section) {
    Data(raw, s).Some? && s.rawOffset + s.rawSize >= TWO32
  }

  /** A section with data has as much of it as its header says, unless it has passed by a wrap. */
  lemma WholeExactly(raw: seq<Byte>, s: Section)
    requires |raw| < TWO32
    ensures (Data(raw, s).Some? ==> s.rawSize <= |Data(raw, s).value|) <==> !PassedByWrap(raw, s)
    ensures Data(raw, s).Some? ==> |Data(raw, s).value| <= |raw|
  {
  }

  /** No section has passed by a wrap. */
  predicate Whole(img: Image) {
    forall i :: 0 <= i < |img.sections| ==> !PassedByWrap(img.raw, img.sections[i])
  }

  // ----- looking up an address of the image -----

  /** The extent of a section in memory */
  function Extent(s: Section): U32 {
    (s.virtualAddress + (if s.virtualSize != 0 then s.virtualSize else s.rawSize)) % TWO32
  }

  /** A place in one of the buffers of the file */
  datatype Place = Nowhere | Place(bytes: seq<Byte>, at: U32)

  /** Reading on from the place stays within the file; reading nothing always does. */
  predicate Inside(p: Place, need: U32) {
    p.Place? && need > 0 ==> p.at + need <= |p.bytes|
  }

  function ReadAt(p: Place, need: U32): (b: seq<Byte>)
    requires p.Place? && Inside(p, need)
    ensures |b| == need
  {
    if need == 0 then [] else p.bytes[p.at..p.at + need]
  }

  /** Whatever its header promises can be read from a section with data if and only if it has not
      passed by a wrap. */
  lemma PromiseExactly(raw: seq<Byte>, s: Section)
    requires |raw| < TWO32 && Data(raw, s).Some?
    ensures (forall off: U32, need: U32 :: off + need <= s.rawSize ==> Inside(Place(Data(raw, s).value, off), need))
            <==> !PassedByWrap(raw, s)
  {
    WholeExactly(raw, s);
    if PassedByWrap(raw, s) {
      assert !Inside(Place(Data(raw, s).value, 0), s.rawSize);
    }
  }

  /** The place in the first section, from number `i` on, that covers the range */
  function SectionPlace(img: Image, i: nat, rva: U32, need: U32): Place
    requires i <= |img.sections|
    decreases |img.sections| - i
  {
    if i == |img.sections| then Nowhere
    else
      var s := img.sections[i];
      if rva >= s.virtualAddress && (rva + need) % TWO32 <= Extent(s) then
        var off: U32 := rva - s.virtualAddress;
        var data := Data(img.raw, s);
        if data.Some? && (off + need) % TWO32 <= s.rawSize then Place(data.value, off) else Nowhere
      else SectionPlace(img, i + 1, rva, need)
  }

  function RvaPlace(img: Image, rva: U32, need: U32): Place {
    if (rva + need) % TWO32 <= img.sizeOfHeaders && (rva + need) % TWO32 <= |img.raw| then Place(img.raw, rva)
    else SectionPlace(img, 0, rva, need)
  }

  /** A place is within the file as far as the length is, if neither the address nor a section wraps. */
  ghost predicate Lies(img: Image, p: Place, rva: U32, need: U32) {
    p.Place? ==>
      && p.at <= rva && |p.bytes| <= |img.raw|
      && (Inside(p, need) ==> p.at + need < TWO32)
      && (Whole(img) ==> (Inside(p, need) <==> p.at + need < TWO32))
  }

  lemma {:induction false} SectionInside(img: Image, i: nat, rva: U32, need: U32)
    requires |img.raw| < TWO32 && i <= |img.sections|
    ensures Lies(img, SectionPlace(img, i, rva, need), rva, need)
    decreases |img.sections| - i
  {
    if i < |img.sections| {
      WholeExactly(img.raw, img.sections[i]);
      SectionInside(img, i + 1, rva, need);
      hide Data, PassedByWrap;
    }
  }

  /** A place that passes the tests is safe to read from only if its offset and the length do not pass
      32 bits, and, when no section has passed by a wrap, exactly then. */
  lemma PlaceInside(img: Image, rva: U32, need: U32)
    requires |img.raw| < TWO32
    ensures var p := RvaPlace(img, rva, need);
      p.Place? ==>
        && p.at <= rva && |p.bytes| <= |img.raw|
        && (Inside(p, need) ==> p.at + need < TWO32)
        && (Whole(img) ==> (Inside(p, need) <==> p.at + need < TWO32))
  {
    SectionInside(img, 0, rva, need);
  }

  // ----- the relocation table -----

  /** The targets that the entries from number `e` on name, relative to the image */
  function Entries(page: U32, ents: seq<Byte>, e: nat): seq<U32>
    requires 2 * e <= |ents|
    decreases |ents| - 2 * e
  {
    if 2 * e + 2 > |ents| then []
    else
      var v := Half(ents, 2 * e);
      (if v / 0x1000 == HIGHLOW then [(page + v % 0x1000) % TWO32] else []) + Entries(page, ents, e + 1)
  }

  /** What one turn of the loop comes to: a reason to stop, a read outside the file, or a block. */
  datatype Block = End | Stray | Block(page: U32, size: U32, ents: seq<Byte>)

  /** Where the header of the block at `off` is looked for */
  function HeadPlace(img: Image, off: U32): Place {
    RvaPlace(img, (img.relocRva + off) % TWO32, 8)
  }

  /** The length of its entries, for a block of this size */
  function BodyLen(size: U32): U32
    requires size >= 8
  {
    (size - 8) / 2 * 2
  }

  /** Where they are */
  function BodyPlace(img: Image, off: U32, size: U32): Place
    requires size >= 8
  {
    RvaPlace(img, (img.relocRva + off + 8) % TWO32, BodyLen(size))
  }

  /** The loop's tests: the header is there, and its size passes */
  function HeadAt(img: Image, off: U32): (h: Block)
    ensures h.Block? ==> h.size >= 8 && (off + h.size) % TWO32 <= img.relocSize && |h.ents| == 8
  {
    if (off + 8) % TWO32 > img.relocSize then End
    else
      var p := HeadPlace(img, off);
      if p.Nowhere? then End
      else if !Inside(p, 8) then Stray
      else
        var h := ReadAt(p, 8);
        var size := Word(h, 4);
        if size < 8 || (off + size) % TWO32 > img.relocSize then End else Block(Word(h, 0), size, h)
  }

  function BlockAt(img: Image, off: U32): (b: Block)
    ensures b.Block? ==> b.size >= 8 && (off + b.size) % TWO32 <= img.relocSize
  {
    var h := HeadAt(img, off);
    if !h.Block? then h
    else
      var p := BodyPlace(img, off, h.size);
      if p.Nowhere? then End
      else if !Inside(p, BodyLen(h.size)) then Stray
      else Block(h.page, h.size, ReadAt(p, BodyLen(h.size)))
  }

  /** The loop stops within `n` turns, and until then every read stays inside the file. */
  predicate Ends(img: Image, off: U32, n: nat)
    decreases n
  {
    n > 0 &&
    match BlockAt(img, off)
    case End => true
    case Stray => false
    case Block(_, size, _) => Ends(img, (off + size) % TWO32, n - 1)
  }

  /** Every target of the table, in order */
  function Fixups(img: Image, off: U32, n: nat): seq<U32>
    requires Ends(img, off, n)
    decreases n
  {
    match BlockAt(img, off)
    case End => []
    case Block(page, size, ents) => Entries(page, ents, 0) + Fixups(img, (off + size) % TWO32, n - 1)
  }

  /** The targets do not depend on the number of turns allowed. */
  lemma {:induction false} FixupsSame(img: Image, off: U32, n: nat, m: nat)
    requires Ends(img, off, n) && Ends(img, off, m)
    ensures Fixups(img, off, n) == Fixups(img, off, m)
    decreases n
  {
    hide BlockAt, Entries;
    match BlockAt(img, off)
    case End =>
    case Block(_, size, _) => FixupsSame(img, (off + size) % TWO32, n - 1, m - 1);
  }

  function Based(base: U32, rvas: seq<U32>): (t: seq<U32>)
    ensures |t| == |rvas|
  {
    seq(|rvas|, i requires 0 <= i < |rvas| => (base + rvas[i]) % TWO32)
  }

  // ----- when the walk stays inside the file and ends -----

  /** A file and a table below 2 GiB. */
  predicate Ordinary(img: Image) {
    |img.raw| < TWO31 && img.relocRva + img.relocSize < TWO31
  }

  /** No block that the walk comes to, and that passes the loop's tests, passes by a wrap. */
  predicate Unwrapped(img: Image, off: U32)
    requires off <= img.relocSize
    decreases img.relocSize - off
  {
    var h := HeadAt(img, off);
    h.Block? && BodyPlace(img, off, h.size).Place? ==> off + h.size < TWO32 && Unwrapped(img, off + h.size)
  }

  lemma HeadInside(img: Image, off: U32)
    requires Ordinary(img) && Whole(img) && off <= img.relocSize
    ensures !HeadAt(img, off).Stray?
  {
    PlaceInside(img, (img.relocRva + off) % TWO32, 8);
    hide RvaPlace, Whole, Word;
  }

  lemma BodyFits(rva: nat, limit: nat, off: nat, size: U32, p: Place)
    requires rva + limit < TWO31 && off + 8 <= limit && 8 <= size && (off + size) % TWO32 <= limit
    requires p.Place? && p.at <= rva + off + 8 && |p.bytes| < TWO31
    ensures var need := BodyLen(size);
      if off + size < TWO32 then p.at + need < TWO32 else !Inside(p, need)
  {
    BodyLenIs(size);
    hide BodyLen;
  }

  lemma BodyLenIs(size: U32)
    requires size >= 8
    ensures size - 9 <= BodyLen(size) <= size - 8
  {
  }

  /** The entries of a block that passes are read inside the file only if it passes without a wrap,
      and, when no section has passed by one either, exactly then. */
  lemma BodyInside(img: Image, off: U32)
    requires Ordinary(img) && off <= img.relocSize && HeadAt(img, off).Block?
    ensures var size := HeadAt(img, off).size; var p := BodyPlace(img, off, size);
      p.Place? ==>
        && (Inside(p, BodyLen(size)) ==> off + size < TWO32)
        && (Whole(img) ==> (Inside(p, BodyLen(size)) <==> off + size < TWO32))
  {
    var size := HeadAt(img, off).size;
    HeadBounds(img, off);
    BodyAt(img, off, size);
    var p := BodyPlace(img, off, size);
    hide BodyPlace, Ordinary, Whole, HeadAt, BodyLen, Inside;
    if p.Place? {
      BodyFits(img.relocRva, img.relocSize, off, size, p);
    }
  }

  lemma BodyAt(img: Image, off: U32, size: U32)
    requires |img.raw| < TWO31 && img.relocRva + off + 8 < TWO32 && size >= 8
    ensures var p := BodyPlace(img, off, size); var need := BodyLen(size);
      p.Place? ==>
        && p.at <= img.relocRva + off + 8 && |p.bytes| < TWO31
        && (Inside(p, need) ==> p.at + need < TWO32)
        && (Whole(img) ==> (Inside(p, need) <==> p.at + need < TWO32))
  {
    var rva: U32 := img.relocRva + off + 8;
    BodyPlaceIs(img, off, size, rva);
    hide BodyPlace, RvaPlace, Whole, BodyLen, Inside;
    PlaceInside(img, rva, BodyLen(size));
  }

  lemma BodyPlaceIs(img: Image, off: U32, size: U32, rva: U32)
    requires size >= 8 && rva == img.relocRva + off + 8
    ensures BodyPlace(img, off, size) == RvaPlace(img, rva, BodyLen(size))
  {
    hide RvaPlace, BodyLen;
  }

  lemma HeadBounds(img: Image, off: U32)
    requires Ordinary(img) && off <= img.relocSize && HeadAt(img, off).Block?
    ensures var size := HeadAt(img, off).size; size >= 8 && (off + size) % TWO32 <= img.relocSize
    ensures off + 8 <= img.relocSize && img.relocRva + img.relocSize < TWO31 && |img.raw| < TWO31
  {
    hide RvaPlace, Word;
  }

  /** One turn on a table without wraps */
  lemma UnwrappedTurn(img: Image, off: U32)
    requires Ordinary(img) && Whole(img) && off <= img.relocSize && Unwrapped(img, off)
    ensures match BlockAt(img, off)
      case End => true
      case Stray => false
      case Block(_, size, _) => 0 < size && off + size <= img.relocSize && Unwrapped(img, off + size)
  {
    HeadInside(img, off);
    UnwrappedHead(img, off);
    if HeadAt(img, off).Block? {
      BodyInside(img, off);
      BlockBody(img, off);
    } else {
      hide HeadAt, Unwrapped;
    }
    hide BlockAt, HeadAt, BodyPlace, Ordinary, Whole, Unwrapped, Inside, BodyLen;
  }

  lemma BlockBody(img: Image, off: U32)
    requires HeadAt(img, off).Block?
    ensures var size := HeadAt(img, off).size; var p := BodyPlace(img, off, size);
      && (p.Nowhere? ==> BlockAt(img, off) == End)
      && (p.Place? && Inside(p, BodyLen(size)) ==> BlockAt(img, off).Block? && BlockAt(img, off).size == size)
  {
    hide HeadAt, BodyPlace, Inside, BodyLen;
  }

  lemma UnwrappedHead(img: Image, off: U32)
    requires off <= img.relocSize && Unwrapped(img, off)
    ensures var h := HeadAt(img, off);
      h.Block? && BodyPlace(img, off, h.size).Place? ==>
        0 < h.size && off + h.size <= img.relocSize && Unwrapped(img, off + h.size)
  {
    hide HeadAt, BodyPlace;
  }

  lemma EndsTurn(img: Image, off: U32, n: nat)
    requires BlockAt(img, off).Block? && off + BlockAt(img, off).size < TWO32
    requires Ends(img, off + BlockAt(img, off).size, n)
    ensures Ends(img, off, n + 1)
  {
    hide BlockAt;
  }

  lemma {:induction false} UnwrappedEnds(img: Image, off: U32)
    requires Ordinary(img) && Whole(img) && off <= img.relocSize && Unwrapped(img, off)
    ensures Ends(img, off, img.relocSize - off + 1)
    decreases img.relocSize - off
  {
    hide *;
    UnwrappedTurn(img, off);
    match BlockAt(img, off)
    case Block(_, size, _) =>
      UnwrappedEnds(img, off + size);
      EndsAfter(img, off, size);
    case End =>
      EndsNow(img, off, img.relocSize - off + 1);
  }

  lemma EndsAfter(img: Image, off: U32, size: U32)
    requires BlockAt(img, off).Block? && BlockAt(img, off).size == size > 0 && off + size <= img.relocSize
    requires Ends(img, off + size, img.relocSize - (off + size) + 1)
    ensures Ends(img, off, img.relocSize - off + 1)
  {
    hide BlockAt, Ends;
    EndsMore(img, off + size, img.relocSize - (off + size) + 1, img.relocSize - off);
    EndsTurn(img, off, img.relocSize - off);
  }

  lemma EndsNow(img: Image, off: U32, n: nat)
    requires BlockAt(img, off).End? && n > 0
    ensures Ends(img, off, n)
  {
    hide BlockAt;
  }

  lemma {:induction false} EndsMore(img: Image, off: U32, n: nat, m: nat)
    requires Ends(img, off, n) && n <= m
    ensures Ends(img, off, m)
    decreases n
  {
    hide BlockAt;
    match BlockAt(img, off)
    case Block(_, size, _) => EndsMore(img, (off + size) % TWO32, n - 1, m - 1);
    case _ =>
  }

  lemma {:induction false} EndsUnwrapped(img: Image, off: U32, n: nat)
    requires Ordinary(img) && off <= img.relocSize && Ends(img, off, n)
    ensures Unwrapped(img, off)
    decreases n
  {
    var h := HeadAt(img, off);
    hide HeadAt, BodyPlace, Ordinary;
    if h.Block? && BodyPlace(img, off, h.size).Place? {
      BodyInside(img, off);
      EndsUnwrapped(img, off + h.size, n - 1);
    }
  }

  /** The loop ends with every read inside the file only if no block it comes to passes its tests by a
      wrap, and, when no section has passed the parser's test by one, exactly then. */
  lemma EndsExactly(img: Image)
    requires Ordinary(img)
    ensures (exists n :: Ends(img, 0, n)) ==> Unwrapped(img, 0)
    ensures Whole(img) ==> ((exists n :: Ends(img, 0, n)) <==> Unwrapped(img, 0))
  {
    if Whole(img) && Unwrapped(img, 0) {
      UnwrappedEnds(img, 0);
    }
    if n :| Ends(img, 0, n) {
      EndsUnwrapped(img, 0, n);
    }
  }

  /** A section whose pointer and size add up to 2^32, in a file of twenty bytes. */
  const SHORT_SECTION := Section(0x1000, 0x1000, 0xFFFF_FFF0, 16)

  const SHORT := Image(16, seq(20, _ => 0), [SHORT_SECTION], 0x1800, 12)

  lemma ShortHead()
    ensures PassedByWrap(SHORT.raw, SHORT_SECTION) && HeadAt(SHORT, 0) == Stray
  {
    var s := SHORT.sections[0];
    assert Data(SHORT.raw, s) == Some(SHORT.raw[16..]);
    assert HeadPlace(SHORT, 0) == Place(SHORT.raw[16..], 0x800);
  }

  /** No block of its table wraps, as there is none: the header of the first is not in the file. */
  lemma ShortStrays()
    ensures Ordinary(SHORT) && !Whole(SHORT) && Unwrapped(SHORT, 0)
    ensures BlockAt(SHORT, 0) == Stray && forall n :: !Ends(SHORT, 0, n)
  {
    ShortHead();
    assert SHORT.sections[0] == SHORT_SECTION;
    assert |SHORT.raw| == 20;
    hide HeadAt, BodyPlace;
    assert BlockAt(SHORT, 0) == Stray;
  }

  /** A table whose second block claims a size that wraps its end to 0. */
  const WRAPPING := Image(20, [0, 0, 0, 0,
                               0, 0, 0, 0, 8, 0, 0, 0,
                               0, 0, 0, 0, 0xF8, 0xFF, 0xFF, 0xFF], [], 4, 16)

  lemma WrappingFirst()
    ensures BlockAt(WRAPPING, 0) == Block(0, 8, [])
  {
    var raw := WRAPPING.raw;
    assert raw[4..12] == [0, 0, 0, 0, 8, 0, 0, 0];
    assert HeadPlace(WRAPPING, 0) == Place(raw, 4);
    assert HeadAt(WRAPPING, 0) == Block(0, 8, raw[4..12]);
    assert BodyPlace(WRAPPING, 0, 8) == Place(raw, 12);
  }

  lemma WrappingSecond()
    ensures BlockAt(WRAPPING, 8) == Stray
  {
    var raw := WRAPPING.raw;
    assert raw[12..20] == [0, 0, 0, 0, 0xF8, 0xFF, 0xFF, 0xFF];
    assert HeadPlace(WRAPPING, 8) == Place(raw, 12);
    assert HeadAt(WRAPPING, 8) == Block(0, 0xFFFF_FFF8, raw[12..20]);
    assert BodyPlace(WRAPPING, 8, 0xFFFF_FFF8) == Place(raw, 20);
  }

  lemma StrayNeverEnds(img: Image, size: U32, n: nat)
    requires BlockAt(img, 0) == Block(0, size, []) && BlockAt(img, size) == Stray
    ensures !Ends(img, 0, n)
  {
    hide BlockAt;
    if n > 1 {
      assert !Ends(img, size, n - 1);
    }
  }

  /** The walk over it comes back to 0 by a wrap, were it not for the read outside the file. */
  lemma WrapStrays()
    ensures Ordinary(WRAPPING) && Whole(WRAPPING) && !Unwrapped(WRAPPING, 0)
    ensures BlockAt(WRAPPING, 8) == Stray && forall n :: !Ends(WRAPPING, 0, n)
  {
    WrappingFirst();
    WrappingSecond();
    assert Ordinary(WRAPPING) && Whole(WRAPPING);
    hide *;
    forall n: nat
      ensures !Ends(WRAPPING, 0, n)
    {
      StrayNeverEnds(WRAPPING, 8, n);
    }
    EndsExactly(WRAPPING);
  }

  // ----- a table that cannot be undone -----

  /** One block with two HIGHLOW entries at neighbouring bytes of a page. */
  const OVERLAPPING := Image(16, [0, 0, 0, 0,
                                  0, 0x10, 0, 0, 12, 0, 0, 0,
                                  0, 0x30, 1, 0x30], [], 4, 12)

  lemma OverlapBlocks()
    ensures BlockAt(OVERLAPPING, 0) == Block(0x1000, 12, [0, 0x30, 1, 0x30]) && BlockAt(OVERLAPPING, 12) == End
  {
    var raw := OVERLAPPING.raw;
    assert raw[4..12] == [0, 0x10, 0, 0, 12, 0, 0, 0] && raw[12..16] == [0, 0x30, 1, 0x30];
    assert HeadPlace(OVERLAPPING, 0) == Place(raw, 4);
    assert HeadAt(OVERLAPPING, 0) == Block(0x1000, 12, raw[4..12]);
    assert BodyPlace(OVERLAPPING, 0, 12) == Place(raw, 12);
  }

  lemma OverlapTable()
    ensures Ends(OVERLAPPING, 0, 2) && Fixups(OVERLAPPING, 0, 2) == [0x1000, 0x1001]
  {
    OverlapBlocks();
    var ents: seq<Byte> := [0, 0x30, 1, 0x30];
    hide BlockAt;
    assert Half(ents, 0) == 0x3000 && Half(ents, 2) == 0x3001;
    assert Entries(0x1000, ents, 2) == [];
    assert Entries(0x1000, ents, 1) == [0x1001];
    assert Entries(0x1000, ents, 0) == [0x1000, 0x1001];
    hide Entries;
    assert Ends(OVERLAPPING, 12, 1) && Fixups(OVERLAPPING, 12, 1) == [];
  }

  /** Loaded at the first address for libraries, this table relocates a memory that relocating back
      does not restore. */
  lemma OverlapNotUndone()
    ensures Ends(OVERLAPPING, 0, 2)
    ensures !Reversible(Based(0x6000_0000, Fixups(OVERLAPPING, 0, 2)))
  {
    OverlapTable();
    hide *;
    OverlapTargets();
    TwoAscend(0x6000_1000, 0x6000_1001);
    ReversibleExactly([0x6000_1000, 0x6000_1001]);
  }

  lemma OverlapTargets()
    ensures Based(0x6000_0000, [0x1000, 0x1001]) == [0x6000_1000, 0x6000_1001]
    ensures !WordwiseApart([0x6000_1000, 0x6000_1001])
  {
    var targets: seq<U32> := [0x6000_1000, 0x6000_1001];
    assert targets[0] != targets[1] && !Apart(targets[0], targets[1]);
  }

  lemma TwoAscend(t: U32, u: U32)
    requires t < u
    ensures Strict([t, u])
  {
  }

  lemma BasedAppend(base: U32, a: seq<U32>, b: seq<U32>)
    ensures Based(base, a + b) == Based(base, a) + Based(base, b)
  {
  }

  // ----- the loader -----

  /** pe_rva_ptr */
  method RvaPtr(img: Image, rva: U32, need: U32) returns (p: Place)
    ensures p == RvaPlace(img, rva, need)
  {
    if (rva + need) % TWO32 <= img.sizeOfHeaders && (rva + need) % TWO32 <= |img.raw| {
      return Place(img.raw, rva);
    }
    for i := 0 to |img.sections|
      invariant SectionPlace(img, 0, rva, need) == SectionPlace(img, i, rva, need)
    {
      var s := img.sections[i];
      var vs := if s.virtualSize != 0 then s.virtualSize else s.rawSize;
      if rva >= s.virtualAddress && (rva + need) % TWO32 <= (s.virtualAddress + vs) % TWO32 {
        var off := rva - s.virtualAddress;
        var data := Data(img.raw, s);
        if data.Some? && (off + need) % TWO32 <= s.rawSize {
          return Place(data.value, off);
        }
        return Nowhere;
      }
    }
    return Nowhere;
  }

  method AddWord(mem: array<Byte>, target: U32, delta: U32)
    requires Spans(mem[..])
    modifies mem
    ensures mem[..] == AddAt(old(mem[..]), target, delta)
  {
    var val := ReadWord(mem, target);
    hide Word, Put;
    val := (val + delta) % TWO32;
    WriteWord(mem, target, val);
  }

  lemma RelocateFirst(mem: seq<Byte>, t: U32, rest: seq<U32>, d: U32)
    requires Spans(mem)
    ensures Relocate(mem, [t] + rest, d) == Relocate(AddAt(mem, t, d), rest, d)
  {
    assert ([t] + rest)[1..] == rest;
    hide AddAt;
  }

  lemma TargetOf(base: U32, page: U32, off: nat)
    ensures (base + (page + off) % TWO32) % TWO32 == (base + page + off) % TWO32
  {
    ModAdd(page + off, base);
  }

  lemma EntriesOnce(base: U32, page: U32, ents: seq<Byte>, e: nat)
    requires 2 * e + 2 <= |ents|
    ensures var v := Half(ents, 2 * e);
      Based(base, Entries(page, ents, e)) ==
      (if v / 0x1000 == HIGHLOW then [(base + page + v % 0x1000) % TWO32] else [])
      + Based(base, Entries(page, ents, e + 1))
  {
    TargetOf(base, page, Half(ents, 2 * e) % 0x1000);
  }

  /** The entries of one block */
  method PatchBlock(mem: array<Byte>, page: U32, ents: seq<Byte>, loadBase: U32, delta: U32)
    requires Spans(mem[..])
    modifies mem
    ensures mem[..] == Relocate(old(mem[..]), Based(loadBase, Entries(page, ents, 0)), delta)
  {
    hide Entries, Based, AddAt, Relocate, Half, Word, Put;
    var nent := |ents| / 2;
    ghost var was := mem[..];
    for e := 0 to nent
      invariant Spans(mem[..])
      invariant Relocate(mem[..], Based(loadBase, Entries(page, ents, e)), delta)
                == Relocate(was, Based(loadBase, Entries(page, ents, 0)), delta)
    {
      var v := Half(ents, e * 2);
      EntriesOnce(loadBase, page, ents, e);
      ghost var rest := Based(loadBase, Entries(page, ents, e + 1));
      if v / 0x1000 == HIGHLOW {
        var target := (loadBase + page + v % 0x1000) % TWO32;
        RelocateFirst(mem[..], target, rest, delta);
        AddWord(mem, target, delta);
      } else {
        assert [] + rest == rest;
      }
    }
    EntriesDone(loadBase, page, ents, nent);
    RelocateNone(mem[..], delta);
  }

  lemma RelocateNone(mem: seq<Byte>, d: U32)
    requires Spans(mem)
    ensures Relocate(mem, [], d) == mem
    ensures forall base :: Based(base, []) == []
  {
  }

  lemma EntriesDone(base: U32, page: U32, ents: seq<Byte>, e: nat)
    requires e == |ents| / 2
    ensures Based(base, Entries(page, ents, e)) == []
  {
  }

  /** Patching a block leaves the rest of the walk to do. */
  lemma WalkOnce(img: Image, mem: seq<Byte>, off: U32, n: nat, base: U32, delta: U32)
    requires Ends(img, off, n) && Spans(mem)
    ensures n > 0 && !BlockAt(img, off).Stray?
    ensures var b := BlockAt(img, off);
      b.Block? ==> Ends(img, (off + b.size) % TWO32, n - 1)
    ensures var b := BlockAt(img, off);
      Relocate(mem, Based(base, Fixups(img, off, n)), delta)
      == if b.End? then mem
         else Relocate(Relocate(mem, Based(base, Entries(b.page, b.ents, 0)), delta),
                       Based(base, Fixups(img, (off + b.size) % TWO32, n - 1)), delta)
  {
    hide BlockAt, Relocate, Based, Entries;
    var b := BlockAt(img, off);
    if b.Block? {
      var now, later := Entries(b.page, b.ents, 0), Fixups(img, (off + b.size) % TWO32, n - 1);
      BasedAppend(base, now, later);
      RelocateAppend(mem, Based(base, now), Based(base, later), delta);
    } else {
      RelocateNone(mem, delta);
    }
  }

  /** The header and the entries of the block at `off`, where the loop does not stop */
  method NextBlock(img: Image, off: U32) returns (b: Block)
    requires (off + 8) % TWO32 <= img.relocSize && !BlockAt(img, off).Stray?
    ensures b == BlockAt(img, off)
  {
    hide RvaPlace, Word;
    var blk := RvaPtr(img, (img.relocRva + off) % TWO32, 8);
    if blk.Nowhere? {
      return End;
    }
    var head := ReadAt(blk, 8);
    var page, size := Word(head, 0), Word(head, 4);
    if size < 8 || (off + size) % TWO32 > img.relocSize {
      return End;
    }
    var nent := (size - 8) / 2;
    var ents := RvaPtr(img, (img.relocRva + off + 8) % TWO32, nent * 2);
    if ents.Nowhere? {
      return End;
    }
    return Block(page, size, ReadAt(ents, nent * 2));
  }

  lemma PastTheEnd(img: Image, off: U32)
    requires (off + 8) % TWO32 > img.relocSize
    ensures BlockAt(img, off) == End
  {
  }

  predicate Relocates(img: Image, delta: U32) {
    delta != 0 && img.relocRva != 0 && img.relocSize != 0
  }

  /** The relocation loop of wg_load_dll, on a table on which it ends with its reads inside the file */
  method ApplyRelocations(img: Image, mem: array<Byte>, loadBase: U32, delta: U32, ghost n: nat)
    requires Spans(mem[..]) && (Relocates(img, delta) ==> Ends(img, 0, n))
    modifies mem
    ensures mem[..] == if Relocates(img, delta) then Relocate(old(mem[..]), Based(loadBase, Fixups(img, 0, n)), delta)
                       else old(mem[..])
  {
    hide Relocate, Based, Fixups, Ends, BlockAt, HeadAt, BodyPlace, RvaPlace, Entries, Word, Half, AddAt, Put;
    if delta != 0 && img.relocRva != 0 && img.relocSize != 0 {
      var off: U32 := 0;
      ghost var left, goal := n, Relocate(mem[..], Based(loadBase, Fixups(img, 0, n)), delta);
      while (off + 8) % TWO32 <= img.relocSize
        invariant Spans(mem[..]) && Ends(img, off, left)
        invariant Relocate(mem[..], Based(loadBase, Fixups(img, off, left)), delta) == goal
        decreases left
      {
        WalkOnce(img, mem[..], off, left, loadBase, delta);
        var b := NextBlock(img, off);
        if b.End? {
          return;
        }
        PatchBlock(mem, b.page, b.ents, loadBase, delta);
        off := (off + b.size) % TWO32;
        left := left - 1;
      }
      PastTheEnd(img, off);
      WalkOnce(img, mem[..], off, left, loadBase, delta);
    }
  }
}
