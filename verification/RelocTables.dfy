/**
 Relocation tables as a linker writes them: which bytes of the file an address of the image
 denotes, and what the loop finds in a table that is laid out in a section.
 */
module RelocTables {
  import opened Numeric
  import opened Patching
  import opened Relocation

  // ----- the bytes at an address -----

  /** How much of memory a section takes up */
  function Size(s: Section): U32 {
    if s.virtualSize == 0 then s.rawSize else s.virtualSize
  }

  /** The section covers the range. */
  predicate Covers(s: Section, rva: nat, need: nat) {
    s.virtualAddress <= rva && rva + need <= s.virtualAddress + Size(s)
  }

  /** The parser finds the section's data in the file. */
  predicate HasData(raw: seq<Byte>, s: Section) {
    s.rawOffset != 0 && s.rawSize != 0 && (s.rawOffset + s.rawSize) % TWO32 <= |raw|
  }

  /** No section ends past 32 bits of memory. */
  predicate Placed(img: Image) {
    forall i :: 0 <= i < |img.sections| ==> img.sections[i].virtualAddress + Size(img.sections[i]) < TWO32
  }

  /** A range within the headers is read where it is. */
  lemma HeaderBytes(img: Image, rva: U32, need: U32)
    requires rva + need < TWO32 && rva + need <= img.sizeOfHeaders && rva + need <= |img.raw|
    ensures var p := RvaPlace(img, rva, need);
      p.Place? && Inside(p, need) && forall j | 0 <= j < need :: ReadAt(p, need)[j] == img.raw[rva + j]
  {
  }

  /** Past the headers, the first section that covers a range decides: it has a place for the range if and
      only if it has data as far as the range, and then every byte read there is the one in the file as far
      behind the section's data as the address is behind the section. */
  lemma SectionBytes(img: Image, i: nat, rva: U32, need: U32)
    requires rva + need < TWO32 && (rva + need > img.sizeOfHeaders || rva + need > |img.raw|)
    requires Placed(img) && i < |img.sections| && Covers(img.sections[i], rva, need)
    requires forall k | 0 <= k < i :: !Covers(img.sections[k], rva, need)
    ensures var s, p := img.sections[i], RvaPlace(img, rva, need);
      && (p.Place? <==> HasData(img.raw, s) && rva - s.virtualAddress + need <= s.rawSize)
      && (p.Place? && s.rawOffset + s.rawSize <= |img.raw| ==> Inside(p, need))
      && (p.Place? && Inside(p, need) ==>
            forall j | 0 <= j < need :: s.rawOffset + (rva - s.virtualAddress) + j < |img.raw|
              && ReadAt(p, need)[j] == img.raw[s.rawOffset + (rva - s.virtualAddress) + j])
  {
    FirstCovers(img, 0, i, rva, need);
    hide SectionPlace;
  }

  lemma {:induction false} FirstCovers(img: Image, k: nat, i: nat, rva: U32, need: U32)
    requires rva + need < TWO32 && Placed(img)
    requires k <= i < |img.sections| && Covers(img.sections[i], rva, need)
    requires forall h | k <= h < i :: !Covers(img.sections[h], rva, need)
    ensures var s := img.sections[i]; var off := rva - s.virtualAddress; var data := Data(img.raw, s);
      SectionPlace(img, k, rva, need)
      == if data.Some? && off + need <= s.rawSize then Place(data.value, off) else Nowhere
    decreases i - k
  {
    hide Data;
    assert Extent(img.sections[k]) == img.sections[k].virtualAddress + Size(img.sections[k]);
    if k < i {
      FirstCovers(img, k + 1, i, rva, need);
    }
  }

  /** A range that no section covers has no place. */
  lemma {:induction false} CoveredByNone(img: Image, k: nat, rva: U32, need: U32)
    requires rva + need < TWO32 && Placed(img) && k <= |img.sections|
    requires forall h | k <= h < |img.sections| :: !Covers(img.sections[h], rva, need)
    ensures SectionPlace(img, k, rva, need) == Nowhere
    decreases |img.sections| - k
  {
    if k < |img.sections| {
      assert Extent(img.sections[k]) == img.sections[k].virtualAddress + Size(img.sections[k]);
      CoveredByNone(img, k + 1, rva, need);
    }
  }

  // ----- writing a table -----

  /** An entry: its type, and its place in the page */
  datatype Entry = Entry(kind: nat, at: nat)

  predicate EntryOk(e: Entry) {
    e.kind < 16 && e.at < 4096
  }

  /** The entries for one page */
  datatype Group = Group(page: U32, entries: seq<Entry>)

  predicate GroupOk(g: Group) {
    |g.entries| < 0x1000_0000 && forall i :: 0 <= i < |g.entries| ==> EntryOk(g.entries[i])
  }

  predicate GroupsOk(gs: seq<Group>) {
    forall i :: 0 <= i < |gs| ==> GroupOk(gs[i])
  }

  /** `n` bytes, the least significant first */
  function LittleEndian(v: nat, n: nat): (b: seq<Byte>)
    ensures |b| == n
    decreases n
  {
    if n == 0 then [] else [v % 256] + LittleEndian(v / 256, n - 1)
  }

  function EntryBytes(es: seq<Entry>): (b: seq<Byte>)
    ensures |b| == 2 * |es|
  {
    if es == [] then [] else LittleEndian(es[0].kind * 4096 + es[0].at, 2) + EntryBytes(es[1..])
  }

  function GroupBytes(g: Group): (b: seq<Byte>)
    ensures |b| == 8 + 2 * |g.entries|
  {
    LittleEndian(g.page, 4) + LittleEndian(8 + 2 * |g.entries|, 4) + EntryBytes(g.entries)
  }

  function TableBytes(gs: seq<Group>): seq<Byte> {
    if gs == [] then [] else GroupBytes(gs[0]) + TableBytes(gs[1..])
  }

  /** The words that the entries of type 3 are for */
  function Wanted(page: U32, es: seq<Entry>): seq<U32> {
    if es == [] then []
    else (if es[0].kind == 3 then [(page + es[0].at) % TWO32] else []) + Wanted(page, es[1..])
  }

  function AllWanted(gs: seq<Group>): seq<U32> {
    if gs == [] then [] else Wanted(gs[0].page, gs[0].entries) + AllWanted(gs[1..])
  }

  // ----- reading it back -----

  lemma {:induction false} EntriesFrom(page: U32, ents: seq<Byte>, e: nat, es: seq<Entry>)
    requires 2 * e <= |ents| && ents[2 * e..] == EntryBytes(es)
    requires forall i :: 0 <= i < |es| ==> EntryOk(es[i])
    ensures Entries(page, ents, e) == Wanted(page, es)
    decreases |es|
  {
    if es != [] {
      EntryRead(ents, e, es);
      hide Half, EntryBytes, EntryOk;
      EntriesFrom(page, ents, e + 1, es[1..]);
    }
  }

  lemma EntryRead(ents: seq<Byte>, e: nat, es: seq<Entry>)
    requires 2 * e <= |ents| && es != [] && ents[2 * e..] == EntryBytes(es) && EntryOk(es[0])
    ensures 2 * (e + 1) <= |ents| && ents[2 * (e + 1)..] == EntryBytes(es[1..])
    ensures var v := Half(ents, 2 * e); v / 0x1000 == es[0].kind && v % 0x1000 == es[0].at
  {
    var v := es[0].kind * 4096 + es[0].at;
    HalfOf(v, LittleEndian(v, 2));
    assert EntryBytes(es) == LittleEndian(v, 2) + EntryBytes(es[1..]);
    assert ents[2 * (e + 1)..] == ents[2 * e..][2..];
    assert ents[2 * e] == ents[2 * e..][0] && ents[2 * e + 1] == ents[2 * e..][1];
    hide LittleEndian, EntryBytes;
  }

  lemma HalfOf(v: nat, b: seq<Byte>)
    requires v < 0x1_0000 && b == LittleEndian(v, 2)
    ensures Half(b, 0) == v
  {
  }

  /** Reading a range of the table gives its bytes. */
  ghost predicate Holds(img: Image, t: seq<Byte>) {
    && |t| == img.relocSize && img.relocRva + img.relocSize < TWO31
    && forall off: nat, need: nat :: off + need <= |t| && (need > 0 || off >= 8) ==> Reads(img, t, off, need)
  }

  predicate Reads(img: Image, t: seq<Byte>, off: nat, need: nat)
    requires off + need <= |t| && img.relocRva + |t| < TWO31
  {
    var p := RvaPlace(img, img.relocRva + off, need);
    p.Place? && Inside(p, need) && ReadAt(p, need) == t[off..off + need]
  }

  lemma HeadRead(img: Image, t: seq<Byte>, off: nat, page: U32, size: U32)
    requires |t| == img.relocSize && img.relocRva + |t| < TWO31 && 8 <= size && off + size <= |t|
    requires Reads(img, t, off, 8) && Word(t[off..off + 8], 0) == page && Word(t[off..off + 8], 4) == size
    ensures HeadAt(img, off) == Block(page, size, t[off..off + 8])
  {
    hide RvaPlace, Word, Inside;
    assert HeadPlace(img, off) == RvaPlace(img, img.relocRva + off, 8);
  }

  lemma BodyRead(img: Image, t: seq<Byte>, off: nat, page: U32, n: nat)
    requires |t| == img.relocSize && img.relocRva + |t| < TWO31 && off + 8 + 2 * n <= |t|
    requires Reads(img, t, off + 8, 2 * n)
    requires HeadAt(img, off) == Block(page, 8 + 2 * n, t[off..off + 8])
    ensures BlockAt(img, off) == Block(page, 8 + 2 * n, t[off + 8..off + 8 + 2 * n])
  {
    hide RvaPlace, Inside, HeadAt, BlockAt, BodyLen, BodyPlace;
    BodyLenEven(n);
    BodyPlaceIs(img, off, 8 + 2 * n, img.relocRva + off + 8);
    BlockIs(img, off);
  }

  lemma BodyLenEven(n: nat)
    requires 8 + 2 * n < TWO32
    ensures BodyLen(8 + 2 * n) == 2 * n
  {
  }

  lemma BlockIs(img: Image, off: U32)
    requires HeadAt(img, off).Block?
    requires var size := HeadAt(img, off).size; var p := BodyPlace(img, off, size); p.Place? && Inside(p, BodyLen(size))
    ensures var h := HeadAt(img, off);
      BlockAt(img, off) == Block(h.page, h.size, ReadAt(BodyPlace(img, off, h.size), BodyLen(h.size)))
  {
    hide HeadAt, BodyPlace, Inside, BodyLen, ReadAt;
  }

  lemma GroupRead(img: Image, t: seq<Byte>, off: nat, g: Group, more: seq<Byte>)
    requires Holds(img, t) && off <= |t| && GroupOk(g) && t[off..] == GroupBytes(g) + more
    ensures BlockAt(img, off) == Block(g.page, |GroupBytes(g)|, EntryBytes(g.entries))
  {
    var n, b := |g.entries|, GroupBytes(g);
    hide GroupBytes, EntryBytes, Reads, Word, HeadAt, BlockAt;
    WordsOf(g);
    BodyOf(g);
    SlicesOf(t, off, b, more);
    HoldsAt(img, t, off, 8);
    HoldsAt(img, t, off + 8, 2 * n);
    hide Holds;
    HeadRead(img, t, off, g.page, 8 + 2 * n);
    BodyRead(img, t, off, g.page, n);
  }

  lemma HoldsAt(img: Image, t: seq<Byte>, off: nat, need: nat)
    requires Holds(img, t) && off + need <= |t| && (need > 0 || off >= 8)
    ensures Reads(img, t, off, need)
  {
    hide Reads;
  }

  lemma SlicesOf(t: seq<Byte>, off: nat, b: seq<Byte>, more: seq<Byte>)
    requires off <= |t| && t[off..] == b + more && |b| >= 8
    ensures off + |b| <= |t| && t[off..off + 8] == b[..8] && t[off + 8..off + |b|] == b[8..]
  {
    assert t[off..off + 8] == t[off..][..8];
    assert t[off + 8..off + |b|] == t[off..][8..|b|];
  }

  lemma BodyOf(g: Group)
    ensures GroupBytes(g)[8..] == EntryBytes(g.entries)
  {
  }

  lemma WordsOf(g: Group)
    requires GroupOk(g)
    ensures var b := GroupBytes(g); Word(b[..8], 0) == g.page && Word(b[..8], 4) == 8 + 2 * |g.entries|
  {
    var n := 8 + 2 * |g.entries|;
    var b := GroupBytes(g);
    WordOf(g.page, b[..4]);
    WordOf(n, b[4..8]);
  }

  lemma WordOf(v: U32, b: seq<Byte>)
    requires b == LittleEndian(v, 4)
    ensures Word(b, 0) == v
  {
  }

  /** The loop finds exactly the words that the table was written for, and ends. */
  lemma {:induction false} TableRead(img: Image, t: seq<Byte>, off: nat, gs: seq<Group>)
    requires Holds(img, t) && off <= |t| && GroupsOk(gs) && t[off..] == TableBytes(gs)
    ensures Ends(img, off, |gs| + 1) && Fixups(img, off, |gs| + 1) == AllWanted(gs)
    decreases |gs|
  {
    hide BlockAt, GroupBytes, EntryBytes, Entries, Wanted, Ends, Fixups, Reads;
    if gs == [] {
      assert off == |t|;
      PastTheEnd(img, off);
      EndFound(img, off);
    } else {
      var g, b, more := gs[0], GroupBytes(gs[0]), TableBytes(gs[1..]);
      GroupRead(img, t, off, g, more);
      AfterGroup(t, off, b, more);
      EntriesFrom(g.page, EntryBytes(g.entries), 0, g.entries);
      TableRead(img, t, off + |b|, gs[1..]);
      GroupFound(img, off, |gs|, g, |b|);
    }
  }

  lemma AfterGroup(t: seq<Byte>, off: nat, b: seq<Byte>, more: seq<Byte>)
    requires off <= |t| && t[off..] == b + more
    ensures off + |b| <= |t| && t[off + |b|..] == more
  {
    assert t[off + |b|..] == t[off..][|b|..];
  }

  lemma EndFound(img: Image, off: U32)
    requires BlockAt(img, off).End?
    ensures Ends(img, off, 1) && Fixups(img, off, 1) == []
  {
    hide BlockAt;
  }

  lemma GroupFound(img: Image, off: nat, n: nat, g: Group, size: nat)
    requires n > 0 && off + size < TWO31 && BlockAt(img, off) == Block(g.page, size, EntryBytes(g.entries))
    requires Entries(g.page, EntryBytes(g.entries), 0) == Wanted(g.page, g.entries) && Ends(img, off + size, n)
    ensures Ends(img, off, n + 1)
    ensures Fixups(img, off, n + 1) == Wanted(g.page, g.entries) + Fixups(img, off + size, n)
  {
    hide BlockAt, Entries, Wanted, EntryBytes;
  }

  // ----- a table in a section -----

  /** The table lies in the section numbered `i`, and in its data, past the headers and clear of the
      sections before it. */
  predicate LiesIn(img: Image, i: nat) {
    && Placed(img) && i < |img.sections| && img.sizeOfHeaders <= img.relocRva
    && (forall k | 0 <= k < i :: var s := img.sections[k];
          s.virtualAddress + Size(s) <= img.relocRva || img.relocRva + img.relocSize < s.virtualAddress)
    && var s := img.sections[i];
    && Covers(s, img.relocRva, img.relocSize) && img.relocRva - s.virtualAddress + img.relocSize <= s.rawSize
    && HasData(img.raw, s) && s.rawOffset + s.rawSize <= |img.raw| < TWO31
    && img.relocRva + img.relocSize < TWO31
  }

  /** The bytes of the table in the file */
  function TableAt(img: Image, i: nat): (t: seq<Byte>)
    requires LiesIn(img, i)
    ensures |t| == img.relocSize
  {
    var s := img.sections[i];
    var at := s.rawOffset + (img.relocRva - s.virtualAddress);
    img.raw[at..at + img.relocSize]
  }

  lemma LyingHolds(img: Image, i: nat)
    requires LiesIn(img, i)
    ensures Holds(img, TableAt(img, i))
  {
    var t := TableAt(img, i);
    assert |t| == img.relocSize && img.relocRva + img.relocSize < TWO31;
    forall off: nat, need: nat | off + need <= |t| && (need > 0 || off >= 8)
      ensures Reads(img, t, off, need)
    {
      hide *;
      LyingRead(img, i, off, need);
    }
  }

  lemma LyingRead(img: Image, i: nat, off: nat, need: nat)
    requires LiesIn(img, i) && off + need <= img.relocSize && (need > 0 || off >= 8)
    ensures Reads(img, TableAt(img, i), off, need)
  {
    hide RvaPlace, Inside, ReadAt;
    SectionBytes(img, i, img.relocRva + off, need);
  }

  /** The loop, on a table written into the data of a section, ends with every read inside the file, and
      patches exactly the words that the table was written for, in order. */
  lemma TableWalked(img: Image, i: nat, gs: seq<Group>)
    requires LiesIn(img, i) && GroupsOk(gs) && TableAt(img, i) == TableBytes(gs)
    ensures Ends(img, 0, |gs| + 1) && Fixups(img, 0, |gs| + 1) == AllWanted(gs)
  {
    var t := TableAt(img, i);
    LyingHolds(img, i);
    assert t[0..] == t;
    hide LiesIn, TableAt, Holds, Ends, Fixups;
    TableRead(img, t, 0, gs);
  }

  // ----- an ordinary library -----

  /** Two blocks: in one page a word and an entry that only fills up, in the next two words. */
  const ORDINARY_TABLE: seq<Byte> := [0, 0x10, 0, 0, 12, 0, 0, 0, 0x10, 0x30, 0, 0,
                                      0, 0x20, 0, 0, 12, 0, 0, 0, 4, 0x30, 0xFC, 0x3F]

  const ORDINARY_GROUPS := [Group(0x1000, [Entry(3, 0x10), Entry(0, 0)]),
                            Group(0x2000, [Entry(3, 4), Entry(3, 0xFFC)])]

  lemma TwoBytes(v: nat)
    requires v < 0x1_0000
    ensures LittleEndian(v, 2) == [v % 256, v / 256]
  {
    assert LittleEndian(v / 256, 1) == [v / 256 % 256] + LittleEndian(v / 256 / 256, 0);
  }

  lemma FourBytes(v: nat)
    requires v < 0x1_0000
    ensures LittleEndian(v, 4) == [v % 256, v / 256, 0, 0]
  {
    assert LittleEndian(v / 256, 3) == [v / 256 % 256] + LittleEndian(v / 256 / 256, 2);
    TwoBytes(0);
  }

  /** A block of two entries */
  lemma Pair(page: U32, e: Entry, f: Entry, v: nat, w: nat)
    requires page < 0x1_0000 && v == e.kind * 4096 + e.at < 0x1_0000 && w == f.kind * 4096 + f.at < 0x1_0000
    ensures GroupBytes(Group(page, [e, f]))
         == [page % 256, page / 256, 0, 0, 12, 0, 0, 0, v % 256, v / 256, w % 256, w / 256]
  {
    FourBytes(page);
    FourBytes(12);
    TwoBytes(v);
    TwoBytes(w);
    hide LittleEndian;
    assert [e, f][1..] == [f] && [f][1..] == [];
    assert EntryBytes([f]) == [w % 256, w / 256] + [];
    assert EntryBytes([e, f]) == [v % 256, v / 256] + EntryBytes([f]);
    hide EntryBytes;
    assert GroupBytes(Group(page, [e, f])) == [page % 256, page / 256, 0, 0] + [12, 0, 0, 0] + EntryBytes([e, f]);
  }

  lemma PairWanted(page: U32, e: Entry, f: Entry)
    ensures Wanted(page, [e, f]) == (if e.kind == 3 then [(page + e.at) % TWO32] else [])
                                    + (if f.kind == 3 then [(page + f.at) % TWO32] else [])
  {
    assert [e, f][1..] == [f] && [f][1..] == [];
    assert Wanted(page, [f]) == (if f.kind == 3 then [(page + f.at) % TWO32] else []) + [];
  }

  lemma TwoGroups(g: Group, h: Group)
    ensures TableBytes([g, h]) == GroupBytes(g) + GroupBytes(h)
    ensures AllWanted([g, h]) == Wanted(g.page, g.entries) + Wanted(h.page, h.entries)
  {
    hide GroupBytes, Wanted;
    assert [g, h][1..] == [h] && [h][1..] == [];
    assert TableBytes([h]) == GroupBytes(h) + [];
    assert AllWanted([h]) == Wanted(h.page, h.entries) + [];
  }

  lemma OrdinaryBytes()
    ensures TableBytes(ORDINARY_GROUPS) == ORDINARY_TABLE
    ensures AllWanted(ORDINARY_GROUPS) == [0x1010, 0x2004, 0x2FFC]
  {
    hide TableBytes, GroupBytes, Wanted, AllWanted;
    TwoGroups(ORDINARY_GROUPS[0], ORDINARY_GROUPS[1]);
    Pair(0x1000, Entry(3, 0x10), Entry(0, 0), 0x3010, 0);
    Pair(0x2000, Entry(3, 4), Entry(3, 0xFFC), 0x3004, 0x3FFC);
    PairWanted(0x1000, Entry(3, 0x10), Entry(0, 0));
    PairWanted(0x2000, Entry(3, 4), Entry(3, 0xFFC));
  }

  /** Headers of 0x400 bytes, and behind them the data of a section that lies at 0x5000 in memory */
  function OrdinaryImage(raw: seq<Byte>): Image {
    Image(0x400, raw, [Section(0x18, 0x5000, 0x200, 0x400)], 0x5000, 24)
  }

  lemma OrdinaryLies(raw: seq<Byte>)
    requires |raw| == 0x600
    ensures LiesIn(OrdinaryImage(raw), 0) && TableAt(OrdinaryImage(raw), 0) == raw[0x400..0x418]
  {
    assert OrdinaryImage(raw).sections[0] == Section(0x18, 0x5000, 0x200, 0x400);
  }

  lemma OrdinaryOk()
    ensures GroupsOk(ORDINARY_GROUPS) && |ORDINARY_GROUPS| == 2
  {
  }

  /** Whatever else is in such a file, the three words of the table are the targets. */
  lemma OrdinaryTargets(raw: seq<Byte>)
    requires |raw| == 0x600 && raw[0x400..0x418] == ORDINARY_TABLE
    ensures Ends(OrdinaryImage(raw), 0, 3) && Fixups(OrdinaryImage(raw), 0, 3) == [0x1010, 0x2004, 0x2FFC]
  {
    hide *;
    OrdinaryBytes();
    OrdinaryLies(raw);
    OrdinaryOk();
    TableWalked(OrdinaryImage(raw), 0, ORDINARY_GROUPS);
  }
}
