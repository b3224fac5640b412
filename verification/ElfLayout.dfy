/**
The layout check every object and debug file passes before it is mapped (src/backtraceExtension.c), for 64-bit
little-endian files. The numbers come from the file: all arithmetic on them is on 64-bit words, and that none
of it wraps is part of what is verified. A file is its bytes; whether a range can be mapped is an input.
*/
module ElfLayout {
  newtype uint64 = x: int | 0 <= x < 0x1_0000_0000_0000_0000
  newtype uint32 = x: int | 0 <= x < 0x1_0000_0000
  newtype uint16 = x: int | 0 <= x < 0x1_0000
  newtype byte = x: int | 0 <= x < 0x100

  /** fstat() reports a size as a signed 64-bit number. */
  const MAX_FILE: int := 0x7fff_ffff_ffff_ffff

  const MAX_SECTION_HEADERS: uint64 := 65536
  const NOTE_HEADER_SIZE: uint64 := 12
  const EHDR_SIZE: int := 64
  const SHDR_SIZE: uint64 := 64
  const MINIDEBUGINFO_SECTION: seq<byte> :=
    // .gnu_debugdata, with its NUL
    [0x2e, 0x67, 0x6e, 0x75, 0x5f, 0x64, 0x65, 0x62, 0x75, 0x67, 0x64, 0x61, 0x74, 0x61, 0]

  const SHT_NULL: uint32 := 0
  const SHT_SYMTAB: uint32 := 2
  const SHT_NOTE: uint32 := 7
  const SHT_NOBITS: uint32 := 8
  const SHT_DYNSYM: uint32 := 11
  const SHN_LORESERVE: uint64 := 0xff00
  const SHN_XINDEX: uint64 := 0xffff

  type File = f: seq<byte> | |f| <= MAX_FILE witness []

  /** A mapped range of the file. */
  datatype Range = Range(offset: uint64, size: uint64)

  predicate Inside(r: Range, file: File) {
    r.offset as int + r.size as int <= |file|
  }

  // ---------- words ----------

  function Word16(file: File, at: int): uint16
    requires 0 <= at <= |file| - 2
  {
    file[at] as uint16 + 0x100 * file[at + 1] as uint16
  }

  function Word32(file: File, at: int): uint32
    requires 0 <= at <= |file| - 4
  {
    Word16(file, at) as uint32 + 0x1_0000 * Word16(file, at + 2) as uint32
  }

  function Word64(file: File, at: int): uint64
    requires 0 <= at <= |file| - 8
  {
    Word32(file, at) as uint64 + 0x1_0000_0000 * Word32(file, at + 4) as uint64
  }

  /** The fields the check reads of a section header. */
  datatype Shdr = Shdr(name: uint32, typ: uint32, offset: uint64, size: uint64, link: uint32, addralign: uint64)

  function ShdrAt(file: File, at: int): Shdr
    requires 0 <= at <= |file| - SHDR_SIZE as int
  {
    Shdr(Word32(file, at), Word32(file, at + 4), Word64(file, at + 24), Word64(file, at + 32),
         Word32(file, at + 40), Word64(file, at + 48))
  }

  // ---------- notes ----------

  /** `n` rounded up to a multiple of `align`. */
  function Up(n: int, align: int): (u: int)
    requires align == 4 || align == 8
    ensures n <= u < n + align && u % align == 0
  {
    if n % align == 0 then n else n + align - n % align
  }

  function NoteAlign(s: Shdr): (a: uint64)
    ensures a == 4 || a == 8
  {
    if s.addralign == 8 then 8 else 4
  }

  /** A note's header at `p` lies inside the section `r`. */
  predicate HeaderInside(r: Range, p: int) {
    0 <= p && p + NOTE_HEADER_SIZE as int <= r.size as int
  }

  /** Where the descriptor of the note at `p` starts and ends, and where the next note starts: unbounded numbers. */
  function DescStart(file: File, r: Range, align: int, p: int): int
    requires Inside(r, file) && HeaderInside(r, p) && (align == 4 || align == 8)
  {
    p + Up(NOTE_HEADER_SIZE as int + Word32(file, r.offset as int + p) as int, align)
  }

  function DescEnd(file: File, r: Range, align: int, p: int): int
    requires Inside(r, file) && HeaderInside(r, p) && (align == 4 || align == 8)
  {
    DescStart(file, r, align, p) + Word32(file, r.offset as int + p + 4) as int
  }

  function NextNote(file: File, r: Range, align: int, p: int): int
    requires Inside(r, file) && HeaderInside(r, p) && (align == 4 || align == 8)
  {
    p + Up(DescEnd(file, r, align, p) - p, align)
  }

  /**
  The notes a reader meets: the section's first, then each at the aligned end of the one before, as long as a
  header fits.
  */
  ghost predicate Walk(file: File, r: Range, align: int, notes: seq<int>)
    requires Inside(r, file) && (align == 4 || align == 8)
  {
    && (forall i | 0 <= i < |notes| :: HeaderInside(r, notes[i]))
    && (|notes| > 0 ==> notes[0] == 0)
    && (forall i | 0 < i < |notes| :: notes[i] == NextNote(file, r, align, notes[i - 1]))
  }

  /** Every note met lies inside its section: header, padded name and descriptor. */
  ghost predicate NotesInside(file: File, r: Range, align: int)
    requires Inside(r, file) && (align == 4 || align == 8)
  {
    forall notes, i | Walk(file, r, align, notes) && 0 <= i < |notes| ::
      DescEnd(file, r, align, notes[i]) <= r.size as int
  }

  /** Two walks agree as far as both go. */
  lemma {:induction false} WalksAgree(file: File, r: Range, align: int, a: seq<int>, b: seq<int>, i: nat)
    requires Inside(r, file) && (align == 4 || align == 8)
    requires Walk(file, r, align, a) && Walk(file, r, align, b) && i < |a| && i < |b|
    ensures a[i] == b[i]
  {
    if i > 0 {
      WalksAgree(file, r, align, a, b, i - 1);
    }
  }

  function RoundUp(n: uint64, align: uint64): (u: uint64)
    requires align == 4 || align == 8
    requires n as int + 8 < 0x1_0000_0000_0000_0000
    ensures u as int == Up(n as int, align as int)
  {
    (n + align - 1) / align * align
  }

  /** Where the walk `notes` goes on. */
  function WalkAt(file: File, r: Range, align: int, notes: seq<int>): int
    requires Inside(r, file) && (align == 4 || align == 8) && (notes != [] ==> HeaderInside(r, notes[|notes| - 1]))
  {
    if notes == [] then 0 else NextNote(file, r, align, notes[|notes| - 1])
  }

  ghost predicate Fits(file: File, r: Range, align: int, notes: seq<int>)
    requires Inside(r, file) && (align == 4 || align == 8)
  {
    && Walk(file, r, align, notes)
    && forall i | 0 <= i < |notes| :: DescEnd(file, r, align, notes[i]) <= r.size as int
  }

  lemma ExtendWalk(file: File, r: Range, align: int, notes: seq<int>, p: int)
    requires Inside(r, file) && (align == 4 || align == 8) && Walk(file, r, align, notes)
    requires p == WalkAt(file, r, align, notes) && HeaderInside(r, p)
    ensures Walk(file, r, align, notes + [p])
  {
  }

  lemma ExtendFits(file: File, r: Range, align: int, notes: seq<int>, p: int)
    requires Inside(r, file) && (align == 4 || align == 8) && Fits(file, r, align, notes)
    requires p == WalkAt(file, r, align, notes) && HeaderInside(r, p) && DescEnd(file, r, align, p) <= r.size as int
    ensures Fits(file, r, align, notes + [p])
  {
    ExtendWalk(file, r, align, notes, p);
  }

  /** A walk that fits and has no room for another header is every walk. */
  lemma ExhaustedWalk(file: File, r: Range, align: int, notes: seq<int>)
    requires Inside(r, file) && (align == 4 || align == 8) && Fits(file, r, align, notes)
    requires !HeaderInside(r, WalkAt(file, r, align, notes))
    ensures NotesInside(file, r, align)
  {
    forall other, i | Walk(file, r, align, other) && 0 <= i < |other|
      ensures DescEnd(file, r, align, other[i]) <= r.size as int
    {
      if |other| > |notes| {
        if |notes| > 0 {
          WalksAgree(file, r, align, other, notes, |notes| - 1);
        }
        assert HeaderInside(r, other[|notes|]);
      }
      WalksAgree(file, r, align, other, notes, i);
    }
  }

  /** One note as the loop measures it: no step of the arithmetic wraps. */
  method MeasureNote(file: File, r: Range, offset: uint64, align: uint64) returns (fits: bool, end: uint64)
    requires Inside(r, file) && HeaderInside(r, offset as int) && (align == 4 || align == 8)
    ensures fits <==> DescEnd(file, r, align as int, offset as int) <= r.size as int
    ensures fits ==>
              offset as int + end as int == NextNote(file, r, align as int, offset as int) && end >= NOTE_HEADER_SIZE
  {
    var note := r.offset as int + offset as int;
    var namesz, descsz := Word32(file, note) as uint64, Word32(file, note + 4) as uint64;
    var descOffset := RoundUp(NOTE_HEADER_SIZE + namesz, align);
    if descOffset > r.size - offset || descsz > r.size - offset - descOffset {
      return false, 0;
    }
    return true, RoundUp(descOffset + descsz, align);
  }

  /** cslg_notes_fit_section(): 1 exactly if the section can be mapped and every note met lies inside it. */
  method NotesFitSection(file: File, s: Shdr, maps: Range -> bool) returns (ok: bool)
    requires Inside(Range(s.offset, s.size), file)
    ensures ok <==> NotesOk(file, s, maps)
  {
    var size, align := s.size, NoteAlign(s);
    var section := Range(s.offset, s.size);
    if size == 0 {
      return true;
    }
    if size < NOTE_HEADER_SIZE {
      return false;
    }
    if !maps(section) {
      return false;
    }
    ghost var notes: seq<int> := [];
    var offset: uint64 := 0;
    while size - offset >= NOTE_HEADER_SIZE
      invariant offset <= size
      invariant Fits(file, section, align as int, notes)
      invariant offset as int == WalkAt(file, section, align as int, notes)
      decreases size - offset
    {
      var fits, end := MeasureNote(file, section, offset, align);
      ExtendWalk(file, section, align as int, notes, offset as int);
      if !fits {
        assert Walk(file, section, align as int, notes + [offset as int])
            && (notes + [offset as int])[|notes|] == offset as int;
        return false;
      }
      ExtendFits(file, section, align as int, notes, offset as int);
      notes := notes + [offset as int];
      if end >= size - offset {
        break;
      }
      offset := offset + end;
    }
    ExhaustedWalk(file, section, align as int, notes);
    return true;
  }

  ghost predicate NotesOk(file: File, s: Shdr, maps: Range -> bool)
    requires Inside(Range(s.offset, s.size), file)
  {
    s.size == 0 || (s.size >= NOTE_HEADER_SIZE && maps(Range(s.offset, s.size))
                    && NotesInside(file, Range(s.offset, s.size), NoteAlign(s) as int))
  }

  // ---------- the section header table ----------

  /** The bytes of a mapping: behind the end of the file its last page holds zeroes. */
  function ByteAt(file: File, at: int): byte
    requires 0 <= at
  {
    if at < |file| then file[at] else 0
  }

  function Shoff(file: File): uint64
    requires |file| >= EHDR_SIZE
  {
    Word64(file, 40)
  }

  /** The first section header is inside the file. */
  predicate TableStarts(file: File) {
    && |file| >= EHDR_SIZE
    && Word16(file, 58) as uint64 == SHDR_SIZE
    && Shoff(file) as int + SHDR_SIZE as int <= |file|
  }

  /** How many section headers there are: section header 0 says so when the ELF header cannot. */
  function Count(file: File): uint64
    requires TableStarts(file)
  {
    if Word16(file, 60) == 0 then ShdrAt(file, Shoff(file) as int).size else Word16(file, 60) as uint64
  }

  /** Which section holds the names, with the correction for old binutils, which skipped the reserved range. */
  function NamesIndex(file: File): uint64
    requires TableStarts(file)
  {
    if Word16(file, 62) as uint64 != SHN_XINDEX then Word16(file, 62) as uint64
    else
      var link := ShdrAt(file, Shoff(file) as int).link as uint64;
      if link >= Count(file) && link >= SHN_LORESERVE + 0x100 then link - 0x100 else link
  }

  /** The whole table is inside the file and holds the section-name section, which is not section 0. */
  predicate TableInside(file: File) {
    && TableStarts(file)
    && Count(file) <= MAX_SECTION_HEADERS
    && Shoff(file) as int + Count(file) as int * SHDR_SIZE as int <= |file|
    && 0 < NamesIndex(file) < Count(file)
  }

  function TableRange(file: File): Range
    requires TableInside(file)
  {
    Range(Shoff(file), Count(file) * SHDR_SIZE)
  }

  function Section(file: File, i: uint64): Shdr
    requires TableInside(file) && i < Count(file)
  {
    ShdrAt(file, Shoff(file) as int + i as int * SHDR_SIZE as int)
  }

  predicate IsSymbolTable(s: Shdr) { s.typ == SHT_SYMTAB || s.typ == SHT_DYNSYM }

  /** A section that occupies bytes of the file. */
  predicate HasContents(s: Shdr) { s.typ != SHT_NOBITS && s.typ != SHT_NULL }

  /** What one section of `count` has to satisfy. */
  ghost predicate SectionOk(file: File, count: uint64, s: Shdr, maps: Range -> bool) {
    && (IsSymbolTable(s) ==> 0 < s.link as uint64 < count)
    && (HasContents(s) ==> Inside(Range(s.offset, s.size), file))
    && (s.typ == SHT_NOTE ==> NotesOk(file, s, maps))
  }

  ghost predicate SectionsOk(file: File, n: uint64, maps: Range -> bool)
    requires TableInside(file) && n <= Count(file)
  {
    forall i: uint64 | i < n :: SectionOk(file, Count(file), Section(file, i), maps)
  }

  /** A file without section headers, or one all of whose numbers lie inside it. */
  ghost predicate Acceptable(file: File, maps: Range -> bool) {
    && |file| >= EHDR_SIZE
    && (Shoff(file) == 0 || (TableInside(file) && maps(TableRange(file)) && SectionsOk(file, Count(file), maps)))
  }

  ghost predicate SymtabBelow(file: File, n: uint64)
    requires TableInside(file) && n <= Count(file)
  {
    exists i: uint64 | i < n :: Section(file, i).typ == SHT_SYMTAB
  }

  // ---------- section names ----------

  function NamesSection(file: File): Shdr
    requires TableInside(file)
  {
    Section(file, NamesIndex(file))
  }

  function NamesRange(file: File): Range
    requires TableInside(file)
  {
    Range(NamesSection(file).offset, NamesSection(file).size)
  }

  /** The name at offset `at` of the names section is `name`, NUL included. */
  predicate NameIs(file: File, names: Range, at: uint64, name: seq<byte>) {
    && at as int + |name| <= names.size as int
    && forall k | 0 <= k < |name| :: ByteAt(file, names.offset as int + at as int + k) == name[k]
  }

  predicate Named(file: File, i: uint64, name: seq<byte>)
    requires TableInside(file) && i < Count(file)
  {
    NameIs(file, NamesRange(file), Section(file, i).name as uint64, name)
  }

  ghost predicate NamedBelow(file: File, n: uint64, name: seq<byte>)
    requires TableInside(file) && n <= Count(file)
  {
    exists i: uint64 | 1 <= i < n :: Named(file, i, name)
  }

  predicate NamesWanted(file: File)
    requires TableInside(file)
  {
    NamesSection(file).typ != SHT_NOBITS && NamesSection(file).size != 0
  }

  method HasSectionNamed(file: File, name: seq<byte>, maps: Range -> bool)
    returns (found: bool, ghost views: seq<Range>)
    requires TableInside(file) && 0 < |name| < 0x1_0000
    ensures found <==> NamesWanted(file) && maps(NamesRange(file)) && NamedBelow(file, Count(file), name)
    ensures views == if NamesWanted(file) && maps(NamesRange(file)) then [NamesRange(file)] else []
  {
    var names := NamesSection(file);
    found, views := false, [];
    if names.typ == SHT_NOBITS || names.size == 0 {
      return;
    }
    if !maps(Range(names.offset, names.size)) {
      return;
    }
    views := [Range(names.offset, names.size)];
    var i: uint64 := 1;
    while i < Count(file) && !found
      invariant 1 <= i <= Count(file)
      invariant found <==> NamedBelow(file, i, name)
      decreases Count(file) - i, !found
    {
      var at := Section(file, i).name as uint64;
      found := at < names.size && names.size - at >= |name| as uint64 && NameIs(file, NamesRange(file), at, name);
      assert found <==> Named(file, i, name);
      i := i + 1;
    }
  }

  // ---------- the check ----------

  /** The count and the names index as the code works them out, once the first header is known to be there. */
  method ReadTable(file: File) returns (shnum: uint64, shstrndx: uint64)
    requires TableStarts(file)
    ensures shnum == Count(file) && shstrndx == NamesIndex(file)
  {
    shnum, shstrndx := Word16(file, 60) as uint64, Word16(file, 62) as uint64;
    if shnum == 0 || shstrndx == SHN_XINDEX {
      var shdr0 := ShdrAt(file, Shoff(file) as int);
      if shnum == 0 {
        shnum := shdr0.size;
      }
      if shstrndx == SHN_XINDEX {
        shstrndx := shdr0.link as uint64;
        if shstrndx >= shnum && shstrndx >= SHN_LORESERVE + 0x100 {
          shstrndx := shstrndx - 0x100;
        }
      }
    }
  }

  /** The body of the section loop: whether `s` has a problem. */
  method SectionProblem(file: File, count: uint64, s: Shdr, maps: Range -> bool) returns (problem: bool)
    ensures problem <==> !SectionOk(file, count, s, maps)
  {
    var fileSize := |file| as uint64;
    problem := false;
    if IsSymbolTable(s) && (s.link == 0 || s.link as uint64 >= count) {
      problem := true;
    } else if s.typ == SHT_NOBITS || s.typ == SHT_NULL {
    } else if s.offset > fileSize || s.size > fileSize - s.offset {
      problem := true;
    } else if s.typ == SHT_NOTE {
      var fits := NotesFitSection(file, s, maps);
      problem := !fits;
    }
  }

  /** The section loop: it stops at the first problem. */
  method CheckSections(file: File, maps: Range -> bool) returns (problem: bool, symtab: bool)
    requires TableInside(file)
    ensures problem <==> !SectionsOk(file, Count(file), maps)
    ensures !problem ==> (symtab <==> SymtabBelow(file, Count(file)))
  {
    problem, symtab := false, false;
    var i: uint64 := 0;
    while i < Count(file) && !problem
      invariant i <= Count(file)
      invariant problem <==> !SectionsOk(file, i, maps)
      invariant symtab <==> SymtabBelow(file, i)
      decreases Count(file) - i, !problem
    {
      var s := Section(file, i);
      if s.typ == SHT_SYMTAB {
        symtab := true;
      }
      problem := SectionProblem(file, Count(file), s, maps);
      assert !problem <==> SectionOk(file, Count(file), Section(file, i), maps);
      assert symtab <==> SymtabBelow(file, i) || Section(file, i).typ == SHT_SYMTAB;
      i := i + 1;
    }
    if problem {
      ghost var bad: uint64 :| bad < i && !SectionOk(file, Count(file), Section(file, bad), maps);
      assert !SectionsOk(file, Count(file), maps);
    }
  }

  /** In the format's own numbers: contents lie in the file, and a symbol table's strings are a section of the table. */
  predicate Bounded(file: File, count: uint64, s: Shdr) {
    && (s.typ != 0 && s.typ != 8 ==> s.offset as int + s.size as int <= |file|)
    && (s.typ == 2 || s.typ == 11 ==> 0 < s.link as int < count as int)
  }

  lemma AcceptedAreBounded(file: File, maps: Range -> bool)
    requires Acceptable(file, maps) && Shoff(file) != 0
    ensures forall i: uint64 | i < Count(file) :: Bounded(file, Count(file), Section(file, i))
  {
    forall i: uint64 | i < Count(file)
      ensures Bounded(file, Count(file), Section(file, i))
    {
      assert SectionOk(file, Count(file), Section(file, i), maps);
    }
  }

  /**
  cslg_elf_layout_fits_file(): accepts exactly the acceptable files, and reports a symbol table of their own
  exactly if there is one, or MiniDebugInfo. `views` are the ranges left to its helpers and itself to read.
  */
  method LayoutFitsFile(file: File, maps: Range -> bool)
    returns (ok: bool, hasOwnSymtab: bool, ghost views: seq<Range>)
    ensures ok <==> Acceptable(file, maps)
    ensures ok && Shoff(file) != 0 ==>
              forall i: uint64 | i < Count(file) :: Bounded(file, Count(file), Section(file, i))
    ensures ok && Shoff(file) == 0 ==> !hasOwnSymtab
    ensures ok && Shoff(file) != 0 ==>
              (hasOwnSymtab <==> SymtabBelow(file, Count(file))
                                 || (NamesWanted(file) && maps(NamesRange(file))
                                     && NamedBelow(file, Count(file), MINIDEBUGINFO_SECTION)))
    ensures ok && Shoff(file) != 0 ==> views == Mapped(file, maps)
  {
    ok, hasOwnSymtab, views := false, false, [];
    if |file| < EHDR_SIZE {
      return;
    }
    var fileSize := |file| as uint64;
    var shoff, shentsize := Shoff(file), Word16(file, 58) as uint64;
    if shoff == 0 {
      ok := true;
      return;
    }
    if shentsize != SHDR_SIZE || shoff > fileSize || shentsize > fileSize - shoff {
      return;
    }
    var shnum, shstrndx := ReadTable(file);
    if shnum > MAX_SECTION_HEADERS || shnum * shentsize > fileSize - shoff {
      return;
    }
    if shstrndx == 0 || shstrndx >= shnum {
      return;
    }
    if !maps(Range(shoff, shnum * shentsize)) {
      return;
    }
    views := [TableRange(file)];
    var problem, symtab := CheckSections(file, maps);
    hasOwnSymtab := symtab;
    if !problem && !symtab {
      var found, more := HasSectionNamed(file, MINIDEBUGINFO_SECTION, maps);
      hasOwnSymtab, views := found, views + more;
    }
    ok := !problem;
    if ok {
      AcceptedAreBounded(file, maps);
    }
  }

  /** What is mapped of an accepted file besides its notes: the table, and the names when they are looked at. */
  ghost function Mapped(file: File, maps: Range -> bool): seq<Range>
    requires TableInside(file)
  {
    [TableRange(file)]
    + if !SymtabBelow(file, Count(file)) && NamesWanted(file) && maps(NamesRange(file)) then [NamesRange(file)] else []
  }

  /** The section-name section escaped the loop's range check by its type, and reaches behind the file. */
  ghost predicate StrayNames(file: File, maps: Range -> bool)
    requires TableInside(file)
  {
    && NamesSection(file).typ == SHT_NULL && NamesSection(file).size != 0 && maps(NamesRange(file))
    && !Inside(NamesRange(file), file)
    && !SymtabBelow(file, Count(file))
  }

  /**
  Everything an accepted file has mapped lies inside it if and only if its section-name section is not one of
  type SHT_NULL that reaches behind the file: that type alone is exempt from the range check and still read.
  */
  lemma MappedInsideIff(file: File, maps: Range -> bool)
    requires Acceptable(file, maps) && Shoff(file) != 0
    ensures (forall r | r in Mapped(file, maps) :: Inside(r, file)) <==> !StrayNames(file, maps)
  {
    assert TableRange(file) == Mapped(file, maps)[0];
    assert SectionOk(file, Count(file), NamesSection(file), maps);
    assert NamesRange(file) in Mapped(file, maps) || Mapped(file, maps) == [TableRange(file)];
  }

  /** Such a file: two headers, the second without a type but with a size, named as the section of names. */
  function StrayFile(): File {
    seq(192, i requires 0 <= i < 192 =>
      if i == 40 || i == 58 then 64 else if i == 60 then 2 else if i == 62 then 1 else if i == 161 then 1 else 0)
  }

  lemma StrayHeader()
    ensures Word64(StrayFile(), 40) == 64 && Word16(StrayFile(), 58) == 64
    ensures Word16(StrayFile(), 60) == 2 && Word16(StrayFile(), 62) == 1
  {
  }

  lemma StrayTable()
    ensures TableInside(StrayFile()) && Shoff(StrayFile()) == 64 && Count(StrayFile()) == 2
            && NamesIndex(StrayFile()) == 1
  {
    StrayHeader();
  }

  lemma StrayWords()
    ensures Word32(StrayFile(), 68) == 0 && Word32(StrayFile(), 132) == 0
    ensures Word64(StrayFile(), 152) == 0 && Word64(StrayFile(), 160) == 256
  {
  }

  lemma NullNamesAreNotChecked(maps: Range -> bool)
    requires forall r :: maps(r)
    ensures Acceptable(StrayFile(), maps) && Shoff(StrayFile()) != 0 && StrayNames(StrayFile(), maps)
  {
    StrayTable();
    StrayWords();
    forall i: uint64 | i < 2
      ensures Section(StrayFile(), i).typ == SHT_NULL
    {
      assert i == 0 || i == 1;
    }
    assert NamesSection(StrayFile()).size == 256;
  }
}
