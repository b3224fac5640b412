/**
Object files as they are written: the ELF header and the section headers as structures of little-endian numbers. Reading
gives every number back, and the layout check accepts a file exactly if those numbers are in range.
*/
module ElfFields {
  import opened ElfLayout

  // ---------- numbers ----------

  /** `n` in `width` bytes, the lowest first. */
  function Bytes(n: nat, width: nat): (b: seq<byte>)
    ensures |b| == width
  {
    if width == 0 then [] else [(n % 0x100) as byte] + Bytes(n / 0x100, width - 1)
  }

  function Value(bytes: seq<byte>): nat {
    if bytes == [] then 0 else bytes[0] as nat + 0x100 * Value(bytes[1..])
  }

  /** How many numbers fit in so many bytes. */
  function Range256(width: nat): (r: nat)
    ensures r > 0
  {
    if width == 0 then 1 else 0x100 * Range256(width - 1)
  }

  lemma {:induction false} ValueOfBytes(n: nat, width: nat)
    requires n < Range256(width)
    ensures Value(Bytes(n, width)) == n
  {
    if width > 0 {
      ValueOfBytes(n / 0x100, width - 1);
      assert Bytes(n, width)[1..] == Bytes(n / 0x100, width - 1);
    }
  }

  lemma {:induction false} ValueOfTwo(a: seq<byte>, b: seq<byte>)
    ensures Value(a + b) == Value(a) + Range256(|a|) * Value(b)
  {
    if a == [] {
      assert a + b == b;
    } else {
      ValueOfTwo(a[1..], b);
      assert (a + b)[1..] == a[1..] + b;
      Regroup(Value(a[1..]), Range256(|a| - 1), Value(b));
    }
  }

  lemma Regroup(v: int, range: int, w: int)
    ensures 0x100 * (v + range * w) == 0x100 * v + 0x100 * range * w
  {
  }

  lemma Word16IsValue(file: File, at: int)
    requires 0 <= at <= |file| - 2
    ensures Word16(file, at) as int == Value(file[at..at + 2])
  {
    ValueOfTwo([file[at]], [file[at + 1]]);
    assert file[at..at + 2] == [file[at]] + [file[at + 1]];
    assert Value([file[at]]) == file[at] as int && Value([file[at + 1]]) == file[at + 1] as int;
    assert Range256(1) == 0x100;
  }

  lemma Word32IsValue(file: File, at: int)
    requires 0 <= at <= |file| - 4
    ensures Word32(file, at) as int == Value(file[at..at + 4])
  {
    Word16IsValue(file, at);
    Word16IsValue(file, at + 2);
    ValueOfTwo(file[at..at + 2], file[at + 2..at + 4]);
    assert file[at..at + 4] == file[at..at + 2] + file[at + 2..at + 4];
    assert Range256(2) == 0x1_0000;
  }

  lemma Word64IsValue(file: File, at: int)
    requires 0 <= at <= |file| - 8
    ensures Word64(file, at) as int == Value(file[at..at + 8])
  {
    Word32IsValue(file, at);
    Word32IsValue(file, at + 4);
    ValueOfTwo(file[at..at + 4], file[at + 4..at + 8]);
    assert file[at..at + 8] == file[at..at + 4] + file[at + 4..at + 8];
    assert Range256(4) == 0x1_0000_0000;
  }

  // ---------- structures ----------

  /** A number and the bytes it takes. */
  datatype Field = Field(value: nat, width: nat)

  /** The fields, one behind the other. */
  function Laid(fields: seq<Field>): seq<byte> {
    if fields == [] then [] else Bytes(fields[0].value, fields[0].width) + Laid(fields[1..])
  }

  /** Where field `k` starts. */
  function StartOf(fields: seq<Field>, k: nat): nat
    requires k <= |fields|
    decreases k
  {
    if k == 0 then 0 else StartOf(fields, k - 1) + fields[k - 1].width
  }

  predicate Fits(fields: seq<Field>) {
    forall k | 0 <= k < |fields| :: fields[k].value < Range256(fields[k].width)
  }

  /** These bytes stand in the file. */
  predicate Holds(file: File, at: nat, bytes: seq<byte>) {
    at + |bytes| <= |file| && file[at..at + |bytes|] == bytes
  }

  lemma HoldsBoth(file: File, at: nat, a: seq<byte>, b: seq<byte>)
    requires Holds(file, at, a + b)
    ensures Holds(file, at, a) && Holds(file, at + |a|, b)
  {
    assert file[at..at + |a|] == file[at..at + |a + b|][..|a|];
    assert file[at + |a|..at + |a| + |b|] == file[at..at + |a + b|][|a|..];
  }

  /** The fields behind the first `k` stand behind those. */
  lemma {:induction false} HoldsRest(file: File, at: nat, fields: seq<Field>, k: nat)
    requires Holds(file, at, Laid(fields)) && k <= |fields|
    ensures Holds(file, at + StartOf(fields, k), Laid(fields[k..]))
  {
    if k == 0 {
      assert fields[0..] == fields;
    } else {
      HoldsRest(file, at, fields, k - 1);
      assert fields[k - 1..][1..] == fields[k..];
      HoldsBoth(file, at + StartOf(fields, k - 1), Bytes(fields[k - 1].value, fields[k - 1].width), Laid(fields[k..]));
    }
  }

  /** Every field reads back. */
  lemma FieldReadsBack(file: File, at: nat, fields: seq<Field>, k: nat, start: nat, end: nat)
    requires Holds(file, at, Laid(fields)) && Fits(fields) && k < |fields|
    requires start == at + StartOf(fields, k) && end == start + fields[k].width
    ensures end <= |file| && Value(file[start..end]) == fields[k].value
  {
    HoldsRest(file, at, fields, k);
    HoldsFirst(file, start, fields[k..], fields[k]);
    ValueOfBytes(fields[k].value, fields[k].width);
  }

  lemma HoldsFirst(file: File, at: nat, fields: seq<Field>, first: Field)
    requires fields != [] && fields[0] == first && Holds(file, at, Laid(fields))
    ensures Holds(file, at, Bytes(first.value, first.width))
  {
    HoldsBoth(file, at, Bytes(first.value, first.width), Laid(fields[1..]));
  }

  /** The ELF header. */
  datatype Header = Header(ident: nat, typ: nat, machine: nat, version: nat, entry: nat, phoff: nat, shoff: nat,
                           flags: nat, ehsize: nat, phentsize: nat, phnum: nat, shentsize: nat, shnum: nat,
                           shstrndx: nat)

  function HeaderFields(h: Header): seq<Field> {
    [Field(h.ident, 16), Field(h.typ, 2), Field(h.machine, 2), Field(h.version, 4), Field(h.entry, 8),
     Field(h.phoff, 8), Field(h.shoff, 8), Field(h.flags, 4), Field(h.ehsize, 2), Field(h.phentsize, 2),
     Field(h.phnum, 2), Field(h.shentsize, 2), Field(h.shnum, 2), Field(h.shstrndx, 2)]
  }

  /** A section header. */
  datatype SectionHeader = SectionHeader(name: nat, typ: nat, flags: nat, addr: nat, offset: nat, size: nat,
                                         link: nat, info: nat, addralign: nat, entsize: nat)

  function SectionFields(s: SectionHeader): seq<Field> {
    [Field(s.name, 4), Field(s.typ, 4), Field(s.flags, 8), Field(s.addr, 8), Field(s.offset, 8), Field(s.size, 8),
     Field(s.link, 4), Field(s.info, 4), Field(s.addralign, 8), Field(s.entsize, 8)]
  }

  lemma HeaderStarts(h: Header)
    ensures StartOf(HeaderFields(h), 6) == 40 && StartOf(HeaderFields(h), 11) == 58
    ensures StartOf(HeaderFields(h), 12) == 60 && StartOf(HeaderFields(h), 13) == 62
  {
    assert StartOf(HeaderFields(h), 3) == 20;
    assert StartOf(HeaderFields(h), 9) == 54;
  }

  lemma HeaderReadsBack(file: File, h: Header)
    requires Holds(file, 0, Laid(HeaderFields(h))) && Fits(HeaderFields(h))
    ensures |file| >= 64 && Shoff(file) as int == h.shoff && Word16(file, 58) as int == h.shentsize
    ensures Word16(file, 60) as int == h.shnum && Word16(file, 62) as int == h.shstrndx
  {
    var fields := HeaderFields(h);
    HeaderStarts(h);
    FieldReadsBack(file, 0, fields, 6, 40, 48);
    FieldReadsBack(file, 0, fields, 11, 58, 60);
    FieldReadsBack(file, 0, fields, 12, 60, 62);
    FieldReadsBack(file, 0, fields, 13, 62, 64);
    Word64IsValue(file, 40);
    Word16IsValue(file, 58);
    Word16IsValue(file, 60);
    Word16IsValue(file, 62);
  }

  /** What the check reads of a section header is what was written. */
  predicate ReadAs(r: Shdr, s: SectionHeader) {
    && r.name as int == s.name && r.typ as int == s.typ && r.offset as int == s.offset && r.size as int == s.size
    && r.link as int == s.link && r.addralign as int == s.addralign
  }

  lemma SectionReadsBack(file: File, at: nat, s: SectionHeader)
    requires Holds(file, at, Laid(SectionFields(s))) && Fits(SectionFields(s))
    ensures at + 64 <= |file| && ReadAs(ShdrAt(file, at), s)
  {
    var fields := SectionFields(s);
    FieldReadsBack(file, at, fields, 0, at, at + 4);
    FieldReadsBack(file, at, fields, 1, at + 4, at + 8);
    FieldReadsBack(file, at, fields, 4, at + 24, at + 32);
    FieldReadsBack(file, at, fields, 5, at + 32, at + 40);
    FieldReadsBack(file, at, fields, 6, at + 40, at + 44);
    FieldReadsBack(file, at, fields, 8, at + 48, at + 56);
    FieldReadsBack(file, at, fields, 9, at + 56, at + 64);
    Word32IsValue(file, at);
    Word32IsValue(file, at + 4);
    Word64IsValue(file, at + 24);
    Word64IsValue(file, at + 32);
    Word32IsValue(file, at + 40);
    Word64IsValue(file, at + 48);
  }

  // ---------- the table as it is written ----------

  /**
  How many section headers there are and which one is that of the names, as the format says: what the ELF header has
  no room for stands in section header 0.
  */
  predicate Numbered(h: Header, sections: seq<SectionHeader>, names: nat) {
    && sections != [] && h.shentsize == 64
    && (if |sections| < 0xff00 then h.shnum == |sections| else h.shnum == 0 && sections[0].size == |sections|)
    && (if names < 0xff00 then h.shstrndx == names
        else h.shstrndx == 0xffff && sections[0].link == names && names < |sections|)
  }

  /** The file begins with this ELF header, and as far as it goes it has these section headers. */
  ghost predicate Written(file: File, h: Header, sections: seq<SectionHeader>) {
    && Fits(HeaderFields(h)) && Holds(file, 0, Laid(HeaderFields(h))) && h.shoff != 0
    && forall i | 0 <= i < |sections| && h.shoff + 64 * i + 64 <= |file| :: HasHeader(file, h, sections, i)
  }

  predicate HasHeader(file: File, h: Header, sections: seq<SectionHeader>, i: nat)
    requires i < |sections|
  {
    Fits(SectionFields(sections[i])) && Holds(file, h.shoff + 64 * i, Laid(SectionFields(sections[i])))
  }

  lemma HeaderAt(file: File, h: Header, sections: seq<SectionHeader>, i: nat)
    requires Written(file, h, sections) && i < |sections| && h.shoff + 64 * i + 64 <= |file|
    ensures ReadAs(ShdrAt(file, h.shoff + 64 * i), sections[i])
  {
    assert HasHeader(file, h, sections, i);
    SectionReadsBack(file, h.shoff + 64 * i, sections[i]);
  }

  /** The count and the index of the names read back. */
  lemma NumbersReadBack(file: File, h: Header, sections: seq<SectionHeader>, names: nat)
    requires Written(file, h, sections) && Numbered(h, sections, names) && h.shoff + 64 <= |file|
    ensures TableStarts(file) && Shoff(file) as int == h.shoff
    ensures Count(file) as int == |sections| && NamesIndex(file) as int == names
  {
    HeaderReadsBack(file, h);
    HeaderAt(file, h, sections, 0);
  }

  /**
  Old binutils numbered the sections behind the reserved range as if it were part of them. The correction gets the
  index right if and only if it lies in front of that range, or what is written is no index of the table.
  */
  lemma OldNumbersReadBackIff(file: File, h: Header, sections: seq<SectionHeader>, names: nat)
    requires Written(file, h, sections) && sections != [] && h.shentsize == 64 && h.shoff + 64 <= |file|
    requires if |sections| < 0xff00 then h.shnum == |sections| else h.shnum == 0 && sections[0].size == |sections|
    requires if names < 0xff00 then h.shstrndx == names
             else h.shstrndx == 0xffff && sections[0].link == names + 0x100
    ensures TableStarts(file)
    ensures NamesIndex(file) as int == names <==> (names < 0xff00 || names + 0x100 >= |sections|)
  {
    HeaderReadsBack(file, h);
    HeaderAt(file, h, sections, 0);
  }

  /** A section's numbers are in range; its notes are looked at where they are read. */
  ghost predicate InRange(file: File, count: nat, s: SectionHeader, r: Shdr, maps: Range -> bool) {
    && (s.typ == 2 || s.typ == 11 ==> 0 < s.link < count)
    && (s.typ != 0 && s.typ != 8 ==> s.offset + s.size <= |file|)
    && (s.typ == 7 ==> Inside(Range(r.offset, r.size), file) && NotesOk(file, r, maps))
  }

  /** And so are those of section `i` of the table. */
  ghost predicate SectionInRange(file: File, h: Header, sections: seq<SectionHeader>, i: nat, maps: Range -> bool)
    requires h.shoff + 64 * |sections| <= |file| && i < |sections|
  {
    InRange(file, |sections|, sections[i], ShdrAt(file, h.shoff + 64 * i), maps)
  }

  ghost predicate AllInRange(file: File, h: Header, sections: seq<SectionHeader>, maps: Range -> bool)
    requires h.shoff + 64 * |sections| <= |file|
  {
    forall i | 0 <= i < |sections| :: SectionInRange(file, h, sections, i, maps)
  }

  /**
  The check accepts a file, which may have been cut short, exactly if the table is in it and of a sane size, the names'
  section is one of the table but not the first, the table can be mapped, and every section's numbers are in range.
  */
  lemma AcceptedIffInRange(file: File, h: Header, sections: seq<SectionHeader>, names: nat, maps: Range -> bool)
    requires Written(file, h, sections) && Numbered(h, sections, names)
    ensures Acceptable(file, maps) <==>
              && h.shoff + 64 * |sections| <= |file| && |sections| <= 65536 && 0 < names < |sections|
              && maps(Range(h.shoff as uint64, 64 * |sections| as uint64))
              && AllInRange(file, h, sections, maps)
  {
    HeaderReadsBack(file, h);
    if h.shoff + 64 <= |file| {
      NumbersReadBack(file, h, sections, names);
      if TableInside(file) {
        SectionsReadBack(file, h, sections, names, maps);
      }
    }
  }

  lemma SectionsReadBack(file: File, h: Header, sections: seq<SectionHeader>, names: nat, maps: Range -> bool)
    requires Written(file, h, sections) && TableIs(file, h, sections)
    ensures h.shoff + 64 * |sections| <= |file|
    ensures SectionsOk(file, Count(file), maps) <==> AllInRange(file, h, sections, maps)
  {
    if AllInRange(file, h, sections, maps) {
      forall i: uint64 | i < Count(file)
        ensures SectionOk(file, Count(file), Section(file, i), maps)
      {
        OneReadsBack(file, h, sections, i, maps);
      }
    }
    if SectionsOk(file, Count(file), maps) {
      forall i | 0 <= i < |sections|
        ensures SectionInRange(file, h, sections, i, maps)
      {
        OneReadsBack(file, h, sections, i as uint64, maps);
      }
    }
  }

  /** The table of this file is the one that was written. */
  predicate TableIs(file: File, h: Header, sections: seq<SectionHeader>) {
    TableInside(file) && Shoff(file) as int == h.shoff && Count(file) as int == |sections|
  }

  lemma SectionIs(file: File, h: Header, sections: seq<SectionHeader>, i: uint64)
    requires Written(file, h, sections) && TableIs(file, h, sections) && i < Count(file)
    ensures Section(file, i) == ShdrAt(file, h.shoff + 64 * i as nat)
    ensures ReadAs(Section(file, i), sections[i as nat])
  {
    HeaderAt(file, h, sections, i as nat);
  }

  lemma OneReadsBack(file: File, h: Header, sections: seq<SectionHeader>, i: uint64, maps: Range -> bool)
    requires Written(file, h, sections) && TableIs(file, h, sections) && i < Count(file)
    ensures SectionOk(file, Count(file), Section(file, i), maps)
            <==> SectionInRange(file, h, sections, i as nat, maps)
  {
    SectionIs(file, h, sections, i);
    OkIffInRange(file, Count(file), sections[i as nat], Section(file, i), maps);
  }

  lemma OkIffInRange(file: File, count: uint64, s: SectionHeader, r: Shdr, maps: Range -> bool)
    requires ReadAs(r, s)
    ensures SectionOk(file, count, r, maps) <==> InRange(file, count as nat, s, r, maps)
  {
  }

  // ---------- a symbol table of its own ----------

  /** Some section is a symbol table. */
  predicate HasSymtab(sections: seq<SectionHeader>) {
    exists i | 0 <= i < |sections| :: sections[i].typ == 2
  }

  /** Section `i` carries this name, which lies, NUL included, in the section of names. */
  predicate Carries(file: File, names: SectionHeader, s: SectionHeader, name: seq<byte>) {
    s.name + |name| <= names.size && Holds(file, names.offset + s.name, name)
  }

  /** Some section but the first does. */
  predicate SomeCarries(file: File, sections: seq<SectionHeader>, names: SectionHeader, name: seq<byte>) {
    exists i | 1 <= i < |sections| :: Carries(file, names, sections[i], name)
  }

  lemma MiniDebugInfoName()
    ensures |MINIDEBUGINFO_SECTION| == |".gnu_debugdata"| + 1 && MINIDEBUGINFO_SECTION[14] == 0
    ensures forall k | 0 <= k < |".gnu_debugdata"| :: MINIDEBUGINFO_SECTION[k] as char == ".gnu_debugdata"[k]
  {
  }

  /** What is reported of an accepted file is what is written: a symbol table, or a section of the name looked for. */
  lemma OwnSymbolsReadBack(file: File, h: Header, sections: seq<SectionHeader>, names: nat, maps: Range -> bool,
                           name: seq<byte>)
    requires Written(file, h, sections) && Numbered(h, sections, names) && Acceptable(file, maps)
    requires names < |sections| && sections[names].typ != 0 && sections[names].typ != 8
    ensures TableInside(file)
    ensures SymtabBelow(file, Count(file)) <==> HasSymtab(sections)
    ensures NamedBelow(file, Count(file), name) <==> SomeCarries(file, sections, sections[names], name)
    ensures NamesWanted(file) <==> sections[names].size != 0
  {
    TableOfAccepted(file, h, sections, names, maps);
    SectionIs(file, h, sections, names as uint64);
    SymtabReadsBack(file, h, sections);
    NameReadsBack(file, h, sections, sections[names], name);
  }

  lemma TableOfAccepted(file: File, h: Header, sections: seq<SectionHeader>, names: nat, maps: Range -> bool)
    requires Written(file, h, sections) && Numbered(h, sections, names) && Acceptable(file, maps)
    requires names < |sections| && sections[names].typ != 0 && sections[names].typ != 8
    ensures TableIs(file, h, sections) && NamesIndex(file) as int == names
    ensures sections[names].offset + sections[names].size <= |file|
  {
    AcceptedIffInRange(file, h, sections, names, maps);
    NumbersReadBack(file, h, sections, names);
    assert SectionInRange(file, h, sections, names, maps);
  }

  lemma NameStands(file: File, range: Range, at: uint64, name: seq<byte>)
    requires Inside(range, file)
    ensures NameIs(file, range, at, name)
            <==> at as int + |name| <= range.size as int && Holds(file, range.offset as int + at as int, name)
  {
    if at as int + |name| <= range.size as int {
      var start := range.offset as int + at as int;
      assert Holds(file, start, name) <==> forall k | 0 <= k < |name| :: file[start + k] == name[k];
    }
  }

  lemma SymtabReadsBack(file: File, h: Header, sections: seq<SectionHeader>)
    requires Written(file, h, sections) && TableIs(file, h, sections)
    ensures SymtabBelow(file, Count(file)) <==> HasSymtab(sections)
  {
    forall i: uint64 | i < Count(file)
      ensures Section(file, i).typ as int == sections[i as nat].typ
    {
      SectionIs(file, h, sections, i);
    }
    if HasSymtab(sections) {
      var i :| 0 <= i < |sections| && sections[i].typ == 2;
      assert Section(file, i as uint64).typ == 2;
    }
  }

  lemma NamedIffCarries(file: File, h: Header, sections: seq<SectionHeader>, names: SectionHeader, i: uint64,
                        name: seq<byte>)
    requires Written(file, h, sections) && TableIs(file, h, sections) && i < Count(file)
    requires ReadAs(NamesSection(file), names) && names.offset + names.size <= |file|
    ensures Named(file, i, name) <==> Carries(file, names, sections[i as nat], name)
  {
    SectionIs(file, h, sections, i);
    NameStands(file, NamesRange(file), Section(file, i).name as uint64, name);
  }

  lemma NameReadsBack(file: File, h: Header, sections: seq<SectionHeader>, names: SectionHeader, name: seq<byte>)
    requires Written(file, h, sections) && TableIs(file, h, sections)
    requires ReadAs(NamesSection(file), names) && names.offset + names.size <= |file|
    ensures NamedBelow(file, Count(file), name) <==> SomeCarries(file, sections, names, name)
  {
    forall i: uint64 | i < Count(file)
      ensures Named(file, i, name) <==> Carries(file, names, sections[i as nat], name)
    {
      NamedIffCarries(file, h, sections, names, i, name);
    }
    if SomeCarries(file, sections, names, name) {
      var i :| 1 <= i < |sections| && Carries(file, names, sections[i], name);
      assert Named(file, i as uint64, name);
    }
  }

  // ---------- notes as they are written ----------

  datatype Note = Note(typ: nat, name: seq<byte>, desc: seq<byte>)

  function Zeros(n: nat): (z: seq<byte>)
    ensures |z| == n
  {
    seq(n, _ => 0)
  }

  /** The bytes, padded to the alignment. */
  function Padded(bytes: seq<byte>, align: int): (p: seq<byte>)
    requires align == 4 || align == 8
    ensures |p| == Up(|bytes|, align) && bytes <= p
  {
    bytes + Zeros(Up(|bytes|, align) - |bytes|)
  }

  function NoteHeader(n: Note): seq<Field> {
    [Field(|n.name|, 4), Field(|n.desc|, 4), Field(n.typ, 4)]
  }

  /** Header and name, padded, and the descriptor behind them. */
  function UnpaddedNote(n: Note, align: int): seq<byte>
    requires align == 4 || align == 8
  {
    Padded(Laid(NoteHeader(n)) + n.name, align) + n.desc
  }

  function NoteBytes(n: Note, align: int): seq<byte>
    requires align == 4 || align == 8
  {
    Padded(UnpaddedNote(n, align), align)
  }

  function NotesBytes(notes: seq<Note>, align: int): seq<byte>
    requires align == 4 || align == 8
  {
    if notes == [] then [] else NotesBytes(notes[..|notes| - 1], align) + NoteBytes(notes[|notes| - 1], align)
  }

  /** Where note `i` starts, seen from the section's start. */
  function NoteStart(notes: seq<Note>, align: int, i: nat): nat
    requires (align == 4 || align == 8) && i <= |notes|
  {
    |NotesBytes(notes[..i], align)|
  }

  lemma NextStart(notes: seq<Note>, align: int, i: nat)
    requires (align == 4 || align == 8) && i < |notes|
    ensures NotesBytes(notes[..i + 1], align) == NotesBytes(notes[..i], align) + NoteBytes(notes[i], align)
    ensures NoteStart(notes, align, i + 1) == NoteStart(notes, align, i) + |NoteBytes(notes[i], align)|
  {
    assert notes[..i + 1][..i] == notes[..i];
  }

  lemma {:induction false} HoldsFront(file: File, at: nat, notes: seq<Note>, align: int, n: nat, m: nat)
    requires (align == 4 || align == 8) && n <= m <= |notes| && Holds(file, at, NotesBytes(notes[..m], align))
    ensures Holds(file, at, NotesBytes(notes[..n], align))
    decreases m
  {
    if n < m {
      NextStart(notes, align, m - 1);
      HoldsBoth(file, at, NotesBytes(notes[..m - 1], align), NoteBytes(notes[m - 1], align));
      HoldsFront(file, at, notes, align, n, m - 1);
    }
  }

  /** Every note stands where it starts. */
  lemma HoldsNote(file: File, at: nat, notes: seq<Note>, align: int, i: nat)
    requires (align == 4 || align == 8) && i < |notes| && Holds(file, at, NotesBytes(notes[..|notes|], align))
    ensures Holds(file, at + NoteStart(notes, align, i), NoteBytes(notes[i], align))
  {
    HoldsFront(file, at, notes, align, i + 1, |notes|);
    NextStart(notes, align, i);
    HoldsBehind(file, at, NotesBytes(notes[..i + 1], align), NotesBytes(notes[..i], align), NoteBytes(notes[i], align));
  }

  lemma HoldsBehind(file: File, at: nat, whole: seq<byte>, front: seq<byte>, behind: seq<byte>)
    requires Holds(file, at, whole) && whole == front + behind
    ensures Holds(file, at + |front|, behind)
  {
    HoldsBoth(file, at, front, behind);
  }

  lemma LaidHeader(n: Note)
    ensures |Laid(NoteHeader(n))| == 12
  {
    var fields := NoteHeader(n);
    assert |Laid(fields[3..])| == 0;
    assert fields[2..][1..] == fields[3..] && |Laid(fields[2..])| == 4;
    assert fields[1..][1..] == fields[2..] && |Laid(fields[1..])| == 8;
  }

  /** The header's numbers of a note that stands at `at`. */
  lemma NoteNumbers(file: File, at: nat, n: Note, align: int)
    requires (align == 4 || align == 8) && Fits(NoteHeader(n)) && Holds(file, at, NoteBytes(n, align))
    ensures at + 12 <= |file| && Word32(file, at) as int == |n.name| && Word32(file, at + 4) as int == |n.desc|
  {
    LaidHeader(n);
    HeaderInFront(n, align);
    HoldsPrefix(file, at, Laid(NoteHeader(n)), NoteBytes(n, align));
    FieldReadsBack(file, at, NoteHeader(n), 0, at, at + 4);
    FieldReadsBack(file, at, NoteHeader(n), 1, at + 4, at + 8);
    Word32IsValue(file, at);
    Word32IsValue(file, at + 4);
  }

  lemma HeaderInFront(n: Note, align: int)
    requires align == 4 || align == 8
    ensures Laid(NoteHeader(n)) <= NoteBytes(n, align)
  {
    assert Laid(NoteHeader(n)) <= Padded(Laid(NoteHeader(n)) + n.name, align) <= UnpaddedNote(n, align);
  }

  lemma HoldsPrefix(file: File, at: nat, front: seq<byte>, bytes: seq<byte>)
    requires Holds(file, at, bytes) && front <= bytes
    ensures Holds(file, at, front)
  {
    assert bytes == front + bytes[|front|..];
    HoldsBoth(file, at, front, bytes[|front|..]);
  }

  /** Where the reader finds the end of a note's descriptor, and the next note, from its two numbers. */
  lemma FromNumbers(file: File, r: Range, align: int, p: int, name: int, desc: int, end: int, next: int)
    requires (align == 4 || align == 8) && Inside(r, file) && HeaderInside(r, p)
    requires Word32(file, r.offset as int + p) as int == name && Word32(file, r.offset as int + p + 4) as int == desc
    requires end == Up(12 + name, align) + desc && next == Up(end, align)
    ensures DescEnd(file, r, align, p) == p + end && NextNote(file, r, align, p) == p + next
  {
  }

  /** The reader finds them where they were written. */
  lemma NoteReadsBack(file: File, r: Range, align: int, n: Note, p: nat)
    requires (align == 4 || align == 8) && Inside(r, file) && HeaderInside(r, p) && Fits(NoteHeader(n))
    requires Holds(file, r.offset as int + p, NoteBytes(n, align))
    ensures DescEnd(file, r, align, p) == p + |UnpaddedNote(n, align)|
    ensures NextNote(file, r, align, p) == p + |NoteBytes(n, align)|
  {
    NoteNumbers(file, r.offset as int + p, n, align);
    LaidHeader(n);
    FromNumbers(file, r, align, p, |n.name|, |n.desc|, |UnpaddedNote(n, align)|, |NoteBytes(n, align)|);
  }

  // ---------- notes listed by where they start and end ----------

  /** Note `i` starts and ends there, as far as the section has its header. */
  predicate ListedAt(file: File, r: Range, align: int, starts: seq<nat>, ends: seq<nat>, i: nat)
    requires (align == 4 || align == 8) && Inside(r, file) && i < |ends| < |starts|
  {
    HeaderInside(r, starts[i]) ==>
      DescEnd(file, r, align, starts[i]) == ends[i] && NextNote(file, r, align, starts[i]) == starts[i + 1]
  }

  /** All the notes of a section, up to where no header fits any more. */
  ghost predicate Listed(file: File, r: Range, align: int, starts: seq<nat>, ends: seq<nat>)
    requires (align == 4 || align == 8) && Inside(r, file)
  {
    && |starts| == |ends| + 1 && starts[0] == 0 && !HeaderInside(r, starts[|ends|])
    && (forall i, j | 0 <= i < j < |starts| :: starts[i] <= starts[j])
    && forall i | 0 <= i < |ends| :: ListedAt(file, r, align, starts, ends, i)
  }

  lemma {:induction false} WalkMeets(file: File, r: Range, align: int, starts: seq<nat>, ends: seq<nat>, walk: seq<int>,
                                     i: nat)
    requires (align == 4 || align == 8) && Inside(r, file) && Listed(file, r, align, starts, ends)
    requires Walk(file, r, align, walk) && i < |walk|
    ensures i < |ends| && walk[i] == starts[i]
  {
    if i > 0 {
      WalkMeets(file, r, align, starts, ends, walk, i - 1);
      assert ListedAt(file, r, align, starts, ends, i - 1);
    }
    assert HeaderInside(r, walk[i]);
  }

  lemma StartsAreWalked(file: File, r: Range, align: int, starts: seq<nat>, ends: seq<nat>, n: nat)
    requires (align == 4 || align == 8) && Inside(r, file) && Listed(file, r, align, starts, ends)
    requires n < |ends| && HeaderInside(r, starts[n])
    ensures Walk(file, r, align, starts[..n + 1])
  {
    var walk := starts[..n + 1];
    forall i | 0 < i < |walk|
      ensures walk[i] == NextNote(file, r, align, walk[i - 1])
    {
      assert ListedAt(file, r, align, starts, ends, i - 1);
    }
  }

  /** The reader finds a section good exactly if every note whose header is in it ends in it. */
  lemma NotesInsideIff(file: File, r: Range, align: int, starts: seq<nat>, ends: seq<nat>)
    requires (align == 4 || align == 8) && Inside(r, file) && Listed(file, r, align, starts, ends)
    ensures NotesInside(file, r, align)
            <==> forall i | 0 <= i < |ends| && starts[i] + 12 <= r.size as int :: ends[i] <= r.size as int
  {
    if forall i | 0 <= i < |ends| && starts[i] + 12 <= r.size as int :: ends[i] <= r.size as int {
      forall walk, i | Walk(file, r, align, walk) && 0 <= i < |walk|
        ensures DescEnd(file, r, align, walk[i]) <= r.size as int
      {
        WalkMeets(file, r, align, starts, ends, walk, i);
        assert ListedAt(file, r, align, starts, ends, i);
      }
    }
    if NotesInside(file, r, align) {
      forall i | 0 <= i < |ends| && starts[i] + 12 <= r.size as int
        ensures ends[i] <= r.size as int
      {
        StartsAreWalked(file, r, align, starts, ends, i);
        assert DescEnd(file, r, align, starts[..i + 1][i]) <= r.size as int;
        assert ListedAt(file, r, align, starts, ends, i);
      }
    }
  }

  // ---------- a written section of notes ----------

  /** These notes stand in the file from the section's start on, at least as far as the section goes. */
  predicate NotesStand(file: File, r: Range, align: int, notes: seq<Note>)
    requires align == 4 || align == 8
  {
    && Inside(r, file) && (forall i | 0 <= i < |notes| :: Fits(NoteHeader(notes[i])))
    && Holds(file, r.offset as int, NotesBytes(notes[..|notes|], align))
    && r.size as int <= NoteStart(notes, align, |notes|)
  }

  function Starts(notes: seq<Note>, align: int): (starts: seq<nat>)
    requires align == 4 || align == 8
    ensures |starts| == |notes| + 1 && forall i | 0 <= i <= |notes| :: starts[i] == NoteStart(notes, align, i)
  {
    seq(|notes| + 1, i requires 0 <= i <= |notes| => NoteStart(notes, align, i))
  }

  /** Where each note's descriptor ends, seen from the section's start. */
  function Ends(notes: seq<Note>, align: int): (ends: seq<nat>)
    requires align == 4 || align == 8
    ensures |ends| == |notes|
    ensures forall i | 0 <= i < |notes| ::
              ends[i] == NoteStart(notes, align, i) + |UnpaddedNote(notes[i], align)|
  {
    seq(|notes|, i requires 0 <= i < |notes| => NoteStart(notes, align, i) + |UnpaddedNote(notes[i], align)|)
  }

  lemma {:induction false} LaterStarts(notes: seq<Note>, align: int, i: nat, j: nat)
    requires (align == 4 || align == 8) && i <= j <= |notes|
    ensures NoteStart(notes, align, i) <= NoteStart(notes, align, j)
    decreases j
  {
    if i < j {
      LaterStarts(notes, align, i, j - 1);
      NextStart(notes, align, j - 1);
    }
  }

  lemma OneIsListed(file: File, r: Range, align: int, notes: seq<Note>, i: nat, p: nat)
    requires (align == 4 || align == 8) && NotesStand(file, r, align, notes) && i < |notes|
    requires p == NoteStart(notes, align, i) && HeaderInside(r, p)
    ensures DescEnd(file, r, align, p) == p + |UnpaddedNote(notes[i], align)|
    ensures NextNote(file, r, align, p) == NoteStart(notes, align, i + 1)
  {
    HoldsNote(file, r.offset as int, notes, align, i);
    NextStart(notes, align, i);
    NoteReadsBack(file, r, align, notes[i], p);
  }

  lemma StartsAscend(notes: seq<Note>, align: int)
    requires align == 4 || align == 8
    ensures forall i, j | 0 <= i < j <= |notes| :: Starts(notes, align)[i] <= Starts(notes, align)[j]
  {
    forall i, j | 0 <= i < j <= |notes|
      ensures Starts(notes, align)[i] <= Starts(notes, align)[j]
    {
      LaterStarts(notes, align, i, j);
    }
  }

  lemma WrittenIsListed(file: File, r: Range, align: int, notes: seq<Note>)
    requires (align == 4 || align == 8) && NotesStand(file, r, align, notes)
    ensures Listed(file, r, align, Starts(notes, align), Ends(notes, align))
  {
    var starts, ends := Starts(notes, align), Ends(notes, align);
    StartsAscend(notes, align);
    forall i | 0 <= i < |ends|
      ensures ListedAt(file, r, align, starts, ends, i)
    {
      if HeaderInside(r, starts[i]) {
        OneIsListed(file, r, align, notes, i, starts[i]);
      }
    }
  }

  /** Every note whose header is in a section of this size is in it as far as its descriptor goes. */
  predicate NotesFit(notes: seq<Note>, align: int, size: int)
    requires align == 4 || align == 8
  {
    forall i | 0 <= i < |notes| && NoteStart(notes, align, i) + 12 <= size ::
      NoteStart(notes, align, i) + |UnpaddedNote(notes[i], align)| <= size
  }

  /** The alignment of a section's notes: 8 where it says so, and 4 in every other case. */
  function AlignOf(addralign: int): int { if addralign == 8 then 8 else 4 }

  /**
  What the check asks of a notes section, in terms of the notes that are written there, of which the section may cut off
  the end: it is empty, or has room for a header, can be mapped, and every note whose header is in it is in it.
  */
  lemma WrittenNotesOkIff(file: File, s: Shdr, notes: seq<Note>, maps: Range -> bool)
    requires NotesStand(file, Range(s.offset, s.size), AlignOf(s.addralign as int), notes)
    ensures NotesOk(file, s, maps)
            <==> s.size == 0
                 || (s.size >= 12 && maps(Range(s.offset, s.size))
                     && NotesFit(notes, AlignOf(s.addralign as int), s.size as int))
  {
    var align := AlignOf(s.addralign as int);
    WrittenIsListed(file, Range(s.offset, s.size), align, notes);
    NotesInsideIff(file, Range(s.offset, s.size), align, Starts(notes, align), Ends(notes, align));
    FitIffEnds(notes, align, s.size as int);
  }

  lemma FitIffEnds(notes: seq<Note>, align: int, size: int)
    requires align == 4 || align == 8
    ensures NotesFit(notes, align, size)
            <==> forall i | 0 <= i < |Ends(notes, align)| && Starts(notes, align)[i] + 12 <= size ::
                   Ends(notes, align)[i] <= size
  {
    var starts, ends := Starts(notes, align), Ends(notes, align);
    assert forall i | 0 <= i < |notes| :: starts[i] == NoteStart(notes, align, i);
    assert forall i | 0 <= i < |notes| :: ends[i] == NoteStart(notes, align, i) + |UnpaddedNote(notes[i], align)|;
  }

  /** A section of whole notes is good. */
  lemma WholeNotesFit(notes: seq<Note>, align: int)
    requires align == 4 || align == 8
    ensures NotesFit(notes, align, NoteStart(notes, align, |notes|))
  {
    forall i | 0 <= i < |notes|
      ensures NoteStart(notes, align, i) + |UnpaddedNote(notes[i], align)| <= NoteStart(notes, align, |notes|)
    {
      NextStart(notes, align, i);
      LaterStarts(notes, align, i + 1, |notes|);
    }
  }
}
