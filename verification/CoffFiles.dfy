/** The whole file, and reading the records back from its bytes. */
module CoffFiles {
  import opened Options
  import opened LittleEndians
  import opened Objects
  import opened CoffFormat
  import opened CoffBytes

  // ---------------------------------------------------------------------------------------
  // The layout of the file
  // ---------------------------------------------------------------------------------------

  // The bytes of each section, with its relocations after them
  function ContentPieces(sections: seq<CoffSection>, n: nat): (pieces: seq<seq<int>>)
    requires n <= |sections|
    ensures |pieces| == n
    decreases n
  {
    if n == 0 then [] else ContentPieces(sections, n - 1) + [sections[n - 1].bytes + AllRelocs(sections[n - 1].relocs)]
  }

  // Where a section is, or what is after the last one
  function DataAt(sections: seq<CoffSection>, s: nat): (at: nat)
    requires s <= |sections|
    ensures at > 0
  {
    HEADER_SIZE + SECTION_SIZE * |sections| + |Flat(Contents(sections), s)|
  }

  function SectionHeader(sections: seq<CoffSection>, s: nat): (bytes: seq<int>)
    requires s < |sections|
    ensures |bytes| == SECTION_SIZE
  {
    HeaderBytes(NameField(SectionName(s), 0), HeaderOf(sections[s], DataAt(sections, s)))
  }

  function HeaderPieces(sections: seq<CoffSection>, n: nat): (pieces: seq<seq<int>>)
    requires n <= |sections|
    ensures |pieces| == n
    decreases n
  {
    if n == 0 then [] else HeaderPieces(sections, n - 1) + [SectionHeader(sections, n - 1)]
  }

  function Contents(sections: seq<CoffSection>): (pieces: seq<seq<int>>)
    ensures |pieces| == |sections|
  {
    ContentPieces(sections, |sections|)
  }

  function Headers(sections: seq<CoffSection>): (pieces: seq<seq<int>>)
    ensures |pieces| == |sections|
  {
    HeaderPieces(sections, |sections|)
  }

  lemma {:induction false} ContentPiece(sections: seq<CoffSection>, n: nat, s: nat)
    requires s < n <= |sections|
    ensures ContentPieces(sections, n)[s] == sections[s].bytes + AllRelocs(sections[s].relocs)
    decreases n
  {
    if s < n - 1 {
      ContentPiece(sections, n - 1, s);
    }
  }

  lemma {:induction false} HeaderPiece(sections: seq<CoffSection>, n: nat, s: nat)
    requires s < n <= |sections|
    ensures HeaderPieces(sections, n)[s] == SectionHeader(sections, s)
    decreases n
  {
    hide SectionHeader;
    if s < n - 1 {
      HeaderPiece(sections, n - 1, s);
    }
  }

  function FileHeader(sectionCount: int, symbolsAt: int, symbolCount: int): (bytes: seq<int>)
    ensures |bytes| == HEADER_SIZE
  {
    LittleEndian(MACHINE, 2) + (LittleEndian(sectionCount, 2) + (LittleEndian(0, 4) + (LittleEndian(symbolsAt, 4) +
      (LittleEndian(symbolCount, 4) + (LittleEndian(0, 2) + LittleEndian(0, 2))))))
  }

  function AfterHeaders(file: CoffFile): seq<int>
    requires HaveNames(file.symbols)
  {
    Flat(Contents(file.sections), |file.sections|) + (AllSymbols(file.symbols) + file.strings)
  }

  function Encode(file: CoffFile): seq<int>
    requires HaveNames(file.symbols)
  {
    FileHeader(|file.sections|, DataAt(file.sections, |file.sections|), |file.symbols|) +
      (Flat(Headers(file.sections), |file.sections|) + AfterHeaders(file))
  }

  function SectionsAt(all: seq<int>, at: nat, n: nat): (sections: seq<CoffSection>)
    ensures |sections| == n
    decreases n
  {
    if n == 0 then [] else SectionsAt(all, at, n - 1) + [SectionFrom(all, HeaderAt(all, at + SECTION_SIZE * (n - 1)))]
  }

  function FileFrom(all: seq<int>, sectionCount: nat, symbolsAt: nat, symbolCount: nat, headersAt: nat): CoffFile {
    var stringsAt := symbolsAt + SYMBOL_SIZE * symbolCount;
    CoffFile(SectionsAt(all, headersAt, sectionCount), SymbolsAt(all, symbolsAt, symbolCount), if stringsAt <= |all| then all[stringsAt..] else [])
  }

  function Decode(all: seq<int>): Option<CoffFile> {
    if |all| < HEADER_SIZE || NumberAt(all, 0, 2) != MACHINE then None
    else Some(FileFrom(all, NumberAt(all, 2, 2), NumberAt(all, 8, 4), NumberAt(all, 12, 4), HEADER_SIZE + NumberAt(all, 16, 2)))
  }

  // Every number fits in its field; the offsets do when the file is smaller than 4 gigabytes.
  predicate CanWrite(file: CoffFile) {
    && IsU16(|file.sections|)
    && CanWriteSections(file.sections)
    && HaveNames(file.symbols)
    && CanWriteSymbols(file.symbols)
    && IsU32(DataAt(file.sections, |file.sections|)) && IsU32(|file.symbols|)
  }

  // ---------------------------------------------------------------------------------------
  // Reading it back
  // ---------------------------------------------------------------------------------------

  lemma HeaderFields(all: seq<int>, sectionCount: int, symbolsAt: int, symbolCount: int)
    requires At(all, 0, FileHeader(sectionCount, symbolsAt, symbolCount)) && IsU16(sectionCount) && IsU32(symbolsAt) && IsU32(symbolCount)
    ensures NumberAt(all, 0, 2) == MACHINE && NumberAt(all, 2, 2) == sectionCount
    ensures NumberAt(all, 8, 4) == symbolsAt && NumberAt(all, 12, 4) == symbolCount && NumberAt(all, 16, 2) == 0
  {
    var r5 := LittleEndian(0, 2) + LittleEndian(0, 2);
    var r4 := LittleEndian(symbolCount, 4) + r5;
    var r3 := LittleEndian(symbolsAt, 4) + r4;
    var r2 := LittleEndian(0, 4) + r3;
    PairAt(all, 0, LittleEndian(MACHINE, 2), LittleEndian(sectionCount, 2) + r2);
    PairAt(all, 2, LittleEndian(sectionCount, 2), r2);
    PairAt(all, 4, LittleEndian(0, 4), r3);
    PairAt(all, 8, LittleEndian(symbolsAt, 4), r4);
    PairAt(all, 12, LittleEndian(symbolCount, 4), r5);
    PairAt(all, 16, LittleEndian(0, 2), LittleEndian(0, 2));
    Ranges();
    NumberIsRead(all, 0, MACHINE, 2);
    NumberIsRead(all, 2, sectionCount, 2);
    NumberIsRead(all, 8, symbolsAt, 4);
    NumberIsRead(all, 12, symbolCount, 4);
    NumberIsRead(all, 16, 0, 2);
  }

  lemma {:induction false} FlatGrows(pieces: seq<seq<int>>, k: nat, n: nat)
    requires k <= n <= |pieces|
    ensures |Flat(pieces, k)| <= |Flat(pieces, n)|
    decreases n
  {
    if k < n {
      FlatGrows(pieces, k, n - 1);
    }
  }

  lemma HeaderInFile(all: seq<int>, pieces: seq<seq<int>>, s: nat, name: seq<int>, h: Header, at: nat)
    requires s < |pieces| && HaveSize(pieces, SECTION_SIZE) && At(all, at, Flat(pieces, |pieces|))
    requires |name| == 8 && pieces[s] == HeaderBytes(name, h) && CanWriteHeader(h)
    ensures HeaderAt(all, at + SECTION_SIZE * s) == h
  {
    hide HeaderBytes, HeaderAt, Flat, At;
    PieceInside(all, at, pieces, SECTION_SIZE, s);
    HeaderIsRead(all, at + SECTION_SIZE * s, name, h);
  }

  lemma PlacesInFile(all: seq<int>, at: nat, pieces: seq<seq<int>>, s: nat, bytes: seq<int>, relocBytes: seq<int>)
    requires s < |pieces| && At(all, at, Flat(pieces, |pieces|)) && pieces[s] == bytes + relocBytes
    ensures At(all, at + |Flat(pieces, s)|, bytes) && At(all, at + |Flat(pieces, s)| + |bytes|, relocBytes)
  {
    PieceInFlat(pieces, |pieces|, s);
    PieceAt(all, at, Flat(pieces, |pieces|), |Flat(pieces, s)|, bytes + relocBytes);
    PairAt(all, at + |Flat(pieces, s)|, bytes, relocBytes);
  }

  lemma SectionInFile(all: seq<int>, section: CoffSection, s: nat, headers: seq<seq<int>>, name: seq<int>, contents: seq<seq<int>>, at: nat,
                      dataAt: nat, relocBytes: seq<int>)
    requires s < |headers| == |contents| && CanWriteSection(section) && relocBytes == AllRelocs(section.relocs)
    requires HaveSize(headers, SECTION_SIZE) && At(all, HEADER_SIZE, Flat(headers, |headers|))
    requires |name| == 8 && headers[s] == HeaderBytes(name, HeaderOf(section, dataAt)) && CanWriteHeader(HeaderOf(section, dataAt))
    requires At(all, at, Flat(contents, |contents|)) && contents[s] == section.bytes + relocBytes && dataAt == at + |Flat(contents, s)| > 0
    ensures SectionFrom(all, HeaderAt(all, HEADER_SIZE + SECTION_SIZE * s)) == AsCounted(section)
  {
    hide HeaderBytes, HeaderAt, Flat, At, AllRelocs, SectionFrom, CanWriteHeader, HaveSize, CanWriteRelocs, LittleEndian;
    var h := HeaderOf(section, dataAt);
    HeaderInFile(all, headers, s, name, h, HEADER_SIZE);
    PlacesInFile(all, at, contents, s, section.bytes, relocBytes);
    SectionIsRead(all, section, dataAt, h, relocBytes);
  }

  lemma HeaderCanBeWritten(section: CoffSection, contents: seq<seq<int>>, s: nat, at: nat, relocBytes: seq<int>)
    requires s < |contents| && contents[s] == section.bytes + relocBytes && CanWriteSection(section) && IsU32(at + |Flat(contents, |contents|)|)
    ensures CanWriteHeader(HeaderOf(section, at + |Flat(contents, s)|))
  {
    FlatGrows(contents, s + 1, |contents|);
    Ranges();
  }

  lemma HeadersHaveSize(sections: seq<CoffSection>)
    ensures HaveSize(Headers(sections), SECTION_SIZE)
  {
    forall s | 0 <= s < |sections|
      ensures |Headers(sections)[s]| == SECTION_SIZE
    {
      HeaderPiece(sections, |sections|, s);
    }
  }

  lemma SectionThere(all: seq<int>, sections: seq<CoffSection>, s: nat, headers: seq<seq<int>>, contents: seq<seq<int>>, at: nat, relocBytes: seq<int>)
    requires s < |sections| && CanWriteSection(sections[s]) && IsU32(at + |Flat(contents, |contents|)|) && at == HEADER_SIZE + SECTION_SIZE * |sections|
    requires headers == Headers(sections) && At(all, HEADER_SIZE, Flat(headers, |headers|)) && HaveSize(headers, SECTION_SIZE)
    requires contents == Contents(sections) && At(all, at, Flat(contents, |contents|)) && relocBytes == AllRelocs(sections[s].relocs)
    ensures SectionFrom(all, HeaderAt(all, HEADER_SIZE + SECTION_SIZE * s)) == AsCounted(sections[s])
  {
    hide HeaderBytes, HeaderAt, Flat, At, AllRelocs, SectionFrom, CanWriteSection, CanWriteHeader, HaveSize, HeaderOf, NameField, SectionName, IsU32, HeaderPieces, ContentPieces;
    HeaderPiece(sections, |sections|, s);
    ContentPiece(sections, |sections|, s);
    HeaderCanBeWritten(sections[s], contents, s, at, relocBytes);
    SectionInFile(all, sections[s], s, headers, NameField(SectionName(s), 0), contents, at, DataAt(sections, s), relocBytes);
  }

  predicate CanWriteSections(sections: seq<CoffSection>) {
    forall s :: 0 <= s < |sections| ==> CanWriteSection(sections[s])
  }

  lemma {:induction false} SectionsAreRead(all: seq<int>, sections: seq<CoffSection>, headers: seq<seq<int>>, contents: seq<seq<int>>, at: nat, n: nat)
    requires IsU32(at + |Flat(contents, |contents|)|) && at == HEADER_SIZE + SECTION_SIZE * |sections| && n <= |sections|
    requires CanWriteSections(sections) && HaveSize(headers, SECTION_SIZE)
    requires headers == Headers(sections) && At(all, HEADER_SIZE, Flat(headers, |headers|))
    requires contents == Contents(sections) && At(all, at, Flat(contents, |contents|))
    ensures SectionsAt(all, HEADER_SIZE, n) == AllCounted(sections, n)
    decreases n
  {
    hide HeaderBytes, HeaderAt, Flat, At, SectionFrom, AllRelocs, HaveSize, Headers, Contents, IsU32;
    if n > 0 {
      SectionsAreRead(all, sections, headers, contents, at, n - 1);
      SectionThere(all, sections, n - 1, headers, contents, at, AllRelocs(sections[n - 1].relocs));
    }
  }

  lemma SymbolsThere(all: seq<int>, symbols: seq<CoffSymbol>, at: nat, bytes: seq<int>)
    requires HaveNames(symbols) && bytes == AllSymbols(symbols) && At(all, at, bytes) && CanWriteSymbols(symbols)
    ensures SymbolsAt(all, at, |symbols|) == symbols && |bytes| == SYMBOL_SIZE * |symbols|
  {
    SymbolsHaveSize(symbols, |symbols|);
    FlatSize(SymbolPieces(symbols, |symbols|), SYMBOL_SIZE, |symbols|);
    SymbolsAreRead(all, at, symbols);
  }

  lemma FourParts(all: seq<int>, a: seq<int>, b: seq<int>, c: seq<int>, d: seq<int>, e: seq<int>)
    requires all == a + (b + (c + (d + e)))
    ensures At(all, 0, a) && At(all, |a|, b) && At(all, |a| + |b|, c) && At(all, |a| + |b| + |c|, d)
    ensures |a| + |b| + |c| + |d| <= |all| && all[|a| + |b| + |c| + |d|..] == e
  {
    PrefixAt(all, all);
    PairAt(all, 0, a, b + (c + (d + e)));
    PairAt(all, |a|, b, c + (d + e));
    PairAt(all, |a| + |b|, c, d + e);
    PairAt(all, |a| + |b| + |c|, d, e);
  }

  lemma FileFromParts(all: seq<int>, symbolsAt: nat, file: CoffFile)
    requires SectionsAt(all, HEADER_SIZE, |file.sections|) == AllCounted(file.sections, |file.sections|)
    requires SymbolsAt(all, symbolsAt, |file.symbols|) == file.symbols
    requires symbolsAt + SYMBOL_SIZE * |file.symbols| <= |all| && all[symbolsAt + SYMBOL_SIZE * |file.symbols|..] == file.strings
    ensures FileFrom(all, |file.sections|, symbolsAt, |file.symbols|, HEADER_SIZE) == CountedFile(file)
  {
  }

  lemma PartsAreRead(all: seq<int>, file: CoffFile, headers: seq<seq<int>>, contents: seq<seq<int>>, symbolsAt: nat, symbols: seq<int>)
    requires CanWrite(file) && headers == Headers(file.sections) && contents == Contents(file.sections)
    requires symbols == AllSymbols(file.symbols) && symbolsAt == DataAt(file.sections, |file.sections|)
    requires At(all, HEADER_SIZE, Flat(headers, |headers|)) && At(all, HEADER_SIZE + SECTION_SIZE * |file.sections|, Flat(contents, |contents|))
    requires At(all, symbolsAt, symbols) && symbolsAt + |symbols| <= |all| && all[symbolsAt + |symbols|..] == file.strings
    ensures FileFrom(all, |file.sections|, symbolsAt, |file.symbols|, HEADER_SIZE) == CountedFile(file)
  {
    hide HeaderBytes, HeaderAt, Flat, At, SectionFrom, AllRelocs, AllSymbols, HaveSize, HeaderPieces, ContentPieces, CanWriteSections, CanWriteSymbols, HaveNames, FileFrom, CountedFile, SectionsAt, SymbolsAt, AllCounted;
    HeadersHaveSize(file.sections);
    SectionsAreRead(all, file.sections, headers, contents, HEADER_SIZE + SECTION_SIZE * |file.sections|, |file.sections|);
    SymbolsThere(all, file.symbols, symbolsAt, symbols);
    FileFromParts(all, symbolsAt, file);
  }

  lemma FileIsRead(all: seq<int>, file: CoffFile, header: seq<int>, headers: seq<int>, contents: seq<int>, symbolsAt: nat, symbols: seq<int>)
    requires CanWrite(file) && headers == Flat(Headers(file.sections), |file.sections|) && contents == Flat(Contents(file.sections), |file.sections|)
    requires symbols == AllSymbols(file.symbols) && symbolsAt == DataAt(file.sections, |file.sections|)
    requires header == FileHeader(|file.sections|, symbolsAt, |file.symbols|)
    requires all == header + (headers + (contents + (symbols + file.strings)))
    ensures Decode(all) == Some(CountedFile(file))
  {
    hide At, AllSymbols, Headers, Contents, FileHeader, NumberAt, FileFrom, HaveSize, Flat, CanWriteSections, CanWriteSymbols;
    HeadersHaveSize(file.sections);
    FlatSize(Headers(file.sections), SECTION_SIZE, |file.sections|);
    FourParts(all, header, headers, contents, symbols, file.strings);
    HeaderFields(all, |file.sections|, symbolsAt, |file.symbols|);
    PartsAreRead(all, file, Headers(file.sections), Contents(file.sections), symbolsAt, symbols);
  }

  // The bytes of the file give its records back, but for relocations that the headers do not count.
  lemma FileIsDecoded(file: CoffFile)
    requires CanWrite(file)
    ensures Decode(Encode(file)) == Some(CountedFile(file))
  {
    var sections, n := file.sections, |file.sections|;
    FileIsRead(Encode(file), file, FileHeader(n, DataAt(sections, n), |file.symbols|), Flat(Headers(sections), n), Flat(Contents(sections), n),
               DataAt(sections, n), AllSymbols(file.symbols));
  }

  // ---------------------------------------------------------------------------------------
  // The writer and the reader
  // ---------------------------------------------------------------------------------------

  method WriteRelocs(relocs: seq<CoffReloc>) returns (bytes: seq<int>)
    ensures bytes == AllRelocs(relocs)
  {
    bytes := [];
    for k := 0 to |relocs|
      invariant bytes == Flat(RelocPieces(relocs, k), k)
    {
      bytes := bytes + RelocBytes(relocs[k]);
      NextPiece(RelocPieces(relocs, k), RelocBytes(relocs[k]));
    }
  }

  method WriteSymbols(symbols: seq<CoffSymbol>) returns (bytes: seq<int>)
    requires HaveNames(symbols)
    ensures bytes == AllSymbols(symbols)
  {
    bytes := [];
    for k := 0 to |symbols|
      invariant bytes == Flat(SymbolPieces(symbols, k), k)
    {
      bytes := bytes + SymbolBytes(symbols[k]);
      NextPiece(SymbolPieces(symbols, k), SymbolBytes(symbols[k]));
    }
  }

  lemma {:induction false} SamePieces(pieces: seq<seq<int>>, more: seq<seq<int>>, n: nat)
    requires n <= |pieces|
    ensures Flat(pieces + more, n) == Flat(pieces, n)
    decreases n
  {
    if n > 0 {
      SamePieces(pieces, more, n - 1);
    }
  }

  lemma NextPiece(pieces: seq<seq<int>>, piece: seq<int>)
    ensures Flat(pieces + [piece], |pieces| + 1) == Flat(pieces, |pieces|) + piece
  {
    SamePieces(pieces, [piece], |pieces|);
  }

  // Writes the headers first, so it adds up where everything goes.
  method WriteFile(file: CoffFile) returns (o: seq<int>)
    requires HaveNames(file.symbols)
    ensures o == Encode(file)
  {
    hide HeaderBytes, HeaderOf, NameField, SectionName, AllRelocs, AllSymbols, FileHeader, LittleEndian;
    var at := HEADER_SIZE + SECTION_SIZE * |file.sections|;
    var headers, contents: seq<int> := [], [];
    for s := 0 to |file.sections|
      invariant contents == Flat(ContentPieces(file.sections, s), s)
      invariant headers == Flat(HeaderPieces(file.sections, s), s)
      invariant at == HEADER_SIZE + SECTION_SIZE * |file.sections| + |contents|
    {
      var section := file.sections[s];
      ContentUpTo(file.sections, s, |file.sections|);
      headers := headers + HeaderBytes(NameField(SectionName(s), 0), HeaderOf(section, at));
      NextPiece(HeaderPieces(file.sections, s), SectionHeader(file.sections, s));
      var relocs := WriteRelocs(section.relocs);
      contents := contents + (section.bytes + relocs);
      NextPiece(ContentPieces(file.sections, s), section.bytes + relocs);
      at := at + |section.bytes| + |relocs|;
    }
    var symbols := WriteSymbols(file.symbols);
    o := FileHeader(|file.sections|, at, |file.symbols|) + (headers + (contents + (symbols + file.strings)));
  }

  // What is before a section does not depend on what comes after it.
  lemma {:induction false} ContentUpTo(sections: seq<CoffSection>, s: nat, n: nat)
    requires s <= n <= |sections|
    ensures Flat(ContentPieces(sections, n), s) == Flat(ContentPieces(sections, s), s)
    decreases n
  {
    hide AllRelocs, Flat;
    if s < n {
      ContentUpTo(sections, s, n - 1);
      SamePieces(ContentPieces(sections, n - 1), [sections[n - 1].bytes + AllRelocs(sections[n - 1].relocs)], s);
    }
  }

  method ReadSymbols(all: seq<int>, at: nat, count: nat) returns (symbols: seq<CoffSymbol>)
    ensures symbols == SymbolsAt(all, at, count)
  {
    hide SymbolAt;
    symbols := [];
    for k := 0 to count
      invariant symbols == SymbolsAt(all, at, k)
    {
      symbols := symbols + [SymbolAt(all, at + SYMBOL_SIZE * k)];
    }
  }

  method ReadRelocs(all: seq<int>, at: nat, count: nat) returns (relocs: seq<CoffReloc>)
    ensures relocs == RelocsAt(all, at, count)
  {
    hide RelocAt;
    relocs := [];
    for k := 0 to count
      invariant relocs == RelocsAt(all, at, k)
    {
      relocs := relocs + [RelocAt(all, at + RELOC_SIZE * k)];
    }
  }

  method ReadFile(all: seq<int>) returns (file: Option<CoffFile>)
    ensures file == Decode(all)
  {
    hide NumberAt, HeaderAt, ContentsAt, RelocsAt, SymbolsAt, FlagsFrom;
    if |all| < HEADER_SIZE || NumberAt(all, 0, 2) != MACHINE {
      return None;
    }
    var sectionCount, symbolsAt, symbolCount := NumberAt(all, 2, 2), NumberAt(all, 8, 4), NumberAt(all, 12, 4);
    var headersAt := HEADER_SIZE + NumberAt(all, 16, 2);
    var sections := [];
    for s := 0 to sectionCount
      invariant sections == SectionsAt(all, headersAt, s)
    {
      var h := HeaderAt(all, headersAt + SECTION_SIZE * s);
      var relocs := ReadRelocs(all, h.relocAt, h.relocCount);
      sections := sections + [CoffSection(h.size, ContentsAt(all, h.dataAt, h.size), relocs, h.relocCount, FlagsFrom(h.flags))];
    }
    var symbols := ReadSymbols(all, symbolsAt, symbolCount);
    var stringsAt := symbolsAt + SYMBOL_SIZE * symbolCount;
    file := Some(CoffFile(sections, symbols, if stringsAt <= |all| then all[stringsAt..] else []));
  }
}
