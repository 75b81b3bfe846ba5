/** The round trip through the bytes of a file. */
module CoffRoundTripBytes {
  import opened Options
  import opened LittleEndians
  import opened Objects
  import opened CoffFormat
  import opened CoffWriter
  import opened CoffReader
  import opened CoffRoundTrip
  import opened CoffLinked
  import opened CoffLimits
  import opened CoffBytes
  import CoffFiles

  // ---------------------------------------------------------------------------------------
  // Through the bytes of the file
  // ---------------------------------------------------------------------------------------

  // The file is smaller than 4 gigabytes, and so is what the symbols say.
  predicate FitsInFile(obj: Object, file: CoffFile) {
    && IsU32(CoffFiles.DataAt(file.sections, |file.sections|)) && IsU32(|file.symbols|)
    && (forall i :: 0 <= i < |obj.symbols| ==> IsU32(obj.symbols[i].offset))
    && (forall s :: 0 <= s < |obj.sections| ==> IsU32(|obj.sections[s]|))
  }

  lemma {:induction false} SymbolsFit(obj: Object, n: nat)
    requires IsAssembled(obj) && n <= |obj.symbols| && forall i :: 0 <= i < |obj.symbols| ==> IsU32(obj.symbols[i].offset)
    ensures CanWriteSymbols(RecordsOf(obj.symbols, n))
    decreases n
  {
    Ranges();
    if n > 0 {
      SymbolsFit(obj, n - 1);
      assert ValidSymbol(obj.symbols[n - 1]);
    }
  }

  lemma RelocFits(obj: Object, i: nat, count: nat)
    requires IsAssembled(obj) && i < |obj.relocs| && IsU32(count) && count == |RecordsOf(obj.symbols, |obj.symbols|)|
    requires IsU32(|obj.sections[obj.relocs[i].section]|)
    ensures CanWriteReloc(RelocRecord(obj, i))
  {
    assert ValidReloc(obj.relocs[i]);
    TargetIsRecord(obj, i);
    Ranges();
  }

  lemma SectionFits(obj: Object, s: nat, alignment: nat, sections: Sections)
    requires IsAssembled(obj) && SameShape(obj.sections, sections) && s < SECTION_COUNT && alignment <= 0x8000_0000
    requires IsU32(|obj.sections[s]|) && IsU32(|RecordsOf(obj.symbols, |obj.symbols|)|)
    ensures CanWriteSection(WrittenSection(obj, s, alignment, sections))
  {
    hide RelocRecord, CanWriteReloc, IsResolved, Flags, Range, RecordsOf;
    var relocs, left := RelocRecords(obj, s, |obj.relocs|), LeftIn(obj, s, |obj.relocs|);
    forall k | 0 <= k < |relocs|
      ensures CanWriteReloc(relocs[k])
    {
      RelocFits(obj, left[k], |RecordsOf(obj.symbols, |obj.symbols|)|);
    }
    Ranges();
  }

  lemma FileFits(obj: Object, alignment: seq<nat>, sections: Sections)
    requires IsAssembled(obj) && SameShape(obj.sections, sections) && ValidAlignment(alignment)
    requires FitsInFile(obj, FileOf(obj, alignment, sections))
    ensures CoffFiles.CanWrite(FileOf(obj, alignment, sections))
  {
    SymbolsFit(obj, |obj.symbols|);
    forall s | 0 <= s < SECTION_COUNT
      ensures CanWriteSection(WrittenSection(obj, s, alignment[s], sections))
    {
      SectionFits(obj, s, alignment[s], sections);
    }
    Ranges();
  }

  // ---------------------------------------------------------------------------------------
  // What the reader never looks at
  // ---------------------------------------------------------------------------------------

  predicate CountsFit(file: CoffFile) {
    forall s :: 0 <= s < |file.sections| ==> file.sections[s].relocCount <= |file.sections[s].relocs|
  }

  lemma {:induction false} CountedIsPlaced(file: CoffFile, n: nat)
    requires n <= |file.sections|
    ensures PlacedUpTo(CountedFile(file), n) == PlacedUpTo(file, n)
    decreases n
  {
    if n > 0 {
      CountedIsPlaced(file, n - 1);
    }
  }

  lemma {:induction false} CountedSymbolsAreRead(file: CoffFile, p: Placing, i: nat, st: SymbolsRead)
    requires ValidNames(file) && |p.placedIn| == |p.placedAt|
    ensures ReadSymbolsFrom(CountedFile(file), p, i, st) == ReadSymbolsFrom(file, p, i, st)
    decreases |file.symbols| - i
  {
    if i < |file.symbols| {
      var read := ReadSymbol(file, p, i, st);
      assert ReadSymbol(CountedFile(file), p, i, st) == read;
      var aux := file.symbols[i].aux;
      CountedSymbolsAreRead(file, p, i + 1 + aux, read.(of := read.of + Skips(aux)));
    }
  }

  lemma {:induction false} CountedSectionIsRead(file: CoffFile, p: Placing, of: seq<int>, i: nat, k: nat)
    requires CountsFit(file) && i < |file.sections| == |p.placedIn| == |p.placedAt| && p.placedIn[i] >= 0 && k <= file.sections[i].relocCount
    ensures SectionRelocs(CountedFile(file), p, of, i, k) == SectionRelocs(file, p, of, i, k)
    decreases k
  {
    if k > 0 {
      CountedSectionIsRead(file, p, of, i, k - 1);
      assert CountedFile(file).sections[i].relocs[k - 1] == file.sections[i].relocs[k - 1];
    }
  }

  lemma {:induction false} CountedRelocsAreRead(file: CoffFile, p: Placing, of: seq<int>, n: nat)
    requires CountsFit(file) && n <= |file.sections| == |p.placedIn| == |p.placedAt|
    ensures RelocsUpTo(CountedFile(file), p, of, n) == RelocsUpTo(file, p, of, n)
    decreases n
  {
    if n > 0 {
      CountedRelocsAreRead(file, p, of, n - 1);
      if p.placedIn[n - 1] >= 0 {
        CountedSectionIsRead(file, p, of, n - 1, file.sections[n - 1].relocCount);
      }
    }
  }

  // A file is read by what its headers count.
  lemma CountedFileIsRead(file: CoffFile)
    requires ValidNames(file) && CountsFit(file)
    ensures ValidNames(CountedFile(file)) && ReadFile(CountedFile(file)) == ReadFile(file)
  {
    CountedIsPlaced(file, |file.sections|);
    var p := Placed(file);
    CountedSymbolsAreRead(file, p, 0, SymbolsRead([], []));
    var st := ReadSymbolsFrom(file, p, 0, SymbolsRead([], []));
    CountedRelocsAreRead(file, p, st.of, |file.sections|);
  }

  // ---------------------------------------------------------------------------------------
  // The round trip
  // ---------------------------------------------------------------------------------------

  lemma WrittenCountsFit(obj: Object, alignment: seq<nat>, sections: Sections)
    requires ValidFields(obj) && |sections| == SECTION_COUNT && ValidAlignment(alignment)
    ensures CountsFit(FileOf(obj, alignment, sections))
  {
    hide RelocRecords, Flags, ValidFields, StringsOf, RecordsOf, SizedStrings;
  }

  // The file as it is read from its bytes
  lemma BytesAreRead(obj: Object, alignment: seq<nat>, sections: Sections)
    requires IsAssembled(obj) && ValidAlignment(alignment) && IsWritten(obj, sections)
    requires FitsInFile(obj, FileOf(obj, alignment, sections))
    ensures var file := FileOf(obj, alignment, sections);
            && HaveNames(file.symbols) && CoffFiles.Decode(CoffFiles.Encode(file)) == Some(CountedFile(file))
            && ValidNames(file) && ValidNames(CountedFile(file)) && ReadFile(CountedFile(file)) == ReadFile(file)
  {
    hide FitsInFile, CountedFile, ReadFile, CoffFiles.Decode, CoffFiles.Encode, ValidFields, ValidReloc, ValidSymbol, RelocRecords, StringsOf,
      RecordsOf, SizedStrings, CountsFit, WrittenSection;
    var file := FileOf(obj, alignment, sections);
    WrittenCountsFit(obj, alignment, sections);
    FileFits(obj, alignment, sections);
    CoffFiles.FileIsDecoded(file);
    FileIsRead(obj, alignment, sections);
    CountedFileIsRead(file);
  }

  // What is read from the bytes of a file that was written gives the program that the object gives, for every layout, if
  // and only if no section has more relocations left than its header can count.
  lemma BytesLinkIff(obj: Object, alignment: seq<nat>, sections: Sections)
    requires IsAssembled(obj) && ValidAlignment(alignment) && IsWritten(obj, sections)
    requires FitsInFile(obj, FileOf(obj, alignment, sections))
    ensures HaveNames(FileOf(obj, alignment, sections).symbols)
    ensures var decoded := CoffFiles.Decode(CoffFiles.Encode(FileOf(obj, alignment, sections)));
            decoded.Some? && ValidNames(decoded.value) && ReadFile(decoded.value).Read? && ValidFields(ReadFile(decoded.value).obj) &&
            ((forall at: Layout :: Link(ReadFile(decoded.value).obj, at) == Link(obj, at)) <==> CanCount(obj))
  {
    hide FileOf, FitsInFile, IsAssembled, IsWritten, CountedFile, CanCount, Link, ReadFile, CoffFiles.Decode, CoffFiles.Encode;
    BytesAreRead(obj, alignment, sections);
    RoundTripLinksIff(obj, alignment, sections);
  }
}
