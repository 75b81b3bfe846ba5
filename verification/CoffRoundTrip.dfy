/** What is read back from a file that was written, and that it links to the same program. */
module CoffRoundTrip {
  import opened LittleEndians
  import opened Objects
  import opened CoffFormat
  import opened CoffWriter
  import opened CoffReader

  // ---------------------------------------------------------------------------------------
  // What the assembler makes
  // ---------------------------------------------------------------------------------------

  predicate ValidReloc(r: Reloc) {
    r.kind.Abs64? || (r.kind.Rel32? && 0 <= r.trailing <= 5)
  }

  predicate ValidSymbol(s: Symbol) {
    && s.section < SECTION_COUNT
    && (!s.IsExternal() ==> s.section >= 0)
    && IsName(s.name) && |s.name| <= MAX_NAME
    && forall t :: 0 <= t < SECTION_COUNT ==> s.name != LocalName(SectionName(t), t)
  }

  predicate IsAssembled(obj: Object) {
    && |obj.sections| == SECTION_COUNT
    && ValidFields(obj)
    && (forall i :: 0 <= i < |obj.relocs| ==> ValidReloc(obj.relocs[i]))
    && (forall i :: 0 <= i < |obj.symbols| ==> ValidSymbol(obj.symbols[i]))
    && (forall i, j :: 0 <= i < j < |obj.symbols| ==> obj.symbols[i].name != obj.symbols[j].name)
    && |StringsOf(obj.symbols, |obj.symbols|)| < Range(4)
  }

  // ---------------------------------------------------------------------------------------
  // Sections
  // ---------------------------------------------------------------------------------------

  lemma FirstInSection(p: Placing, section: CoffSection, s: nat)
    requires |p.sections| == SECTION_COUNT && s < SECTION_COUNT && p.sections[s] == []
    requires !IsLeftOut(section.flags) && !IsUninitialized(section.flags) && SectionOf(section.flags) == s
    requires section.size == |section.bytes|
    ensures PlaceOne(p, section) == Placing(p.sections[s := section.bytes], p.placedIn + [s], p.placedAt + [0])
  {
    var filled := Filled([], AlignOf(section.flags), if s == 0 then 0xCC else 0);
    assert filled == [];
    assert [] + ContentsOf(section) == section.bytes;
  }

  lemma SectionsAreRead(obj: Object, alignment: seq<nat>, sections: Sections)
    requires ValidFields(obj) && |sections| == SECTION_COUNT && ValidAlignment(alignment)
    ensures Placed(FileOf(obj, alignment, sections)) == Placing(sections, [0, 1, 2], [0, 0, 0])
  {
    hide ValidFields, RelocRecords, Flags, IsLeftOut, IsUninitialized, SectionOf, PlacedUpTo, StringsOf, RecordsOf, SizedStrings;
    var file := FileOf(obj, alignment, sections);
    SectionIsKnown(0, alignment[0]);
    SectionIsKnown(1, alignment[1]);
    SectionIsKnown(2, alignment[2]);
    ThreeSections(file, file.sections[0], file.sections[1], file.sections[2]);
    assert Placed(file).sections == sections;
  }

  predicate IsPlain(section: CoffSection, s: nat) {
    !IsLeftOut(section.flags) && !IsUninitialized(section.flags) && SectionOf(section.flags) == s && section.size == |section.bytes|
  }

  lemma ThreeSections(file: CoffFile, a: CoffSection, b: CoffSection, c: CoffSection)
    requires file.sections == [a, b, c] && IsPlain(a, 0) && IsPlain(b, 1) && IsPlain(c, 2)
    ensures Placed(file) == Placing([a.bytes, b.bytes, c.bytes], [0, 1, 2], [0, 0, 0])
  {
    var p0 := Placing([[], [], []], [], []);
    var p1, p2 := PlaceOne(p0, a), PlaceOne(PlaceOne(p0, a), b);
    FirstInSection(p0, a, 0);
    FirstInSection(p1, b, 1);
    FirstInSection(p2, c, 2);
    assert PlacedUpTo(file, 1) == PlaceOne(PlacedUpTo(file, 0), a) == p1;
    assert PlacedUpTo(file, 2) == p2;
    assert PlacedUpTo(file, 3) == PlaceOne(p2, c);
  }

  // ---------------------------------------------------------------------------------------
  // Symbols
  // ---------------------------------------------------------------------------------------

  function SectionSymbol(s: nat): Symbol {
    Symbol(LocalName(SectionName(s), s), s, 0, false, false)
  }

  function SectionSymbols(n: nat): (symbols: seq<Symbol>)
    ensures |symbols| == n && forall s :: 0 <= s < n ==> symbols[s] == SectionSymbol(s)
    decreases n
  {
    if n == 0 then [] else SectionSymbols(n - 1) + [SectionSymbol(n - 1)]
  }

  function SymbolBack(s: Symbol): Symbol {
    if s.section >= 0 then Symbol(s.name, s.section, s.offset, true, false) else Symbol(s.name, -1, 0, false, true)
  }

  // The symbols that are read for the first n symbols of the object: one for each record
  function SymbolsBack(symbols: seq<Symbol>, n: nat): (back: seq<Symbol>)
    requires n <= |symbols|
    ensures |back| == |RecordsOf(symbols, n)|
    decreases n
  {
    if n == 0 then SectionSymbols(SECTION_COUNT)
    else if symbols[n - 1].IsExternal() then SymbolsBack(symbols, n - 1) + [SymbolBack(symbols[n - 1])]
    else SymbolsBack(symbols, n - 1)
  }

  function Identity(n: nat): (of: seq<int>)
    ensures |of| == n && forall i :: 0 <= i < n ==> of[i] == i
    decreases n
  {
    if n == 0 then [] else Identity(n - 1) + [n - 1]
  }

  function StateAfter(symbols: seq<Symbol>, n: nat): SymbolsRead
    requires n <= |symbols|
  {
    SymbolsRead(SymbolsBack(symbols, n), Identity(|RecordsOf(symbols, n)|))
  }

  lemma {:induction false} RecordsGrow(symbols: seq<Symbol>, m: nat, n: nat)
    requires m <= n <= |symbols|
    ensures RecordsOf(symbols, m) <= RecordsOf(symbols, n)
    decreases n
  {
    if m < n {
      RecordsGrow(symbols, m, n - 1);
    }
  }

  lemma {:induction false} SymbolsGrow(symbols: seq<Symbol>, m: nat, n: nat)
    requires m <= n <= |symbols|
    ensures SymbolsBack(symbols, m) <= SymbolsBack(symbols, n)
    decreases n
  {
    if m < n {
      SymbolsGrow(symbols, m, n - 1);
    }
  }

  lemma {:induction false} StringsGrow(symbols: seq<Symbol>, m: nat, n: nat)
    requires m <= n <= |symbols|
    ensures StringsOf(symbols, m) <= StringsOf(symbols, n)
    decreases n
  {
    if m < n {
      StringsGrow(symbols, m, n - 1);
    }
  }

  lemma TableHolds(all: seq<int>, before: seq<int>, name: Name)
    requires before + (name + [0]) <= all && |before| >= 4
    ensures var strings := SizedStrings(all);
            |before| + |name| + 1 <= |all| == |strings| &&
            strings == strings[..|before|] + (name + ([0] + all[|before| + |name| + 1..]))
  {
    var strings, at := SizedStrings(all), |before|;
    var end := at + |name| + 1;
    assert strings[at..] == all[at..] == (before + (name + [0]))[at..] + all[end..];
    assert (before + (name + [0]))[at..] == name + [0];
    assert (name + [0]) + all[end..] == name + ([0] + all[end..]);
  }

  lemma NameIsRead(obj: Object, n: nat)
    requires IsAssembled(obj) && n < |obj.symbols| && obj.symbols[n].IsExternal()
    ensures var strings := SizedStrings(StringsOf(obj.symbols, |obj.symbols|));
            NameOf(strings, NameField(obj.symbols[n].name, |StringsOf(obj.symbols, n)|)) == obj.symbols[n].name
  {
    var name, all, before := obj.symbols[n].name, StringsOf(obj.symbols, |obj.symbols|), StringsOf(obj.symbols, n);
    assert ValidSymbol(obj.symbols[n]);
    if |name| <= 8 {
      ShortNameIsRead(name, SizedStrings(all), |before|);
    } else {
      StringsGrow(obj.symbols, n + 1, |obj.symbols|);
      assert StringsOf(obj.symbols, n + 1) == before + (name + [0]);
      StringsGrow(obj.symbols, n, |obj.symbols|);
      TableHolds(all, before, name);
      LongNameIsRead(name, SizedStrings(all), |before|, SizedStrings(all)[..|before|], all[|before| + |name| + 1..]);
    }
  }

  lemma {:induction false} NamesBack(symbols: seq<Symbol>, n: nat, j: nat)
    requires n <= |symbols| && j < |SymbolsBack(symbols, n)|
    ensures j < SECTION_COUNT ==> SymbolsBack(symbols, n)[j].name == LocalName(SectionName(j), j)
    ensures j >= SECTION_COUNT ==> exists i :: 0 <= i < n && SymbolsBack(symbols, n)[j].name == symbols[i].name
    decreases n
  {
    if n > 0 && j < |SymbolsBack(symbols, n - 1)| {
      NamesBack(symbols, n - 1, j);
    }
  }

  lemma NameIsNew(obj: Object, n: nat)
    requires IsAssembled(obj) && n < |obj.symbols|
    ensures Find(SymbolsBack(obj.symbols, n), obj.symbols[n].name) == |SymbolsBack(obj.symbols, n)|
  {
    var back, name := SymbolsBack(obj.symbols, n), obj.symbols[n].name;
    assert ValidSymbol(obj.symbols[n]);
    var k := Find(back, name);
    if k < |back| {
      NamesBack(obj.symbols, n, k);
      assert false;
    }
  }

  // One record gives one symbol.
  lemma ReadsOne(file: CoffFile, p: Placing, st: SymbolsRead, i: nat, e: CoffSymbol, name: Name, s: Symbol)
    requires ValidNames(file) && i < |file.symbols| && file.symbols[i] == e && |p.placedIn| == |p.placedAt| && e.aux == 0
    requires !IsSkipped(p, e) && SymbolName(file, i) == name && Find(st.symbols, name) == |st.symbols| == i
    requires Updated(Symbol(name, -1, 0, false, false), p, e) == s
    ensures ReadSymbolsFrom(file, p, i, st) == ReadSymbolsFrom(file, p, i + 1, SymbolsRead(st.symbols + [s], st.of + [i]))
  {
    var made := st.symbols + [Symbol(name, -1, 0, false, false)];
    assert made[i := s] == st.symbols + [s];
    assert ReadSymbol(file, p, i, st) == SymbolsRead(st.symbols + [s], st.of + [i]);
    assert st.of + [i] + Skips(0) == st.of + [i];
  }

  ghost predicate IsFile(file: CoffFile, obj: Object) {
    file.symbols == RecordsOf(obj.symbols, |obj.symbols|) && file.strings == SizedStrings(StringsOf(obj.symbols, |obj.symbols|))
  }

  lemma {:induction false} NamesHaveEight(symbols: seq<Symbol>, n: nat)
    requires n <= |symbols|
    ensures forall i :: 0 <= i < |RecordsOf(symbols, n)| ==> |RecordsOf(symbols, n)[i].name| == 8
    decreases n
  {
    if n > 0 {
      NamesHaveEight(symbols, n - 1);
    }
  }

  lemma {:induction false} SymbolsAreRead(obj: Object, file: CoffFile, p: Placing, n: nat)
    requires IsAssembled(obj) && IsFile(file, obj) && ValidNames(file) && n <= |obj.symbols|
    requires p.placedIn == [0, 1, 2] && p.placedAt == [0, 0, 0]
    ensures ReadSymbolsFrom(file, p, 0, SymbolsRead([], [])) ==
            ReadSymbolsFrom(file, p, |RecordsOf(obj.symbols, n)|, StateAfter(obj.symbols, n))
    decreases n
  {
    if n == 0 {
      RecordsGrow(obj.symbols, 0, |obj.symbols|);
      SectionSymbolsAreRead(file, p, SECTION_COUNT);
    } else {
      SymbolsAreRead(obj, file, p, n - 1);
      var s := obj.symbols[n - 1];
      if s.IsExternal() {
        SymbolIsRead(obj, file, p, n - 1, StateAfter(obj.symbols, n - 1), StateAfter(obj.symbols, n));
      }
    }
  }

  lemma RecordAt(symbols: seq<Symbol>, n: nat)
    requires n < |symbols| && symbols[n].IsExternal()
    ensures |RecordsOf(symbols, n)| < |RecordsOf(symbols, |symbols|)|
    ensures RecordsOf(symbols, |symbols|)[|RecordsOf(symbols, n)|] == SymbolRecord(symbols[n], |StringsOf(symbols, n)|)
  {
    RecordsGrow(symbols, n + 1, |symbols|);
    assert RecordsOf(symbols, n + 1)[|RecordsOf(symbols, n)|] == SymbolRecord(symbols[n], |StringsOf(symbols, n)|);
  }

  lemma RecordIsKept(s: Symbol, size: nat, p: Placing)
    requires p.placedIn == [0, 1, 2] && p.placedAt == [0, 0, 0] && s.section < SECTION_COUNT
    ensures var e := SymbolRecord(s, size); !IsSkipped(p, e) && Updated(Symbol(s.name, -1, 0, false, false), p, e) == SymbolBack(s)
  {
  }

  lemma NextState(symbols: seq<Symbol>, n: nat)
    requires n < |symbols| && symbols[n].IsExternal()
    ensures |RecordsOf(symbols, n + 1)| == |RecordsOf(symbols, n)| + 1
    ensures StateAfter(symbols, n + 1) ==
            SymbolsRead(StateAfter(symbols, n).symbols + [SymbolBack(symbols[n])], StateAfter(symbols, n).of + [|RecordsOf(symbols, n)|])
  {
    hide SymbolRecord, SymbolBack, SectionRecords, StringsOf;
    var records := |RecordsOf(symbols, n)|;
    assert Identity(records + 1) == Identity(records) + [records];
  }

  lemma ExternalIsRead(file: CoffFile, p: Placing, st: SymbolsRead, i: nat, s: Symbol, size: nat)
    requires ValidNames(file) && i < |file.symbols| && file.symbols[i] == SymbolRecord(s, size) && s.section < SECTION_COUNT
    requires p.placedIn == [0, 1, 2] && p.placedAt == [0, 0, 0]
    requires NameOf(file.strings, NameField(s.name, size)) == s.name && Find(st.symbols, s.name) == |st.symbols| == i
    ensures ReadSymbolsFrom(file, p, i, st) == ReadSymbolsFrom(file, p, i + 1, SymbolsRead(st.symbols + [SymbolBack(s)], st.of + [i]))
  {
    RecordIsKept(s, size, p);
    ReadsOne(file, p, st, i, SymbolRecord(s, size), s.name, SymbolBack(s));
  }

  lemma SymbolIsRead(obj: Object, file: CoffFile, p: Placing, n: nat, st: SymbolsRead, next: SymbolsRead)
    requires IsAssembled(obj) && IsFile(file, obj) && ValidNames(file) && n < |obj.symbols| && obj.symbols[n].IsExternal()
    requires p.placedIn == [0, 1, 2] && p.placedAt == [0, 0, 0]
    requires st == StateAfter(obj.symbols, n) && next == StateAfter(obj.symbols, n + 1)
    ensures ReadSymbolsFrom(file, p, |st.of|, st) == ReadSymbolsFrom(file, p, |next.of|, next)
  {
    var s := obj.symbols[n];
    assert ValidSymbol(s);
    RecordAt(obj.symbols, n);
    NameIsRead(obj, n);
    NameIsNew(obj, n);
    NextState(obj.symbols, n);
    ExternalIsRead(file, p, st, |st.of|, s, |StringsOf(obj.symbols, n)|);
  }

  lemma SectionNamesBefore(n: nat)
    requires n < SECTION_COUNT
    ensures forall j :: 0 <= j < n ==> SectionSymbols(n)[j].name != LocalName(SectionName(n), n)
  {
    SectionNamesDiffer();
  }

  lemma {:induction false} SectionSymbolsAreRead(file: CoffFile, p: Placing, n: nat)
    requires ValidNames(file) && SectionRecords(SECTION_COUNT) <= file.symbols && n <= SECTION_COUNT
    requires p.placedIn == [0, 1, 2] && p.placedAt == [0, 0, 0]
    ensures ReadSymbolsFrom(file, p, 0, SymbolsRead([], [])) == ReadSymbolsFrom(file, p, n, SymbolsRead(SectionSymbols(n), Identity(n)))
    decreases n
  {
    if n > 0 {
      SectionSymbolsAreRead(file, p, n - 1);
      SectionNamesBefore(n - 1);
      SectionSymbolIsRead(file, p, SymbolsRead(SectionSymbols(n - 1), Identity(n - 1)), n - 1);
    }
  }

  lemma SectionSymbolIsRead(file: CoffFile, p: Placing, st: SymbolsRead, s: nat)
    requires ValidNames(file) && SectionRecords(SECTION_COUNT) <= file.symbols && s < SECTION_COUNT
    requires p.placedIn == [0, 1, 2] && p.placedAt == [0, 0, 0]
    requires |st.symbols| == s && forall j :: 0 <= j < s ==> st.symbols[j].name != LocalName(SectionName(s), s)
    ensures ReadSymbolsFrom(file, p, s, st) == ReadSymbolsFrom(file, p, s + 1, SymbolsRead(st.symbols + [SectionSymbol(s)], st.of + [s]))
  {
    assert file.symbols[s] == SectionRecords(SECTION_COUNT)[s];
    ShortNameIsRead(SectionName(s), file.strings, 0);
    ReadsOne(file, p, st, s, SectionRecord(s), LocalName(SectionName(s), s), SectionSymbol(s));
  }

  lemma SectionNamesDiffer()
    ensures LocalName(SectionName(0), 0) != LocalName(SectionName(1), 1)
    ensures LocalName(SectionName(0), 0) != LocalName(SectionName(2), 2)
    ensures LocalName(SectionName(1), 1) != LocalName(SectionName(2), 2)
  {
    assert LocalName(SectionName(0), 0)[1] == 't' as int;
    assert LocalName(SectionName(1), 1)[1] == 'd' as int;
    assert LocalName(SectionName(2), 2)[1] == 'r' as int;
  }
}
