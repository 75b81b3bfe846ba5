/** Reading the records of a COFF file into an object. Where a record would lead outside of the file, which the program
    doesn't check, the result is Malformed. */
module CoffReader {
  import opened LittleEndians
  import opened Objects
  import opened CoffFormat
  import AsmData

  datatype ReadResult = Read(obj: Object) | BadType(rtype: int) | LeftOutSymbol | Malformed

  // ---------------------------------------------------------------------------------------
  // Sections
  // ---------------------------------------------------------------------------------------

  // Section k of the file goes to offset placedAt[k] of section placedIn[k] of the object, or nowhere when that is negative.
  datatype Placing = Placing(sections: Sections, placedIn: seq<int>, placedAt: seq<nat>)

  function Repeated(fill: int, n: nat): (bytes: seq<int>)
    ensures |bytes| == n
  {
    seq(n, i => fill)
  }

  function Filled(bytes: seq<int>, align: nat, fill: int): seq<int> {
    bytes + Repeated(fill, AsmData.Padding(|bytes|, align))
  }

  function ContentsOf(section: CoffSection): seq<int> {
    if IsUninitialized(section.flags) || |section.bytes| == 0 then Zeros(section.size) else section.bytes
  }

  function PlaceOne(p: Placing, section: CoffSection): (placed: Placing)
    requires |p.sections| == SECTION_COUNT
    ensures |placed.sections| == SECTION_COUNT
  {
    if IsLeftOut(section.flags) then p.(placedIn := p.placedIn + [-1], placedAt := p.placedAt + [0])
    else
      var s := SectionOf(section.flags);
      var filled := Filled(p.sections[s], AlignOf(section.flags), if s == 0 then 0xCC else 0);
      Placing(p.sections[s := filled + ContentsOf(section)], p.placedIn + [s], p.placedAt + [|filled|])
  }

  function PlacedUpTo(file: CoffFile, n: nat): (p: Placing)
    requires n <= |file.sections|
    ensures |p.sections| == SECTION_COUNT && |p.placedIn| == |p.placedAt| == n
    ensures forall i :: 0 <= i < n ==> p.placedIn[i] == if IsLeftOut(file.sections[i].flags) then -1 else SectionOf(file.sections[i].flags)
    decreases n
  {
    if n == 0 then Placing([[], [], []], [], []) else PlaceOne(PlacedUpTo(file, n - 1), file.sections[n - 1])
  }

  function Placed(file: CoffFile): Placing {
    PlacedUpTo(file, |file.sections|)
  }

  // ---------------------------------------------------------------------------------------
  // Symbols
  // ---------------------------------------------------------------------------------------

  // of[i] is the symbol of record i; -1 when it is left out, or belongs to another record.
  datatype SymbolsRead = SymbolsRead(symbols: seq<Symbol>, of: seq<int>)

  function Find(symbols: seq<Symbol>, name: Name): (i: nat)
    ensures i <= |symbols|
    ensures i < |symbols| ==> symbols[i].name == name
    ensures forall j :: 0 <= j < i ==> symbols[j].name != name
    decreases |symbols|
  {
    if |symbols| == 0 then 0
    else
      var i := Find(symbols[..|symbols| - 1], name);
      if i < |symbols| - 1 || symbols[i].name == name then i else i + 1
  }

  predicate IsSkipped(p: Placing, e: CoffSymbol) {
    e.section < 0 || (e.section > 0 && (e.section > |p.placedIn| || p.placedIn[e.section - 1] < 0))
  }

  function SymbolName(file: CoffFile, i: nat): Name
    requires i < |file.symbols| && |file.symbols[i].name| == 8
  {
    var name := NameOf(file.strings, file.symbols[i].name);
    if file.symbols[i].storage == EXTERNAL then name else LocalName(name, i)
  }

  function Updated(s: Symbol, p: Placing, e: CoffSymbol): Symbol
    requires !IsSkipped(p, e) && |p.placedIn| == |p.placedAt|
  {
    if e.section > 0 then
      s.(section := p.placedIn[e.section - 1], offset := p.placedAt[e.section - 1] + e.value, isGlobal := e.storage == EXTERNAL)
    else s.(isExtern := true)
  }

  function WithSymbol(symbols: seq<Symbol>, name: Name): seq<Symbol> {
    if Find(symbols, name) < |symbols| then symbols else symbols + [Symbol(name, -1, 0, false, false)]
  }

  predicate ValidNames(file: CoffFile) {
    forall i :: 0 <= i < |file.symbols| ==> |file.symbols[i].name| == 8
  }

  function ReadSymbol(file: CoffFile, p: Placing, i: nat, st: SymbolsRead): (read: SymbolsRead)
    requires ValidNames(file) && i < |file.symbols| && |p.placedIn| == |p.placedAt|
    ensures |read.of| == |st.of| + 1
  {
    var e := file.symbols[i];
    if IsSkipped(p, e) then st.(of := st.of + [-1])
    else
      var name := SymbolName(file, i);
      var symbols, k := WithSymbol(st.symbols, name), Find(st.symbols, name);
      assert k < |symbols|;
      SymbolsRead(symbols[k := Updated(symbols[k], p, e)], st.of + [k])
  }

  function Skips(n: nat): (skips: seq<int>)
    ensures |skips| == n
  {
    seq(n, i => -1)
  }

  function ReadSymbolsFrom(file: CoffFile, p: Placing, i: nat, st: SymbolsRead): SymbolsRead
    requires ValidNames(file) && |p.placedIn| == |p.placedAt|
    decreases |file.symbols| - i
  {
    if i >= |file.symbols| then st
    else
      var read := ReadSymbol(file, p, i, st);
      var aux := file.symbols[i].aux;
      ReadSymbolsFrom(file, p, i + 1 + aux, read.(of := read.of + Skips(aux)))
  }

  // ---------------------------------------------------------------------------------------
  // Relocations
  // ---------------------------------------------------------------------------------------

  datatype RelocsRead = Relocs(relocs: seq<Reloc>) | Failed(result: ReadResult)

  function KindOf(rtype: int): RelocKind {
    if rtype == 1 then Abs64 else if rtype == 3 then Rva32 else if rtype == 11 then SecRel32 else Rel32
  }

  predicate IsSupported(rtype: int) {
    rtype == 1 || rtype == 3 || rtype == 11 || 4 <= rtype <= 9
  }

  // The relocation of a record takes its addend from the bytes it points at.
  function ReadReloc(e: CoffReloc, s: nat, at: nat, sections: Sections, of: seq<int>): (read: RelocsRead)
    ensures read.Failed? ==> !read.result.Read?
  {
    if !(0 <= e.symbol < |of|) then Failed(Malformed)
    else if !IsSupported(e.rtype) then Failed(BadType(e.rtype))
    else
      var symbol := of[e.symbol];
      var kind := KindOf(e.rtype);
      var r := Reloc(s, at + e.offset, kind, 0, 0, if kind.Rel32? then e.rtype - 4 else 0);
      if !r.FitsIn(sections) then Failed(Malformed)
      else if symbol < 0 then Failed(LeftOutSymbol)
      else Relocs([r.(symbol := symbol, addend := Signed(FieldOf(sections, r)))])
  }

  // The first k relocations of section i of the file
  function SectionRelocs(file: CoffFile, p: Placing, of: seq<int>, i: nat, k: nat): (read: RelocsRead)
    requires i < |file.sections| == |p.placedIn| == |p.placedAt| && p.placedIn[i] >= 0
    ensures read.Failed? ==> !read.result.Read?
    decreases k
  {
    if k == 0 then Relocs([])
    else
      match SectionRelocs(file, p, of, i, k - 1)
      case Failed(result) => Failed(result)
      case Relocs(before) =>
        if k > |file.sections[i].relocs| then Failed(Malformed)
        else match ReadReloc(file.sections[i].relocs[k - 1], p.placedIn[i], p.placedAt[i], p.sections, of)
        case Failed(result) => Failed(result)
        case Relocs(one) => Relocs(before + one)
  }

  function RelocsUpTo(file: CoffFile, p: Placing, of: seq<int>, n: nat): (read: RelocsRead)
    requires n <= |file.sections| == |p.placedIn| == |p.placedAt|
    ensures read.Failed? ==> !read.result.Read?
    decreases n
  {
    if n == 0 then Relocs([])
    else
      match RelocsUpTo(file, p, of, n - 1)
      case Failed(result) => Failed(result)
      case Relocs(before) =>
        if p.placedIn[n - 1] < 0 then Relocs(before)
        else
          match SectionRelocs(file, p, of, n - 1, file.sections[n - 1].relocCount)
          case Failed(result) => Failed(result)
          case Relocs(relocs) => Relocs(before + relocs)
  }

  function ReadFile(file: CoffFile): ReadResult
    requires ValidNames(file)
  {
    var p := Placed(file);
    var st := ReadSymbolsFrom(file, p, 0, SymbolsRead([], []));
    match RelocsUpTo(file, p, st.of, |file.sections|)
    case Failed(result) => result
    case Relocs(relocs) => Read(Object(p.sections, st.symbols, relocs))
  }

  // ---------------------------------------------------------------------------------------
  // The reader
  // ---------------------------------------------------------------------------------------

  method FillTo(bytes: seq<int>, align: nat, fill: int) returns (filled: seq<int>)
    requires align > 0
    ensures filled == Filled(bytes, align, fill)
  {
    filled := bytes;
    ghost var n := 0;
    while AsmData.Remainder(|filled|, align) != 0
      invariant filled == bytes + Repeated(fill, n) && n + AsmData.Padding(|filled|, align) == AsmData.Padding(|bytes|, align)
      decreases AsmData.Padding(|filled|, align)
    {
      AsmData.RemainderOfNext(|filled|, align);
      filled := filled + [fill];
      n := n + 1;
    }
  }

  method PlaceSections(file: CoffFile) returns (p: Placing)
    ensures p == Placed(file)
  {
    var sections: Sections, placedIn: seq<int>, placedAt: seq<nat> := [[], [], []], [], [];
    for i := 0 to |file.sections|
      invariant Placing(sections, placedIn, placedAt) == PlacedUpTo(file, i)
    {
      var section := file.sections[i];
      if IsLeftOut(section.flags) {
        placedIn, placedAt := placedIn + [-1], placedAt + [0];
      } else {
        var s := SectionOf(section.flags);
        var filled := FillTo(sections[s], AlignOf(section.flags), if s == 0 then 0xCC else 0);
        placedIn, placedAt := placedIn + [s], placedAt + [|filled|];
        sections := sections[s := filled + ContentsOf(section)];
      }
    }
    p := Placing(sections, placedIn, placedAt);
  }

  method ReadSymbols(file: CoffFile, p: Placing) returns (st: SymbolsRead)
    requires ValidNames(file) && |p.placedIn| == |p.placedAt|
    ensures st == ReadSymbolsFrom(file, p, 0, SymbolsRead([], []))
  {
    var symbols, of := [], [];
    var i := 0;
    while i < |file.symbols|
      invariant ReadSymbolsFrom(file, p, i, SymbolsRead(symbols, of)) == ReadSymbolsFrom(file, p, 0, SymbolsRead([], []))
      decreases |file.symbols| - i
    {
      var e := file.symbols[i];
      if IsSkipped(p, e) {
        of := of + [-1];
      } else {
        var name := SymbolName(file, i);
        var k := Find(symbols, name);
        if k == |symbols| {
          symbols := symbols + [Symbol(name, -1, 0, false, false)];
        }
        symbols := symbols[k := Updated(symbols[k], p, e)];
        of := of + [k];
      }
      of := of + Skips(e.aux);
      i := i + 1 + e.aux;
    }
    st := SymbolsRead(symbols, of);
  }

  method ReadSectionRelocs(file: CoffFile, p: Placing, of: seq<int>, i: nat) returns (read: RelocsRead)
    requires i < |file.sections| == |p.placedIn| == |p.placedAt| && p.placedIn[i] >= 0
    ensures read == SectionRelocs(file, p, of, i, file.sections[i].relocCount)
  {
    var relocs := [];
    var count := file.sections[i].relocCount;
    for k := 0 to count
      invariant SectionRelocs(file, p, of, i, k) == Relocs(relocs)
    {
      var one := Failed(Malformed);
      if k < |file.sections[i].relocs| {
        one := ReadReloc(file.sections[i].relocs[k], p.placedIn[i], p.placedAt[i], p.sections, of);
      }
      if one.Failed? {
        FailsOn(file, p, of, i, k + 1, count, one.result);
        return one;
      }
      relocs := relocs + one.relocs;
    }
    read := Relocs(relocs);
  }

  lemma {:induction false} FailsOn(file: CoffFile, p: Placing, of: seq<int>, i: nat, k: nat, n: nat, result: ReadResult)
    requires i < |file.sections| == |p.placedIn| == |p.placedAt| && p.placedIn[i] >= 0 && k <= n
    requires SectionRelocs(file, p, of, i, k) == Failed(result)
    ensures SectionRelocs(file, p, of, i, n) == Failed(result)
    decreases n - k
  {
    if k < n {
      FailsOn(file, p, of, i, k, n - 1, result);
    }
  }

  method CoffRead(file: CoffFile) returns (read: ReadResult)
    requires ValidNames(file)
    ensures read == ReadFile(file)
  {
    hide SectionRelocs, ReadSymbolsFrom, PlacedUpTo;
    var p := PlaceSections(file);
    var st := ReadSymbols(file, p);
    var relocs := [];
    for i := 0 to |file.sections|
      invariant RelocsUpTo(file, p, st.of, i) == Relocs(relocs)
    {
      if p.placedIn[i] >= 0 {
        var one := ReadSectionRelocs(file, p, st.of, i);
        if one.Failed? {
          AllFail(file, p, st.of, i + 1, |file.sections|, one.result);
          return one.result;
        }
        relocs := relocs + one.relocs;
      }
    }
    read := Read(Object(p.sections, st.symbols, relocs));
  }

  lemma {:induction false} AllFail(file: CoffFile, p: Placing, of: seq<int>, i: nat, n: nat, result: ReadResult)
    requires i <= n <= |file.sections| == |p.placedIn| == |p.placedAt| && RelocsUpTo(file, p, of, i) == Failed(result)
    ensures RelocsUpTo(file, p, of, n) == Failed(result)
    decreases n - i
  {
    if i < n {
      AllFail(file, p, of, i, n - 1, result);
    }
  }
}
