/** The bytes of a COFF file: the header, the headers of the sections, their contents and relocations, the symbols and the
    table of strings, and the offsets that lead to them. */
module CoffBytes {
  import opened Options
  import opened LittleEndians
  import opened Objects
  import opened CoffFormat

  const MACHINE := 0x8664
  const HEADER_SIZE := 20
  const SECTION_SIZE := 40
  const RELOC_SIZE := 10
  const SYMBOL_SIZE := 18
  const FUNCTION_TYPE := 0x20

  // ---------------------------------------------------------------------------------------
  // Bytes at a place
  // ---------------------------------------------------------------------------------------

  ghost predicate At(all: seq<int>, at: nat, piece: seq<int>) {
    at + |piece| <= |all| && all[at..at + |piece|] == piece
  }

  lemma PairAt(all: seq<int>, at: nat, a: seq<int>, b: seq<int>)
    requires At(all, at, a + b)
    ensures At(all, at, a) && At(all, at + |a|, b)
  {
    assert all[at..at + |a|] == (a + b)[..|a|];
    assert all[at + |a|..at + |a| + |b|] == (a + b)[|a|..];
  }

  lemma PieceAt(all: seq<int>, at: nat, piece: seq<int>, k: nat, inner: seq<int>)
    requires At(all, at, piece) && At(piece, k, inner)
    ensures At(all, at + k, inner)
  {
    forall i | 0 <= i < |inner|
      ensures all[at + k + i] == inner[i]
    {
      assert all[at + k + i] == all[at..at + |piece|][k + i] == piece[k..k + |inner|][i];
    }
  }

  lemma PrefixAt(piece: seq<int>, prefix: seq<int>)
    requires prefix <= piece
    ensures At(piece, 0, prefix)
  {
  }

  function Slice(all: seq<int>, at: nat, n: nat): (piece: seq<int>)
    ensures |piece| == n
  {
    if at + n <= |all| then all[at..at + n] else Zeros(n)
  }

  // An unsigned number of so many bytes
  function NumberAt(all: seq<int>, at: nat, size: nat): (v: nat) {
    var v := FromBytes(Slice(all, at, size));
    if v < 0 then 0 else v
  }

  lemma NumberIsRead(all: seq<int>, at: nat, value: int, size: nat)
    requires At(all, at, LittleEndian(value, size)) && 0 <= value < Range(size)
    ensures NumberAt(all, at, size) == value
  {
    UnsignedBack(value, size);
  }

  lemma Ranges()
    ensures Range(1) == 256 && Range(2) == 0x1_0000 && Range(4) == 0x1_0000_0000
  {
    assert Range(0) == 1;
    assert Range(1) == 256;
    assert Range(2) == 0x1_0000;
    assert Range(3) == 0x100_0000;
  }

  // ---------------------------------------------------------------------------------------
  // Records
  // ---------------------------------------------------------------------------------------

  predicate IsU16(v: int) {
    0 <= v < Range(2)
  }

  predicate IsU32(v: int) {
    0 <= v < Range(4)
  }

  // The section of a symbol is signed.
  predicate CanWriteSymbol(e: CoffSymbol) {
    |e.name| == 8 && IsU32(e.value) && 0 <= 2 * e.section < Range(2) && 0 <= e.storage < 256 && e.aux < 256
  }

  predicate CanWriteReloc(r: CoffReloc) {
    IsU32(r.offset) && IsU32(r.symbol) && IsU16(r.rtype)
  }

  predicate CanWriteSection(s: CoffSection) {
    s.size == |s.bytes| && IsU16(s.relocCount) && s.relocCount <= |s.relocs| && CanWriteRelocs(s.relocs)
  }

  predicate CanWriteRelocs(relocs: seq<CoffReloc>) {
    forall k :: 0 <= k < |relocs| ==> CanWriteReloc(relocs[k])
  }

  function TypeOf(e: CoffSymbol): int {
    if e.storage == EXTERNAL then FUNCTION_TYPE else 0
  }

  function SymbolBytes(e: CoffSymbol): (bytes: seq<int>)
    requires |e.name| == 8
    ensures |bytes| == SYMBOL_SIZE
  {
    e.name + (LittleEndian(e.value, 4) + (LittleEndian(e.section, 2) + (LittleEndian(TypeOf(e), 2) +
      (LittleEndian(e.storage, 1) + LittleEndian(e.aux, 1)))))
  }

  function SymbolAt(all: seq<int>, at: nat): CoffSymbol {
    CoffSymbol(Slice(all, at, 8), NumberAt(all, at + 8, 4), Signed(Slice(all, at + 12, 2)), NumberAt(all, at + 16, 1), NumberAt(all, at + 17, 1))
  }

  lemma SymbolIsRead(all: seq<int>, at: nat, e: CoffSymbol)
    requires CanWriteSymbol(e) && At(all, at, SymbolBytes(e))
    ensures SymbolAt(all, at) == e
  {
    var last := LittleEndian(e.storage, 1) + LittleEndian(e.aux, 1);
    var types := LittleEndian(TypeOf(e), 2) + last;
    var sections := LittleEndian(e.section, 2) + types;
    PairAt(all, at, e.name, LittleEndian(e.value, 4) + sections);
    PairAt(all, at + 8, LittleEndian(e.value, 4), sections);
    PairAt(all, at + 12, LittleEndian(e.section, 2), types);
    PairAt(all, at + 14, LittleEndian(TypeOf(e), 2), last);
    PairAt(all, at + 16, LittleEndian(e.storage, 1), LittleEndian(e.aux, 1));
    Ranges();
    NumberIsRead(all, at + 8, e.value, 4);
    NumberIsRead(all, at + 16, e.storage, 1);
    NumberIsRead(all, at + 17, e.aux, 1);
    UnsignedBack(e.section, 2);
  }

  function RelocBytes(r: CoffReloc): (bytes: seq<int>)
    ensures |bytes| == RELOC_SIZE
  {
    LittleEndian(r.offset, 4) + (LittleEndian(r.symbol, 4) + LittleEndian(r.rtype, 2))
  }

  function RelocAt(all: seq<int>, at: nat): CoffReloc {
    CoffReloc(NumberAt(all, at, 4), NumberAt(all, at + 4, 4), NumberAt(all, at + 8, 2))
  }

  lemma RelocIsRead(all: seq<int>, at: nat, r: CoffReloc)
    requires CanWriteReloc(r) && At(all, at, RelocBytes(r))
    ensures RelocAt(all, at) == r
  {
    PairAt(all, at, LittleEndian(r.offset, 4), LittleEndian(r.symbol, 4) + LittleEndian(r.rtype, 2));
    PairAt(all, at + 4, LittleEndian(r.symbol, 4), LittleEndian(r.rtype, 2));
    NumberIsRead(all, at, r.offset, 4);
    NumberIsRead(all, at + 4, r.symbol, 4);
    NumberIsRead(all, at + 8, r.rtype, 2);
  }

  // ---------------------------------------------------------------------------------------
  // Lists of records
  // ---------------------------------------------------------------------------------------

  function Flat(pieces: seq<seq<int>>, n: nat): (bytes: seq<int>)
    requires n <= |pieces|
    decreases n
  {
    if n == 0 then [] else Flat(pieces, n - 1) + pieces[n - 1]
  }

  lemma {:induction false} PieceInFlat(pieces: seq<seq<int>>, n: nat, k: nat)
    requires k < n <= |pieces|
    ensures At(Flat(pieces, n), |Flat(pieces, k)|, pieces[k])
    decreases n
  {
    var all, before := Flat(pieces, n), Flat(pieces, n - 1);
    if k == n - 1 {
      assert At(all, 0, before + pieces[k]);
      PairAt(all, 0, before, pieces[k]);
    } else {
      PieceInFlat(pieces, n - 1, k);
      PrefixAt(all, before);
      PieceAt(all, 0, before, |Flat(pieces, k)|, pieces[k]);
    }
  }

  predicate HaveSize(pieces: seq<seq<int>>, size: nat) {
    forall k :: 0 <= k < |pieces| ==> |pieces[k]| == size
  }

  lemma {:induction false} FlatSize(pieces: seq<seq<int>>, size: nat, n: nat)
    requires n <= |pieces| && HaveSize(pieces, size)
    ensures |Flat(pieces, n)| == size * n
    decreases n
  {
    if n > 0 {
      FlatSize(pieces, size, n - 1);
      assert size * n == size * (n - 1) + size;
    }
  }

  function RelocPieces(relocs: seq<CoffReloc>, n: nat): (pieces: seq<seq<int>>)
    requires n <= |relocs|
    ensures |pieces| == n
    decreases n
  {
    if n == 0 then [] else RelocPieces(relocs, n - 1) + [RelocBytes(relocs[n - 1])]
  }

  lemma {:induction false} RelocPiece(relocs: seq<CoffReloc>, n: nat, k: nat)
    requires k < n <= |relocs|
    ensures RelocPieces(relocs, n)[k] == RelocBytes(relocs[k])
    decreases n
  {
    hide RelocBytes;
    if k < n - 1 {
      RelocPiece(relocs, n - 1, k);
    }
  }

  lemma {:induction false} RelocsHaveSize(relocs: seq<CoffReloc>, n: nat)
    requires n <= |relocs|
    ensures HaveSize(RelocPieces(relocs, n), RELOC_SIZE)
    decreases n
  {
    hide RelocBytes;
    if n > 0 {
      RelocsHaveSize(relocs, n - 1);
    }
  }

  function AllRelocs(relocs: seq<CoffReloc>): seq<int> {
    Flat(RelocPieces(relocs, |relocs|), |relocs|)
  }

  predicate HaveNames(symbols: seq<CoffSymbol>) {
    forall i :: 0 <= i < |symbols| ==> |symbols[i].name| == 8
  }

  predicate CanWriteSymbols(symbols: seq<CoffSymbol>) {
    forall i :: 0 <= i < |symbols| ==> CanWriteSymbol(symbols[i])
  }

  function SymbolPieces(symbols: seq<CoffSymbol>, n: nat): (pieces: seq<seq<int>>)
    requires n <= |symbols| && HaveNames(symbols)
    ensures |pieces| == n
    decreases n
  {
    if n == 0 then [] else SymbolPieces(symbols, n - 1) + [SymbolBytes(symbols[n - 1])]
  }

  lemma {:induction false} SymbolPiece(symbols: seq<CoffSymbol>, n: nat, k: nat)
    requires k < n <= |symbols| && HaveNames(symbols)
    ensures SymbolPieces(symbols, n)[k] == SymbolBytes(symbols[k])
    decreases n
  {
    if k < n - 1 {
      SymbolPiece(symbols, n - 1, k);
    }
  }

  lemma {:induction false} SymbolsHaveSize(symbols: seq<CoffSymbol>, n: nat)
    requires n <= |symbols| && HaveNames(symbols)
    ensures HaveSize(SymbolPieces(symbols, n), SYMBOL_SIZE)
    decreases n
  {
    hide SymbolBytes;
    if n > 0 {
      SymbolsHaveSize(symbols, n - 1);
    }
  }

  function AllSymbols(symbols: seq<CoffSymbol>): seq<int>
    requires HaveNames(symbols)
  {
    Flat(SymbolPieces(symbols, |symbols|), |symbols|)
  }

  lemma PieceInside(all: seq<int>, at: nat, pieces: seq<seq<int>>, size: nat, k: nat)
    requires k < |pieces| && HaveSize(pieces, size) && At(all, at, Flat(pieces, |pieces|))
    ensures At(all, at + size * k, pieces[k])
  {
    FlatSize(pieces, size, k);
    PieceInFlat(pieces, |pieces|, k);
    PieceAt(all, at, Flat(pieces, |pieces|), size * k, pieces[k]);
  }

  function RelocsAt(all: seq<int>, at: nat, n: nat): (relocs: seq<CoffReloc>)
    ensures |relocs| == n
    decreases n
  {
    if n == 0 then [] else RelocsAt(all, at, n - 1) + [RelocAt(all, at + RELOC_SIZE * (n - 1))]
  }

  function SymbolsAt(all: seq<int>, at: nat, n: nat): (symbols: seq<CoffSymbol>)
    ensures |symbols| == n
    decreases n
  {
    if n == 0 then [] else SymbolsAt(all, at, n - 1) + [SymbolAt(all, at + SYMBOL_SIZE * (n - 1))]
  }

  lemma RelocIsInList(all: seq<int>, at: nat, relocs: seq<CoffReloc>, k: nat)
    requires At(all, at, AllRelocs(relocs)) && k < |relocs| && CanWriteReloc(relocs[k])
    ensures RelocAt(all, at + RELOC_SIZE * k) == relocs[k]
  {
    hide At, RelocBytes, RelocAt, CanWriteReloc, HaveSize;
    RelocPiece(relocs, |relocs|, k);
    RelocsHaveSize(relocs, |relocs|);
    PieceInside(all, at, RelocPieces(relocs, |relocs|), RELOC_SIZE, k);
    RelocIsRead(all, at + RELOC_SIZE * k, relocs[k]);
  }

  lemma {:induction false} RelocListIs(all: seq<int>, at: nat, relocs: seq<CoffReloc>, n: nat)
    requires n <= |relocs| && forall k :: 0 <= k < |relocs| ==> RelocAt(all, at + RELOC_SIZE * k) == relocs[k]
    ensures RelocsAt(all, at, n) == relocs[..n]
    decreases n
  {
    if n > 0 {
      RelocListIs(all, at, relocs, n - 1);
      assert relocs[..n] == relocs[..n - 1] + [relocs[n - 1]];
    }
  }

  lemma RelocsAreRead(all: seq<int>, at: nat, relocs: seq<CoffReloc>, n: nat)
    requires At(all, at, AllRelocs(relocs)) && CanWriteRelocs(relocs) && n <= |relocs|
    ensures RelocsAt(all, at, n) == relocs[..n]
  {
    forall k | 0 <= k < |relocs|
      ensures RelocAt(all, at + RELOC_SIZE * k) == relocs[k]
    {
      RelocIsInList(all, at, relocs, k);
    }
    RelocListIs(all, at, relocs, n);
  }

  lemma SymbolIsInList(all: seq<int>, at: nat, symbols: seq<CoffSymbol>, k: nat)
    requires HaveNames(symbols) && At(all, at, AllSymbols(symbols)) && k < |symbols| && CanWriteSymbol(symbols[k])
    ensures SymbolAt(all, at + SYMBOL_SIZE * k) == symbols[k]
  {
    hide At, SymbolBytes, SymbolAt, CanWriteSymbol, HaveSize;
    SymbolPiece(symbols, |symbols|, k);
    SymbolsHaveSize(symbols, |symbols|);
    PieceInside(all, at, SymbolPieces(symbols, |symbols|), SYMBOL_SIZE, k);
    SymbolIsRead(all, at + SYMBOL_SIZE * k, symbols[k]);
  }

  lemma {:induction false} SymbolListIs(all: seq<int>, at: nat, symbols: seq<CoffSymbol>, n: nat)
    requires n <= |symbols| && forall k :: 0 <= k < |symbols| ==> SymbolAt(all, at + SYMBOL_SIZE * k) == symbols[k]
    ensures SymbolsAt(all, at, n) == symbols[..n]
    decreases n
  {
    if n > 0 {
      SymbolListIs(all, at, symbols, n - 1);
      assert symbols[..n] == symbols[..n - 1] + [symbols[n - 1]];
    }
  }

  lemma SymbolsAreRead(all: seq<int>, at: nat, symbols: seq<CoffSymbol>)
    requires HaveNames(symbols) && At(all, at, AllSymbols(symbols)) && CanWriteSymbols(symbols)
    ensures SymbolsAt(all, at, |symbols|) == symbols
  {
    forall k | 0 <= k < |symbols|
      ensures SymbolAt(all, at + SYMBOL_SIZE * k) == symbols[k]
    {
      SymbolIsInList(all, at, symbols, k);
    }
    SymbolListIs(all, at, symbols, |symbols|);
    assert symbols[..|symbols|] == symbols;
  }

  // ---------------------------------------------------------------------------------------
  // Sections
  // ---------------------------------------------------------------------------------------

  function HeaderBytes(name: seq<int>, h: Header): (bytes: seq<int>)
    requires |name| == 8
    ensures |bytes| == SECTION_SIZE
  {
    name + (LittleEndian(0, 4) + (LittleEndian(0, 4) + (LittleEndian(h.size, 4) + (LittleEndian(h.dataAt, 4) + (LittleEndian(h.relocAt, 4) +
      LastFields(h.relocCount, h.flags))))))
  }

  function LastFields(count: int, flags: int): (bytes: seq<int>)
    ensures |bytes| == 12
  {
    LittleEndian(0, 4) + (LittleEndian(count, 2) + (LittleEndian(0, 2) + LittleEndian(flags, 4)))
  }

  // A section without bytes or relocations has no place for them.
  function HeaderOf(s: CoffSection, dataAt: nat): Header {
    Header(s.size, if s.size > 0 then dataAt else 0, if |s.relocs| > 0 then dataAt + s.size else 0, s.relocCount, s.flags as int)
  }

  // What the reader takes from a header
  datatype Header = Header(size: nat, dataAt: nat, relocAt: nat, relocCount: nat, flags: nat)

  function HeaderAt(all: seq<int>, at: nat): Header {
    Header(NumberAt(all, at + 16, 4), NumberAt(all, at + 20, 4), NumberAt(all, at + 24, 4), NumberAt(all, at + 32, 2), NumberAt(all, at + 36, 4))
  }

  lemma LastFieldsAre(all: seq<int>, at: nat, count: int, flags: int)
    requires At(all, at, LastFields(count, flags)) && IsU16(count) && IsU32(flags)
    ensures NumberAt(all, at + 4, 2) == count && NumberAt(all, at + 8, 4) == flags
  {
    PairAt(all, at, LittleEndian(0, 4), LittleEndian(count, 2) + (LittleEndian(0, 2) + LittleEndian(flags, 4)));
    PairAt(all, at + 4, LittleEndian(count, 2), LittleEndian(0, 2) + LittleEndian(flags, 4));
    PairAt(all, at + 6, LittleEndian(0, 2), LittleEndian(flags, 4));
    NumberIsRead(all, at + 4, count, 2);
    NumberIsRead(all, at + 8, flags, 4);
  }

  predicate CanWriteHeader(h: Header) {
    IsU32(h.size) && IsU32(h.dataAt) && IsU32(h.relocAt) && IsU16(h.relocCount) && IsU32(h.flags)
  }

  lemma HeaderIsRead(all: seq<int>, at: nat, name: seq<int>, h: Header)
    requires |name| == 8 && At(all, at, HeaderBytes(name, h)) && CanWriteHeader(h)
    ensures HeaderAt(all, at) == h
  {
    var rest := LastFields(h.relocCount, h.flags);
    var r4 := LittleEndian(h.relocAt, 4) + rest;
    var r3 := LittleEndian(h.dataAt, 4) + r4;
    var r2 := LittleEndian(h.size, 4) + r3;
    var r1 := LittleEndian(0, 4) + r2;
    PairAt(all, at, name, LittleEndian(0, 4) + r1);
    PairAt(all, at + 8, LittleEndian(0, 4), r1);
    PairAt(all, at + 12, LittleEndian(0, 4), r2);
    PairAt(all, at + 16, LittleEndian(h.size, 4), r3);
    PairAt(all, at + 20, LittleEndian(h.dataAt, 4), r4);
    PairAt(all, at + 24, LittleEndian(h.relocAt, 4), rest);
    NumberIsRead(all, at + 16, h.size, 4);
    NumberIsRead(all, at + 20, h.dataAt, 4);
    NumberIsRead(all, at + 24, h.relocAt, 4);
    LastFieldsAre(all, at + 28, h.relocCount, h.flags);
  }

  function SectionFrom(all: seq<int>, h: Header): CoffSection {
    CoffSection(h.size, ContentsAt(all, h.dataAt, h.size), RelocsAt(all, h.relocAt, h.relocCount), h.relocCount,
                FlagsFrom(h.flags))
  }

  function FlagsFrom(flags: nat): bv32 {
    if flags < 0x1_0000_0000 then flags as bv32 else 0
  }

  lemma FlagsBack(flags: bv32)
    ensures FlagsFrom(flags as int) == flags
  {
  }

  function ContentsAt(all: seq<int>, dataAt: nat, size: nat): seq<int> {
    if dataAt == 0 then [] else Slice(all, dataAt, size)
  }

  lemma BytesOfSection(all: seq<int>, bytes: seq<int>, dataAt: nat)
    requires 0 < dataAt && At(all, dataAt, bytes)
    ensures ContentsAt(all, if |bytes| > 0 then dataAt else 0, |bytes|) == bytes
  {
  }

  lemma RelocsOfSection(all: seq<int>, relocs: seq<CoffReloc>, at: nat, relocAt: nat, bytes: seq<int>, n: nat)
    requires CanWriteRelocs(relocs) && bytes == AllRelocs(relocs) && At(all, at, bytes) && (|relocs| > 0 ==> relocAt == at) && n <= |relocs|
    ensures RelocsAt(all, relocAt, n) == relocs[..n]
  {
    if |relocs| > 0 {
      RelocsAreRead(all, at, relocs, n);
    }
  }

  // A section is read by its header, from where its contents and its relocations are.
  lemma SectionIsRead(all: seq<int>, s: CoffSection, dataAt: nat, h: Header, relocBytes: seq<int>)
    requires CanWriteSection(s) && 0 < dataAt && At(all, dataAt, s.bytes) && At(all, dataAt + s.size, relocBytes)
    requires relocBytes == AllRelocs(s.relocs) && h == HeaderOf(s, dataAt)
    ensures SectionFrom(all, h) == AsCounted(s)
  {
    FlagsBack(s.flags);
    RelocsOfSection(all, s.relocs, dataAt + s.size, h.relocAt, relocBytes, s.relocCount);
    BytesOfSection(all, s.bytes, dataAt);
  }
}
