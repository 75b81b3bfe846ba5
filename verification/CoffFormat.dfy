/** The records of a COFF file for x64 (Microsoft PE/COFF specification, sections 4 and 5), and the names in them. */
module CoffFormat {
  import opened Decimals
  import opened LittleEndians
  import opened Objects

  const SECTION_COUNT := 3
  const STATIC := 3
  const EXTERNAL := 2
  const MAX_NAME := 255

  datatype CoffReloc = CoffReloc(offset: nat, symbol: int, rtype: int)

  // bytes is empty when the section has none in the file; relocCount says how many of the relocations are read.
  datatype CoffSection = CoffSection(size: nat, bytes: seq<int>, relocs: seq<CoffReloc>, relocCount: nat, flags: bv32)

  // name has 8 bytes; section counts from 1, and is 0 for an extern; aux counts the records after it that belong to it.
  datatype CoffSymbol = CoffSymbol(name: seq<int>, value: nat, section: int, storage: int, aux: nat)

  // The table of strings starts with its size.
  datatype CoffFile = CoffFile(sections: seq<CoffSection>, symbols: seq<CoffSymbol>, strings: seq<int>)

  // What a reader gets of a section: the relocations that are counted.
  function AsCounted(s: CoffSection): CoffSection {
    if s.relocCount <= |s.relocs| then s.(relocs := s.relocs[..s.relocCount]) else s
  }

  function AllCounted(sections: seq<CoffSection>, n: nat): (counted: seq<CoffSection>)
    requires n <= |sections|
    ensures |counted| == n && forall s :: 0 <= s < n ==> counted[s] == AsCounted(sections[s])
    decreases n
  {
    if n == 0 then [] else AllCounted(sections, n - 1) + [AsCounted(sections[n - 1])]
  }

  function CountedFile(file: CoffFile): CoffFile {
    file.(sections := AllCounted(file.sections, |file.sections|))
  }

  // The bytes up to the first zero
  function CString(bytes: seq<int>): (name: seq<int>)
    ensures |name| <= |bytes|
    decreases |bytes|
  {
    if |bytes| == 0 || bytes[0] == 0 then [] else [bytes[0]] + CString(bytes[1..])
  }

  // A name that C can hold
  predicate IsName(name: Name) {
    |name| > 0 && forall i :: 0 <= i < |name| ==> 0 < name[i] < 256
  }

  lemma {:induction false} CStringEnds(name: Name, rest: seq<int>)
    requires forall i :: 0 <= i < |name| ==> name[i] != 0
    requires |rest| == 0 || rest[0] == 0
    ensures CString(name + rest) == name
    decreases |name|
  {
    if |name| > 0 {
      assert (name + rest)[1..] == name[1..] + rest;
      CStringEnds(name[1..], rest);
    } else {
      assert name + rest == rest;
    }
  }

  function NameField(name: Name, stringsSize: nat): (field: seq<int>)
    ensures |field| == 8
  {
    if |name| <= 8 then name + Zeros(8 - |name|) else Zeros(4) + LittleEndian(stringsSize, 4)
  }

  function NameOf(strings: seq<int>, field: seq<int>): (name: Name)
    requires |field| == 8
    ensures |name| <= MAX_NAME
  {
    var at := FromBytes(field[4..]);
    if FromBytes(field[..4]) != 0 then CString(field)
    else if 0 <= at <= |strings| then
      var name := CString(strings[at..]);
      if |name| <= MAX_NAME then name else name[..MAX_NAME]
    else []
  }

  lemma {:induction false} NonZero(bytes: seq<int>)
    requires |bytes| > 0 && bytes[0] > 0 && forall i :: 0 <= i < |bytes| ==> bytes[i] >= 0
    ensures FromBytes(bytes) > 0
    decreases |bytes|
  {
    NonNegative(bytes[1..]);
  }

  lemma {:induction false} NonNegative(bytes: seq<int>)
    requires forall i :: 0 <= i < |bytes| ==> bytes[i] >= 0
    ensures FromBytes(bytes) >= 0
    decreases |bytes|
  {
    if |bytes| > 0 {
      NonNegative(bytes[1..]);
    }
  }

  lemma ShortNameIsRead(name: Name, strings: seq<int>, stringsSize: nat)
    requires IsName(name) && |name| <= 8
    ensures NameOf(strings, NameField(name, stringsSize)) == name
  {
    var field := NameField(name, stringsSize);
    NonZero(field[..4]);
    CStringEnds(name, Zeros(8 - |name|));
  }

  // A long name is in the table of strings, and a zero ends it there.
  lemma LongNameIsRead(name: Name, strings: seq<int>, at: nat, before: seq<int>, rest: seq<int>)
    requires IsName(name) && 8 < |name| <= MAX_NAME && at < Range(4)
    requires strings == before + (name + ([0] + rest)) && |before| == at
    ensures NameOf(strings, NameField(name, at)) == name
  {
    var field := NameField(name, at);
    assert field[..4] == Zeros(4) == [0, 0, 0, 0] && field[4..] == LittleEndian(at, 4);
    ZerosAreZero(4);
    UnsignedBack(at, 4);
    assert strings[at..] == name + ([0] + rest);
    CStringEnds(name, [0] + rest);
  }

  lemma {:induction false} ZerosAreZero(n: nat)
    ensures FromBytes(Zeros(n)) == 0
    decreases n
  {
    if n > 0 {
      assert Zeros(n)[1..] == Zeros(n - 1);
      ZerosAreZero(n - 1);
    }
  }

  // ---------------------------------------------------------------------------------------
  // Section symbols and flags
  // ---------------------------------------------------------------------------------------

  function Ascii(text: string): (bytes: seq<int>)
    ensures |bytes| == |text| && forall i :: 0 <= i < |text| ==> bytes[i] == text[i] as int
  {
    seq(|text|, i requires 0 <= i < |text| => text[i] as int)
  }

  function SectionName(s: nat): Name {
    Ascii(if s == 0 then ".text" else if s == 1 then ".data" else ".rdata")
  }

  // The number of the record keeps the names of local symbols apart.
  function LocalName(name: Name, record: nat): Name {
    name + Ascii("@" + Decimal(record))
  }

  function Log2From(l: nat, n: nat): (r: nat)
    requires l <= 31 && n <= 0x8000_0000
    ensures r <= 31
    decreases 31 - l
  {
    if l < 31 && Pow2(l) < n then Log2From(l + 1, n) else l
  }

  function Pow2(l: nat): (p: nat)
    ensures p > 0
    decreases l
  {
    if l == 0 then 1 else 2 * Pow2(l - 1)
  }

  function Characteristics(s: nat): bv32 {
    if s == 0 then 0x6000_0020 else if s == 1 then 0xC000_0040 else 0x4000_0040
  }

  function Flags(s: nat, alignment: nat): bv32
    requires alignment <= 0x8000_0000
  {
    Characteristics(s) | ((((Log2From(0, alignment) + 1) as bv6) as bv32) << 20)
  }

  // What the flags say about a section
  predicate IsLeftOut(flags: bv32) {
    flags & 0x800 != 0 || flags & 0x200 != 0
  }

  predicate IsUninitialized(flags: bv32) {
    flags & 0x80 != 0
  }

  function SectionOf(flags: bv32): (s: nat)
    ensures s < SECTION_COUNT
  {
    if flags & 0x20 != 0 then 0 else if flags & 0x8000_0000 != 0 then 1 else 2
  }

  function AlignOf(flags: bv32): (align: nat)
    ensures align > 0
  {
    var l := (flags >> 20) & 0xF;
    if l != 0 then Pow2((l - 1) as nat) else 1
  }

  lemma FlagBits(c: bv32, x: bv6)
    ensures var flags := c | ((x as bv32) << 20);
            && flags & 0x20 == c & 0x20 && flags & 0x8000_0000 == c & 0x8000_0000
            && flags & 0x800 == c & 0x800 && flags & 0x200 == c & 0x200 && flags & 0x80 == c & 0x80
  {
  }

  // The three sections are told apart by their flags, with any alignment.
  lemma SectionIsKnown(s: nat, alignment: nat)
    requires s < SECTION_COUNT && alignment <= 0x8000_0000
    ensures !IsLeftOut(Flags(s, alignment)) && !IsUninitialized(Flags(s, alignment)) && SectionOf(Flags(s, alignment)) == s
  {
    FlagBits(Characteristics(s), (Log2From(0, alignment) + 1) as bv6);
  }

  lemma AlignmentBits(c: bv32, x: bv6)
    requires c & 0x3F0_0000 == 0
    ensures ((c | ((x as bv32) << 20)) >> 20) & 0xF == (x & 0xF) as bv32
  {
  }

  lemma LowBits(l: nat)
    requires l <= 32
    ensures (((l as bv6) & 0xF) as bv32) as nat == if l < 16 then l else if l < 32 then l - 16 else 0
  {
  }

  lemma Powers()
    ensures Pow2(14) == 16384 && Pow2(31) == 0x8000_0000
  {
    assert Pow2(4) == 16;
    assert Pow2(8) == 256;
    assert Pow2(11) == 2048;
    assert Pow2(14) == 16384;
    assert Pow2(18) == 0x4_0000;
    assert Pow2(22) == 0x40_0000;
    assert Pow2(26) == 0x400_0000;
  }

  lemma {:induction false} Log2Is(l: nat, n: nat)
    requires l <= 31 && 0 < n <= 0x8000_0000 && (l == 0 || Pow2(l - 1) < n)
    ensures n <= Pow2(Log2From(l, n)) && (Log2From(l, n) == 0 || Pow2(Log2From(l, n) - 1) < n)
    decreases 31 - l
  {
    if l < 31 && Pow2(l) < n {
      Log2Is(l + 1, n);
    } else if l == 31 {
      Powers();
    }
  }

  lemma {:induction false} Pow2Grows(a: nat, b: nat)
    requires a <= b
    ensures Pow2(a) <= Pow2(b)
    decreases b
  {
    if a < b {
      Pow2Grows(a, b - 1);
    }
  }

  // The header has four bits for the alignment: the next power of two is read back, if and only if it is at most 16384.
  lemma AlignmentIsReadIff(s: nat, alignment: nat)
    requires s < SECTION_COUNT && 0 < alignment <= 0x8000_0000
    ensures AlignOf(Flags(s, alignment)) >= alignment <==> alignment <= 16384
    ensures alignment <= 16384 ==> AlignOf(Flags(s, alignment)) < 2 * alignment
  {
    hide Pow2, Characteristics;
    var l := Log2From(0, alignment);
    Log2Is(0, alignment);
    CharacteristicsAreApart(s);
    AlignmentBits(Characteristics(s), (l + 1) as bv6);
    LowBits(l + 1);
    Powers();
    if l <= 14 {
      Pow2Grows(l, 14);
      Pow2Doubles(l);
    } else {
      Pow2Grows(14, l - 1);
      Pow2Grows(if l < 16 || l == 31 then 0 else l - 16, 14);
      Pow2Grows(0, 14);
    }
  }

  lemma CharacteristicsAreApart(s: nat)
    ensures Characteristics(s) & 0x3F0_0000 == 0
  {
  }

  lemma Pow2Doubles(l: nat)
    ensures Pow2(0) == 1 && (l > 0 ==> Pow2(l) == 2 * Pow2(l - 1))
  {
  }
}
