/** Writing the data of a global: runs of zeros and bytes between the relocations, in lines the assembler reads back to the
    same bytes. */
module GlobalData {
  import opened AsmData
  import opened Decimals
  import opened LittleEndians

  // The address of a global, at an offset of the data
  datatype DataReloc = DataReloc(offset: nat, target: nat)

  datatype Global = Global(symbol: string, align: int, data: seq<int>, relocs: seq<DataReloc>)

  // ---------------------------------------------------------------------------------------
  // The text of bytes
  // ---------------------------------------------------------------------------------------

  predicate IsByte(b: int) {
    0 <= b < 256
  }

  predicate AreBytes(bytes: seq<int>) {
    forall i :: 0 <= i < |bytes| ==> IsByte(bytes[i])
  }

  function ListText(bytes: seq<int>): (text: string)
    requires AreBytes(bytes)
    ensures |bytes| > 0 ==> |text| > 0
    decreases |bytes|
  {
    if |bytes| == 0 then []
    else if |bytes| == 1 then Decimal(bytes[0])
    else Decimal(bytes[0]) + ", " + ListText(bytes[1..])
  }

  lemma ListTextCons(bytes: seq<int>, first: int, rest: seq<int>)
    requires AreBytes(bytes) && AreBytes(rest) && |bytes| == |rest| + 1 > 1 && bytes[0] == first && IsByte(first) && bytes[1..] == rest
    ensures ListText(bytes) == Decimal(first) + ", " + ListText(rest)
  {
  }

  lemma Regroup(a: string, b: string, c: string, d: string)
    ensures a + (b + c + d) == (a + b) + c + d
  {
  }

  lemma {:induction false} ListTextAppend(bytes: seq<int>, b: int)
    requires AreBytes(bytes) && IsByte(b)
    ensures ListText(bytes + [b]) == ListText(bytes) + (if |bytes| > 0 then ", " else "") + Decimal(b)
    decreases |bytes|
  {
    if |bytes| == 0 {
      assert bytes + [b] == [b];
    } else {
      var rest := bytes[1..];
      assert (bytes + [b])[1..] == rest + [b];
      ListTextCons(bytes + [b], bytes[0], rest + [b]);
      ListTextAppend(rest, b);
      if |bytes| > 1 {
        ListTextCons(bytes, bytes[0], rest);
        Regroup(Decimal(bytes[0]) + ", ", ListText(rest), ", ", Decimal(b));
      } else {
        assert ListText(rest) == [];
      }
    }
  }

  // The list of up to 16 bytes fits in the line buffer, which has 16 * 5 characters.
  method ByteList(bytes: seq<int>) returns (line: string)
    requires AreBytes(bytes)
    ensures line == ListText(bytes)
    ensures |line| <= 5 * |bytes|
  {
    line := [];
    for i := 0 to |bytes|
      invariant line == ListText(bytes[..i])
      invariant |line| <= 5 * i
    {
      assert bytes[..i + 1] == bytes[..i] + [bytes[i]];
      ListTextAppend(bytes[..i], bytes[i]);
      if i > 0 { line := line + ", "; }
      ghost var before := line;
      var byte := bytes[i];
      if byte >= 100 { line := line + [DigitChar(byte / 100)]; }
      if byte >= 10 { line := line + [DigitChar(byte / 10 % 10)]; }
      line := line + [DigitChar(byte % 10)];
      ThreeDigits(byte);
      assert line == before + Decimal(byte);
    }
    assert bytes[..|bytes|] == bytes;
  }

  lemma ThreeDigits(b: int)
    requires IsByte(b)
    ensures Decimal(b) ==
            (if b >= 100 then [DigitChar(b / 100)] else []) + (if b >= 10 then [DigitChar(b / 10 % 10)] else []) + [DigitChar(b % 10)]
    ensures |Decimal(b)| <= 3
  {
    if b >= 100 {
      assert Decimal(b / 10) == Decimal(b / 100) + [DigitChar(b / 10 % 10)];
      assert Decimal(b / 100) == [DigitChar(b / 100)];
    } else if b >= 10 {
      assert Decimal(b / 10) == [DigitChar(b / 10)];
    }
  }

  // ---------------------------------------------------------------------------------------
  // Reading them back
  // ---------------------------------------------------------------------------------------

  predicate IsDecimalDigit(c: char) {
    '0' <= c <= '9'
  }

  predicate AreDigits(s: string) {
    forall i :: 0 <= i < |s| ==> IsDecimalDigit(s[i])
  }

  lemma {:induction false} AllDigitsCount(s: string)
    requires AreDigits(s)
    ensures DigitCount(s, 10) == |s|
    decreases |s|
  {
    if |s| > 0 {
      AllDigitsCount(s[1..]);
    }
  }

  lemma {:induction false} ValueAppend(s: string, c: char, before: nat)
    ensures ValueFrom(s + [c], 10, before) == 10 * ValueFrom(s, 10, before) + DigitValue(c)
    decreases |s|
  {
    if |s| == 0 {
      assert (s + [c])[1..] == [];
      assert ValueFrom((s + [c])[1..], 10, before * 10 + DigitValue(c)) == before * 10 + DigitValue(c);
    } else {
      assert (s + [c])[0] == s[0] && (s + [c])[1..] == s[1..] + [c];
      ValueAppend(s[1..], c, before * 10 + DigitValue(s[0]));
    }
  }

  // A decimal number has digits only, does not start with 0 unless it is 0, and has the value that was written.
  lemma {:induction false} DecimalDigits(n: nat)
    ensures AreDigits(Decimal(n)) && (n > 0 ==> Decimal(n)[0] != '0')
    ensures ValueFrom(Decimal(n), 10, 0) == n
    decreases n
  {
    if n < 10 {
      assert [DigitChar(n)] == [] + [DigitChar(n)];
      ValueAppend([], DigitChar(n), 0);
    } else {
      DecimalDigits(n / 10);
      ValueAppend(Decimal(n / 10), DigitChar(n % 10), 0);
    }
  }

  lemma ZeroIsRead(s: string)
    requires |s| == 1 && s[0] == '0'
    ensures ParseNumber(s) == Word(0)
  {
    assert s[1..] == [] && s[..1] == s;
    assert DigitCount(s[1..], 8) == 0;
    assert ValueFrom(s[1..], 8, 0) == 0;
    assert SkipSpaces(s) == s;
  }

  lemma DigitsAreRead(s: string, value: nat)
    requires 0 < |s| < 40 && AreDigits(s) && s[0] != '0' && ValueFrom(s, 10, 0) == value < U64
    ensures ParseNumber(s) == Word(value)
  {
    AllDigitsCount(s);
    assert s[..|s|] == s && s[|s|..] == [];
    assert SkipSpaces(s) == s;
  }

  // The number that is written is the one that is read.
  lemma ByteIsRead(b: int)
    requires IsByte(b)
    ensures ParseNumber(Decimal(b)) == Word(b)
  {
    DecimalDigits(b);
    ThreeDigits(b);
    if b == 0 {
      assert Decimal(0) == [DigitChar(0)];
      ZeroIsRead(Decimal(b));
    } else {
      DigitsAreRead(Decimal(b), b);
    }
  }

  lemma {:induction false} ItemUpToComma(item: string, rest: string)
    requires forall i :: 0 <= i < |item| ==> item[i] != ','
    requires |rest| > 0 ==> rest[0] == ','
    ensures ItemLength(item + rest) == |item|
    decreases |item|
  {
    var s := item + rest;
    if |item| == 0 {
      assert s == rest;
    } else {
      assert s[1..] == item[1..] + rest;
      ItemUpToComma(item[1..], rest);
    }
  }

  // One number of a list, and what comes after it
  lemma NumberIsAdded(item: string, word: nat, rest: string, size: nat, s: Section)
    requires |item| > 0 && AreDigits(item) && ParseNumber(item) == Word(word) && (|rest| > 0 ==> rest[0] == ',')
    ensures AddItems(size, item + rest, s) ==
            AddItems(size, if |rest| > 0 then rest[1..] else [], s.(bytes := s.bytes + LittleEndian(word, size)))
  {
    var text := item + rest;
    assert text[0] == item[0];
    assert SkipBlanks(text) == text;
    ItemUpToComma(item, rest);
    assert text[..|item|] == item;
    assert TrimEnd(item) == item;
    assert AddItem(size, item, s) == Ok(s.(bytes := s.bytes + LittleEndian(word, size)));
    if |rest| > 0 {
      assert text[|item| + 1..] == rest[1..];
    }
  }

  lemma LowByte(b: int, size: nat)
    requires IsByte(b) && size == 1
    ensures LittleEndian(b, size) == [b]
  {
    assert LittleEndian(b / 256, size - 1) == [];
  }

  lemma ByteIsAdded(b: int, rest: string, size: nat, s: Section)
    requires IsByte(b) && size == 1 && (|rest| > 0 ==> rest[0] == ',')
    ensures AddItems(size, Decimal(b) + rest, s) == AddItems(size, if |rest| > 0 then rest[1..] else [], s.(bytes := s.bytes + [b]))
  {
    DecimalDigits(b);
    ByteIsRead(b);
    LowByte(b, size);
    NumberIsAdded(Decimal(b), b, rest, size, s);
  }

  lemma {:induction false} SpaceIsSkipped(text: string, size: nat, s: Section)
    requires |text| > 0
    ensures AddItems(size, [' '] + text, s) == AddItems(size, text, s)
  {
    var spaced := [' '] + text;
    assert spaced[1..] == text;
    assert SkipBlanks(spaced) == SkipBlanks(text);
  }

  // A list of bytes is read back as the bytes.
  lemma {:induction false} ListIsRead(bytes: seq<int>, size: nat, s: Section)
    requires AreBytes(bytes) && size == 1
    ensures AddItems(size, ListText(bytes), s) == Ok(s.(bytes := s.bytes + bytes))
    decreases |bytes|
  {
    if |bytes| == 0 {
      assert s.bytes + bytes == s.bytes;
    } else {
      var s1 := s.(bytes := s.bytes + [bytes[0]]);
      assert s1.bytes + bytes[1..] == s.bytes + bytes;
      if |bytes| == 1 {
        assert Decimal(bytes[0]) + [] == Decimal(bytes[0]);
        ByteIsAdded(bytes[0], [], size, s);
        assert bytes[1..] == [];
      } else {
        ListIsRead(bytes[1..], size, s1);
        FirstIsAdded(bytes[0], ListText(bytes[1..]), size, s);
        assert ListText(bytes) == Decimal(bytes[0]) + ", " + ListText(bytes[1..]);
      }
    }
  }

  lemma FirstIsAdded(b: int, rest: string, size: nat, s: Section)
    requires IsByte(b) && |rest| > 0 && size == 1
    ensures AddItems(size, Decimal(b) + ", " + rest, s) == AddItems(size, rest, s.(bytes := s.bytes + [b]))
  {
    var tail := [','] + ([' '] + rest);
    assert Decimal(b) + ", " + rest == Decimal(b) + tail;
    assert tail[1..] == [' '] + rest;
    ByteIsAdded(b, tail, size, s);
    SpaceIsSkipped(rest, size, s.(bytes := s.bytes + [b]));
  }

  // A name without anything that ends an item of a list, and not local to another label
  predicate PlainName(name: string) {
    && 0 < |name| < 160 && name[0] != '.'
    && forall i :: 0 <= i < |name| ==> name[i] != ',' && !IsLineEnd(name[i])
  }

  function Dollar(name: string): string {
    ['$'] + name
  }

  // The address of a symbol is 8 bytes for a relocation.
  lemma SymbolIsAdded(name: string, size: nat, s: Section)
    requires PlainName(name) && size == 8
    ensures AddItems(size, Dollar(name), s) == Ok(s.(bytes := s.bytes + Zeros(8), relocs := s.relocs + [Reloc(|s.bytes|, name)]))
  {
    var text := Dollar(name);
    assert SkipBlanks(text) == text;
    assert forall i :: 0 <= i < |text| ==> text[i] != ',' && !IsLineEnd(text[i]);
    assert text + [] == text;
    ItemUpToComma(text, []);
    assert text[..|text|] == text && text[1..] == name;
    assert TrimEnd(text) == text;
    assert ParseNumber(text) == NoNumber;
    assert SymbolName(text, s.scope) == name;
  }

  // ---------------------------------------------------------------------------------------
  // What a global is in the section
  // ---------------------------------------------------------------------------------------

  predicate Apart(a: DataReloc, b: DataReloc) {
    a.offset + 8 <= b.offset || b.offset + 8 <= a.offset
  }

  predicate PairwiseApart(relocs: seq<DataReloc>) {
    forall i, j :: 0 <= i < j < |relocs| ==> Apart(relocs[i], relocs[j])
  }

  // The relocations lie in the data, do not overlap, and refer to globals with plain names.
  predicate ValidGlobal(g: Global, names: seq<string>) {
    && AreBytes(g.data) && PlainName(g.symbol) && PairwiseApart(g.relocs)
    && forall k :: 0 <= k < |g.relocs| ==> FitsIn(g.relocs[k], g.data, names)
  }

  predicate FitsIn(r: DataReloc, data: seq<int>, names: seq<string>) {
    r.offset + 8 <= |data| && r.target < |names| && PlainName(names[r.target])
  }

  predicate Covered(relocs: seq<DataReloc>, i: nat) {
    exists k :: 0 <= k < |relocs| && relocs[k].offset <= i < relocs[k].offset + 8
  }

  // The data with zeros in the fields of the relocations
  function ZeroedData(data: seq<int>, relocs: seq<DataReloc>): (zeroed: seq<int>)
    ensures |zeroed| == |data|
    ensures forall i :: 0 <= i < |data| ==> zeroed[i] == if Covered(relocs, i) then 0 else data[i]
  {
    seq(|data|, (i: nat) => if i < |data| && !Covered(relocs, i) then data[i] else 0)
  }

  // The relocations of a global that starts at start
  function Moved(start: nat, relocs: seq<DataReloc>, names: seq<string>): (moved: seq<Reloc>)
    ensures |moved| == |relocs|
    ensures forall k :: 0 <= k < |relocs| && relocs[k].target < |names| ==>
              moved[k] == Reloc(start + relocs[k].offset, names[relocs[k].target])
  {
    seq(|relocs|, (k: nat) => Reloc(start + if k < |relocs| then relocs[k].offset else 0,
                                    if k < |relocs| && relocs[k].target < |names| then names[relocs[k].target] else []))
  }

  // A section with more bytes and relocations
  function Extended(s: Section, bytes: seq<int>, relocs: seq<DataReloc>, names: seq<string>): Section {
    s.(bytes := s.bytes + bytes, relocs := s.relocs + Moved(|s.bytes|, relocs, names))
  }

  // In every section the lines add the bytes and the relocations.
  ghost predicate Denotes(lines: seq<Line>, bytes: seq<int>, relocs: seq<DataReloc>, names: seq<string>) {
    forall s: Section :: AssembleAll(s, lines) == Ok(Extended(s, bytes, relocs, names))
  }

  lemma NothingDenotes(names: seq<string>)
    ensures Denotes([], [], [], names)
  {
    forall s: Section
      ensures AssembleAll(s, []) == Ok(Extended(s, [], [], names))
    {
      assert s.bytes + [] == s.bytes && s.relocs + Moved(|s.bytes|, [], names) == s.relocs;
    }
  }

  lemma ZerosDenote(lines: seq<Line>, bytes: seq<int>, relocs: seq<DataReloc>, names: seq<string>, n: nat)
    requires Denotes(lines, bytes, relocs, names)
    ensures Denotes(lines + [Times(n)], bytes + Zeros(n), relocs, names)
  {
    forall s: Section
      ensures AssembleAll(s, lines + [Times(n)]) == Ok(Extended(s, bytes + Zeros(n), relocs, names))
    {
      AssembleOneMore(s, lines, Times(n));
      assert AssembleAll(s, lines) == Ok(Extended(s, bytes, relocs, names));
      assert (s.bytes + bytes) + Zeros(n) == s.bytes + (bytes + Zeros(n));
    }
  }

  lemma ListExtends(before: Section, s: Section, bytes: seq<int>, relocs: seq<DataReloc>, names: seq<string>, more: seq<int>, size: nat)
    requires before == Extended(s, bytes, relocs, names) && AreBytes(more) && size == 1
    ensures AddItems(size, ListText(more), before) == Ok(Extended(s, bytes + more, relocs, names))
  {
    ListIsRead(more, size, before);
    assert (s.bytes + bytes) + more == s.bytes + (bytes + more);
  }

  lemma ListDenotes(lines: seq<Line>, bytes: seq<int>, relocs: seq<DataReloc>, names: seq<string>, more: seq<int>, size: nat)
    requires Denotes(lines, bytes, relocs, names) && AreBytes(more) && size == 1
    ensures Denotes(lines + [List(size, ListText(more))], bytes + more, relocs, names)
  {
    forall s: Section
      ensures AssembleAll(s, lines + [List(size, ListText(more))]) == Ok(Extended(s, bytes + more, relocs, names))
    {
      AssembleOneMore(s, lines, List(size, ListText(more)));
      assert AssembleAll(s, lines) == Ok(Extended(s, bytes, relocs, names));
      ListExtends(Extended(s, bytes, relocs, names), s, bytes, relocs, names, more, size);
    }
  }

  lemma Concat3<T>(a: seq<T>, b: seq<T>, c: seq<T>)
    ensures (a + b) + c == a + (b + c)
  {
  }

  lemma AddressExtends(before: Section, s: Section, bytes: seq<int>, relocs: seq<DataReloc>, names: seq<string>, r: DataReloc, size: nat)
    requires before == Extended(s, bytes, relocs, names) && r.offset == |bytes| && size == 8
    requires r.target < |names| && PlainName(names[r.target])
    ensures AddItems(size, Dollar(names[r.target]), before) == Ok(Extended(s, bytes + Zeros(8), relocs + [r], names))
  {
    SymbolIsAdded(names[r.target], size, before);
    ExtendedByField(s, bytes, relocs, names, r);
  }

  lemma ExtendedByField(s: Section, bytes: seq<int>, relocs: seq<DataReloc>, names: seq<string>, r: DataReloc)
    requires r.offset == |bytes| && r.target < |names|
    ensures var before := Extended(s, bytes, relocs, names);
            before.(bytes := before.bytes + Zeros(8), relocs := before.relocs + [Reloc(|before.bytes|, names[r.target])]) ==
            Extended(s, bytes + Zeros(8), relocs + [r], names)
  {
    MovedAppend(|s.bytes|, relocs, r, names);
    Concat3(s.bytes, bytes, Zeros(8));
    ConcatRelocs(s.relocs, Moved(|s.bytes|, relocs, names), Reloc(|s.bytes| + r.offset, names[r.target]));
  }

  lemma ConcatRelocs(a: seq<Reloc>, b: seq<Reloc>, r: Reloc)
    ensures (a + b) + [r] == a + (b + [r])
  {
  }

  lemma AddressDenotes(lines: seq<Line>, bytes: seq<int>, relocs: seq<DataReloc>, names: seq<string>, r: DataReloc, size: nat)
    requires Denotes(lines, bytes, relocs, names) && r.offset == |bytes| && size == 8
    requires r.target < |names| && PlainName(names[r.target])
    ensures Denotes(lines + [List(size, Dollar(names[r.target]))], bytes + Zeros(8), relocs + [r], names)
  {
    forall s: Section
      ensures AssembleAll(s, lines + [List(size, Dollar(names[r.target]))]) == Ok(Extended(s, bytes + Zeros(8), relocs + [r], names))
    {
      AssembleOneMore(s, lines, List(size, Dollar(names[r.target])));
      assert AssembleAll(s, lines) == Ok(Extended(s, bytes, relocs, names));
      AddressExtends(Extended(s, bytes, relocs, names), s, bytes, relocs, names, r, size);
    }
  }

  lemma MovedAppend(start: nat, relocs: seq<DataReloc>, r: DataReloc, names: seq<string>)
    requires r.target < |names|
    ensures Moved(start, relocs + [r], names) == Moved(start, relocs, names) + [Reloc(start + r.offset, names[r.target])]
  {
  }

  // ---------------------------------------------------------------------------------------
  // Writing
  // ---------------------------------------------------------------------------------------

  predicate ByOffset(relocs: seq<DataReloc>) {
    forall i, j :: 0 <= i < j < |relocs| ==> relocs[i].offset <= relocs[j].offset
  }

  // The place of a relocation in a sorted list
  method FindPlace(sorted: seq<DataReloc>, r: DataReloc) returns (k: nat)
    requires ByOffset(sorted)
    ensures k <= |sorted|
    ensures forall i :: 0 <= i < k ==> sorted[i].offset <= r.offset
    ensures forall i :: k <= i < |sorted| ==> r.offset <= sorted[i].offset
  {
    k := |sorted|;
    while k > 0 && sorted[k - 1].offset > r.offset
      invariant k <= |sorted|
      invariant forall i :: k <= i < |sorted| ==> r.offset <= sorted[i].offset
    {
      k := k - 1;
    }
  }

  // The relocations from i on are apart from the sorted ones.
  predicate ApartFromRest(sorted: seq<DataReloc>, relocs: seq<DataReloc>, i: nat) {
    forall k, j :: 0 <= k < |sorted| && i <= j < |relocs| ==> Apart(sorted[k], relocs[j])
  }

  lemma InsertedKeepsApart(sorted: seq<DataReloc>, relocs: seq<DataReloc>, i: nat, k: nat)
    requires i < |relocs| && k <= |sorted| && PairwiseApart(sorted) && PairwiseApart(relocs) && ApartFromRest(sorted, relocs, i)
    ensures PairwiseApart(sorted[..k] + [relocs[i]] + sorted[k..])
    ensures ApartFromRest(sorted[..k] + [relocs[i]] + sorted[k..], relocs, i + 1)
  {
    var more := sorted[..k] + [relocs[i]] + sorted[k..];
    forall a | 0 <= a < |more|
      ensures more[a] == if a < k then sorted[a] else if a == k then relocs[i] else sorted[a - 1]
    {
    }
    forall a, b | 0 <= a < b < |more|
      ensures Apart(more[a], more[b])
    {
      if a == k {
        assert Apart(sorted[b - 1], relocs[i]);
      } else if b == k {
        assert Apart(sorted[a], relocs[i]);
      }
    }
  }

  lemma InsertedKeepsOrder(sorted: seq<DataReloc>, r: DataReloc, k: nat)
    requires k <= |sorted| && ByOffset(sorted)
    requires forall i :: 0 <= i < k ==> sorted[i].offset <= r.offset
    requires forall i :: k <= i < |sorted| ==> r.offset <= sorted[i].offset
    ensures ByOffset(sorted[..k] + [r] + sorted[k..])
    ensures multiset(sorted[..k] + [r] + sorted[k..]) == multiset(sorted) + multiset{r}
  {
    assert sorted == sorted[..k] + sorted[k..];
  }

  // A copy of the relocations, by offset
  method SortByOffset(relocs: seq<DataReloc>) returns (sorted: seq<DataReloc>)
    requires PairwiseApart(relocs)
    ensures multiset(sorted) == multiset(relocs) && ByOffset(sorted) && PairwiseApart(sorted)
  {
    sorted := [];
    for i := 0 to |relocs|
      invariant multiset(sorted) == multiset(relocs[..i]) && ByOffset(sorted) && PairwiseApart(sorted)
      invariant ApartFromRest(sorted, relocs, i)
    {
      var k := FindPlace(sorted, relocs[i]);
      InsertedKeepsApart(sorted, relocs, i, k);
      InsertedKeepsOrder(sorted, relocs[i], k);
      assert relocs[..i + 1] == relocs[..i] + [relocs[i]];
      sorted := sorted[..k] + [relocs[i]] + sorted[k..];
    }
    assert relocs[..|relocs|] == relocs;
  }

  // The zeros from offset on, up to stop
  method CountZeros(data: seq<int>, offset: nat, stop: nat) returns (zeros: nat)
    requires offset <= stop <= |data|
    ensures offset + zeros <= stop
    ensures forall i :: offset <= i < offset + zeros ==> data[i] == 0
    ensures offset + zeros < stop ==> data[offset + zeros] != 0
  {
    zeros := 0;
    while offset + zeros < stop && data[offset + zeros] == 0
      invariant offset + zeros <= stop
      invariant forall i :: offset <= i < offset + zeros ==> data[i] == 0
    {
      zeros := zeros + 1;
    }
  }

  // The length of the next list: at most 16 bytes, and it stops where a run of zeros is worth a line of its own.
  method CountBytes(data: seq<int>, offset: nat, stop: nat) returns (n: nat)
    requires offset < stop <= |data|
    ensures 1 <= n <= 16 && offset + n <= stop
  {
    n := 0;
    while offset + n < stop && n < 16
      invariant n <= 16 && offset + n <= stop
    {
      if n > 0 && data[offset + n] == 0 {
        var z := CountZeros(data, offset + n, stop);
        if z >= 8 { break; }
      }
      n := n + 1;
    }
  }

  // The relocations before 'emitted' end at or before offset, the others start there or later.
  predicate Divided(relocs: seq<DataReloc>, emitted: nat, offset: nat) {
    && emitted <= |relocs|
    && (forall k :: 0 <= k < emitted ==> relocs[k].offset + 8 <= offset)
    && (forall k :: emitted <= k < |relocs| ==> offset <= relocs[k].offset)
  }

  // The bytes up to the next relocation are not in a field.
  lemma PlainBytes(data: seq<int>, relocs: seq<DataReloc>, emitted: nat, offset: nat, stop: nat)
    requires Divided(relocs, emitted, offset) && ByOffset(relocs) && offset <= stop <= |data|
    requires emitted < |relocs| ==> stop <= relocs[emitted].offset
    ensures ZeroedData(data, relocs)[offset..stop] == data[offset..stop]
    ensures Divided(relocs, emitted, stop)
  {
    forall k | emitted <= k < |relocs|
      ensures stop <= relocs[k].offset
    {
      if k > emitted {
        assert relocs[emitted].offset <= relocs[k].offset;
      }
    }
  }

  lemma FieldIsZero(data: seq<int>, relocs: seq<DataReloc>, k: nat)
    requires k < |relocs| && relocs[k].offset + 8 <= |data|
    ensures ZeroedData(data, relocs)[relocs[k].offset..relocs[k].offset + 8] == Zeros(8)
  {
  }

  lemma AfterField(relocs: seq<DataReloc>, k: nat, offset: nat)
    requires Divided(relocs, k, offset) && k < |relocs| && relocs[k].offset == offset && ByOffset(relocs) && PairwiseApart(relocs)
    ensures Divided(relocs, k + 1, offset + 8)
  {
    forall j | k + 1 <= j < |relocs|
      ensures offset + 8 <= relocs[j].offset
    {
      assert Apart(relocs[k], relocs[j]) && relocs[k].offset <= relocs[j].offset;
    }
  }

  predicate SortedFields(sorted: seq<DataReloc>, data: seq<int>, names: seq<string>) {
    && ByOffset(sorted) && PairwiseApart(sorted)
    && forall k :: 0 <= k < |sorted| ==> FitsIn(sorted[k], data, names)
  }

  // A run of zeros, or a list of bytes, up to stop
  method WritePlain(data: seq<int>, offset: nat, stop: nat) returns (line: Line, n: nat)
    requires AreBytes(data) && offset < stop <= |data|
    ensures n > 0 && offset + n <= stop
    ensures (line == Times(n) && data[offset..offset + n] == Zeros(n)) || line == List(1, ListText(data[offset..offset + n]))
  {
    var zeros := CountZeros(data, offset, stop);
    if zeros >= 8 || (zeros > 0 && offset + zeros == stop) {
      return Times(zeros), zeros;
    }
    n := CountBytes(data, offset, stop);
    var text := ByteList(data[offset..offset + n]);
    line := List(1, text);
  }

  // The line at offset: the relocation there, or plain data up to the next one
  method WriteLine(data: seq<int>, sorted: seq<DataReloc>, names: seq<string>, next: nat, offset: nat, ghost lines: seq<Line>)
    returns (line: Line, n: nat, isField: bool)
    requires AreBytes(data) && SortedFields(sorted, data, names) && Divided(sorted, next, offset) && offset < |data|
    requires Denotes(lines, ZeroedData(data, sorted)[..offset], sorted[..next], names)
    ensures n > 0 && offset + n <= |data| && Divided(sorted, if isField then next + 1 else next, offset + n)
    ensures Denotes(lines + [line], ZeroedData(data, sorted)[..offset + n], sorted[..if isField then next + 1 else next], names)
  {
    isField := next < |sorted| && sorted[next].offset == offset;
    if isField {
      FieldLineDenotes(data, sorted, names, lines, next, offset, 8);
      line, n := List(8, Dollar(names[sorted[next].target])), 8;
    } else {
      var stop := if next < |sorted| && sorted[next].offset < |data| then sorted[next].offset else |data|;
      line, n := WritePlain(data, offset, stop);
      PlainLineDenotes(data, sorted, names, lines, next, offset, line, n, 1);
    }
  }

  method WriteData(data: seq<int>, sorted: seq<DataReloc>, names: seq<string>) returns (lines: seq<Line>)
    requires AreBytes(data) && SortedFields(sorted, data, names)
    ensures Denotes(lines, ZeroedData(data, sorted), sorted, names)
  {
    lines := [];
    NothingDenotes(names);
    var nextReloc, offset := 0, 0;
    ghost var emitted := 0;
    while offset < |data|
      invariant offset <= |data| && 0 <= nextReloc <= emitted && Divided(sorted, emitted, offset)
      invariant Denotes(lines, ZeroedData(data, sorted)[..offset], sorted[..emitted], names)
    {
      while nextReloc < |sorted| && sorted[nextReloc].offset < offset
        invariant 0 <= nextReloc <= emitted
      {
        nextReloc := nextReloc + 1;
      }
      assert nextReloc == emitted;
      var line, n, isField := WriteLine(data, sorted, names, nextReloc, offset, lines);
      lines := lines + [line];
      offset := offset + n;
      emitted := if isField then nextReloc + 1 else nextReloc;
    }
    assert ZeroedData(data, sorted)[..|data|] == ZeroedData(data, sorted);
    AllEmitted(sorted, data, names, emitted);
    assert sorted[..emitted] == sorted;
  }

  lemma FieldLineDenotes(data: seq<int>, sorted: seq<DataReloc>, names: seq<string>, lines: seq<Line>, emitted: nat, offset: nat, size: nat)
    requires SortedFields(sorted, data, names) && Divided(sorted, emitted, offset) && size == 8
    requires emitted < |sorted| && sorted[emitted].offset == offset
    requires Denotes(lines, ZeroedData(data, sorted)[..offset], sorted[..emitted], names)
    ensures Divided(sorted, emitted + 1, offset + 8) && offset + 8 <= |data|
    ensures sorted[emitted].target < |names|
    ensures Denotes(lines + [List(size, Dollar(names[sorted[emitted].target]))], ZeroedData(data, sorted)[..offset + 8], sorted[..emitted + 1], names)
  {
    var zeroed := ZeroedData(data, sorted);
    FieldIsZero(data, sorted, emitted);
    AddressDenotes(lines, zeroed[..offset], sorted[..emitted], names, sorted[emitted], size);
    AfterField(sorted, emitted, offset);
    assert zeroed[..offset] + zeroed[offset..offset + 8] == zeroed[..offset + 8];
    assert sorted[..emitted] + [sorted[emitted]] == sorted[..emitted + 1];
  }

  lemma AllEmitted(sorted: seq<DataReloc>, data: seq<int>, names: seq<string>, emitted: nat)
    requires SortedFields(sorted, data, names) && Divided(sorted, emitted, |data|)
    ensures emitted == |sorted|
  {
    if emitted < |sorted| {
      var r := sorted[emitted];
      FieldEnds(sorted, data, names, emitted);
    }
  }

  lemma FieldEnds(sorted: seq<DataReloc>, data: seq<int>, names: seq<string>, k: nat)
    requires SortedFields(sorted, data, names) && k < |sorted|
    ensures sorted[k].offset + 8 <= |data|
  {
    assert FitsIn(sorted[k], data, names);
  }

  // A run of zeros or a list, for the bytes it is written for
  lemma ChunkDenotes(lines: seq<Line>, bytes: seq<int>, relocs: seq<DataReloc>, names: seq<string>, line: Line, chunk: seq<int>, n: nat, size: nat)
    requires AreBytes(chunk) && |chunk| == n && size == 1
    requires (line == Times(n) && chunk == Zeros(n)) || line == List(size, ListText(chunk))
    requires Denotes(lines, bytes, relocs, names)
    ensures Denotes(lines + [line], bytes + chunk, relocs, names)
  {
    if line == Times(n) {
      ZerosDenote(lines, bytes, relocs, names, n);
    } else {
      ListDenotes(lines, bytes, relocs, names, chunk, size);
    }
  }

  lemma NextChunkDenotes(lines: seq<Line>, all: seq<int>, offset: nat, n: nat, relocs: seq<DataReloc>, names: seq<string>, line: Line, size: nat)
    requires offset + n <= |all| && AreBytes(all[offset..offset + n]) && size == 1
    requires (line == Times(n) && all[offset..offset + n] == Zeros(n)) || line == List(size, ListText(all[offset..offset + n]))
    requires Denotes(lines, all[..offset], relocs, names)
    ensures Denotes(lines + [line], all[..offset + n], relocs, names)
  {
    ChunkDenotes(lines, all[..offset], relocs, names, line, all[offset..offset + n], n, size);
    TakeMore(all, offset, n);
  }

  lemma PlainLineDenotes(data: seq<int>, sorted: seq<DataReloc>, names: seq<string>, lines: seq<Line>, emitted: nat, offset: nat, line: Line, n: nat,
                         size: nat)
    requires AreBytes(data) && SortedFields(sorted, data, names) && Divided(sorted, emitted, offset) && offset + n <= |data| && size == 1
    requires emitted < |sorted| ==> offset + n <= sorted[emitted].offset
    requires (line == Times(n) && data[offset..offset + n] == Zeros(n)) || line == List(size, ListText(data[offset..offset + n]))
    requires Denotes(lines, ZeroedData(data, sorted)[..offset], sorted[..emitted], names)
    ensures Divided(sorted, emitted, offset + n)
    ensures Denotes(lines + [line], ZeroedData(data, sorted)[..offset + n], sorted[..emitted], names)
  {
    PlainBytes(data, sorted, emitted, offset, offset + n);
    NextChunkDenotes(lines, ZeroedData(data, sorted), offset, n, sorted[..emitted], names, line, size);
  }

  lemma TakeMore(s: seq<int>, offset: nat, n: nat)
    requires offset + n <= |s|
    ensures s[..offset] + s[offset..offset + n] == s[..offset + n]
  {
  }

  // A section with the global at its end: aligned, under its name, with one relocation for each of its addresses. A
  // global without data has one byte.
  function WithGlobal(s: Section, g: Global, sorted: seq<DataReloc>, names: seq<string>): Section {
    var start := |s.bytes| + Padding(|s.bytes|, g.align);
    var bytes := if |g.data| == 0 then [0] else ZeroedData(g.data, g.relocs);
    Section(s.bytes + Zeros(Padding(|s.bytes|, g.align)) + bytes,
            if g.align > s.alignment then g.align else s.alignment,
            s.relocs + Moved(start, sorted, names),
            s.labels[g.symbol := start],
            g.symbol)
  }

  lemma LabelIsSet(name: string, s: Section)
    requires PlainName(name) && name !in s.labels
    ensures Assemble(s, Label(Dollar(name))) == Ok(s.(labels := s.labels[name := |s.bytes|], scope := name))
  {
    assert Dollar(name)[1..] == name;
  }

  lemma SameFields(data: seq<int>, relocs: seq<DataReloc>, sorted: seq<DataReloc>)
    requires multiset(sorted) == multiset(relocs)
    ensures ZeroedData(data, sorted) == ZeroedData(data, relocs)
  {
    forall i: nat | i < |data|
      ensures Covered(sorted, i) == Covered(relocs, i)
    {
      SameCovered(relocs, sorted, i);
      SameCovered(sorted, relocs, i);
    }
  }

  lemma SameCovered(a: seq<DataReloc>, b: seq<DataReloc>, i: nat)
    requires multiset(a) == multiset(b)
    ensures Covered(a, i) ==> Covered(b, i)
  {
    if !Covered(a, i) { return; }
    var k :| 0 <= k < |a| && a[k].offset <= i < a[k].offset + 8;
    assert a[k] in multiset(b);
    var j :| 0 <= j < |b| && b[j] == a[k];
  }

  lemma FieldsFit(g: Global, sorted: seq<DataReloc>, names: seq<string>)
    requires ValidGlobal(g, names) && multiset(sorted) == multiset(g.relocs)
    ensures forall k :: 0 <= k < |sorted| ==> FitsIn(sorted[k], g.data, names)
  {
    forall k | 0 <= k < |sorted|
      ensures FitsIn(sorted[k], g.data, names)
    {
      assert sorted[k] in multiset(g.relocs);
      var j :| 0 <= j < |g.relocs| && g.relocs[j] == sorted[k];
      assert FitsIn(g.relocs[j], g.data, names);
    }
  }

  // What the lines of a global assemble to, in any section that does not have it yet
  lemma GlobalIsPlaced(s: Section, g: Global, sorted: seq<DataReloc>, names: seq<string>, body: seq<Line>, bytes: seq<int>)
    requires PlainName(g.symbol) && g.symbol !in s.labels
    requires bytes == if |g.data| == 0 then [0] else ZeroedData(g.data, g.relocs)
    requires Denotes(body, bytes, sorted, names)
    ensures AssembleAll(s, [Align(g.align), Label(Dollar(g.symbol))] + body) == Ok(WithGlobal(s, g, sorted, names))
  {
    var pad := Padding(|s.bytes|, g.align);
    var alignment := if g.align > s.alignment then g.align else s.alignment;
    var aligned := s.(alignment := alignment, bytes := s.bytes + Zeros(pad));
    var labelled := aligned.(labels := s.labels[g.symbol := |aligned.bytes|], scope := g.symbol);
    LabelIsSet(g.symbol, aligned);
    HeadAssembles(s, aligned, labelled, g.align, Label(Dollar(g.symbol)));
    AssembleConcat(s, [Align(g.align), Label(Dollar(g.symbol))], body);
    assert AssembleAll(labelled, body) == Ok(Extended(labelled, bytes, sorted, names));
  }

  lemma HeadAssembles(s: Section, aligned: Section, labelled: Section, align: int, head: Line)
    requires Assemble(s, Align(align)) == Ok(aligned) && Assemble(aligned, head) == Ok(labelled)
    ensures AssembleAll(s, [Align(align), head]) == Ok(labelled)
  {
    AssembleOneMore(s, [], Align(align));
    assert [] + [Align(align)] == [Align(align)];
    AssembleOneMore(s, [Align(align)], head);
    assert [Align(align)] + [head] == [Align(align), head];
  }

  method EmitGlobalData(g: Global, names: seq<string>) returns (lines: seq<Line>, sorted: seq<DataReloc>)
    requires ValidGlobal(g, names)
    ensures multiset(sorted) == multiset(g.relocs) && ByOffset(sorted)
    ensures forall s: Section :: g.symbol !in s.labels ==> AssembleAll(s, lines) == Ok(WithGlobal(s, g, sorted, names))
  {
    sorted := SortByOffset(g.relocs);
    FieldsFit(g, sorted, names);
    SameFields(g.data, g.relocs, sorted);
    var body := WriteData(g.data, sorted, names);
    ghost var bytes := ZeroedData(g.data, g.relocs);
    if |g.data| == 0 {
      EmptyGlobal(g, sorted, names, body, 1);
      bytes := [0];
      body := body + [List(1, "0")];
    }
    lines := [Align(g.align), Label(Dollar(g.symbol))] + body;
    forall s: Section | g.symbol !in s.labels
      ensures AssembleAll(s, lines) == Ok(WithGlobal(s, g, sorted, names))
    {
      GlobalIsPlaced(s, g, sorted, names, body, bytes);
    }
  }

  lemma EmptyGlobal(g: Global, sorted: seq<DataReloc>, names: seq<string>, body: seq<Line>, size: nat)
    requires |g.data| == 0 && Denotes(body, ZeroedData(g.data, g.relocs), sorted, names) && size == 1
    ensures Denotes(body + [List(size, "0")], [0], sorted, names)
  {
    assert ListText([0]) == Decimal(0) == "0";
    ListDenotes(body, ZeroedData(g.data, g.relocs), sorted, names, [0], size);
    assert ZeroedData(g.data, g.relocs) + [0] == [0];
  }

  // The global starts at a multiple of its alignment, and the fields of its relocations are in its bytes.
  lemma GlobalIsAligned(s: Section, g: Global, sorted: seq<DataReloc>, names: seq<string>)
    requires ValidGlobal(g, names) && multiset(sorted) == multiset(g.relocs)
    ensures var placed := WithGlobal(s, g, sorted, names);
            var start := placed.labels[g.symbol];
            && (g.align > 1 ==> start % g.align == 0) && start >= |s.bytes|
            && placed.alignment >= g.align && placed.alignment >= s.alignment
            && placed.bytes[start..] == (if |g.data| == 0 then [0] else ZeroedData(g.data, g.relocs))
            && placed.bytes[..|s.bytes|] == s.bytes && placed.relocs[..|s.relocs|] == s.relocs
            && |placed.relocs| == |s.relocs| + |g.relocs|
            && (forall k :: 0 <= k < |sorted| ==>
                  && sorted[k].target < |names|
                  && placed.relocs[|s.relocs| + k] == Reloc(start + sorted[k].offset, names[sorted[k].target]))
  {
    FieldsFit(g, sorted, names);
    forall k | 0 <= k < |sorted|
      ensures sorted[k].target < |names|
    {
      assert FitsIn(sorted[k], g.data, names);
    }
    if g.align > 1 {
      PaddingAligns(|s.bytes|, g.align);
    }
    assert |sorted| == |multiset(sorted)| == |multiset(g.relocs)| == |g.relocs|;
  }
}
