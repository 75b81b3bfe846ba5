/** Assembling the data directives: align, labels, times, and the lists of db and dq, whose text is read character by
    character. */
module AsmData {
  import opened LittleEndians

  // A section while it is assembled; scope is the last label that is not local to another one.
  datatype Reloc = Reloc(offset: nat, symbol: string)

  datatype Section = Section(bytes: seq<int>, alignment: int, relocs: seq<Reloc>, labels: map<string, nat>, scope: string)

  // Text, as the emitter writes it: the operands of a list are still text.
  datatype Line = Align(align: int) | Label(symbol: string) | Times(count: nat) | List(size: nat, rest: string)

  datatype Assembled = Ok(section: Section) | Failed

  const U64 := 0x1_0000_0000_0000_0000

  predicate IsBlank(c: char) {
    c == ' ' || c == '\t'
  }

  predicate IsLineEnd(c: char) {
    IsBlank(c) || c == '\n' || c == '\r'
  }

  // ---------------------------------------------------------------------------------------
  // Numbers
  // ---------------------------------------------------------------------------------------

  // The value of a digit, or 99
  function DigitValue(c: char): nat {
    if '0' <= c <= '9' then c as int - '0' as int
    else if 'a' <= c <= 'z' then c as int - 'a' as int + 10
    else if 'A' <= c <= 'Z' then c as int - 'A' as int + 10
    else 99
  }

  function DigitCount(s: string, base: nat): (n: nat)
    ensures n <= |s|
    decreases |s|
  {
    if |s| > 0 && DigitValue(s[0]) < base then 1 + DigitCount(s[1..], base) else 0
  }

  // The number with the digits s behind the ones whose value is before
  function ValueFrom(s: string, base: nat, before: nat): nat
    decreases |s|
  {
    if |s| == 0 then before else ValueFrom(s[1..], base, before * base + DigitValue(s[0]))
  }

  predicate IsSpace(c: char) {
    IsLineEnd(c) || c as int == 11 || c as int == 12
  }

  function SkipSpaces(s: string): (r: string)
    ensures |r| <= |s|
    decreases |s|
  {
    if |s| > 0 && IsSpace(s[0]) then SkipSpaces(s[1..]) else s
  }

  // strtoull with base 0: the number as a word of 64 bits, and what comes after it
  function Strtoull(s: string): (nat, string) {
    var t := SkipSpaces(s);
    var hasSign := |t| > 0 && (t[0] == '+' || t[0] == '-');
    var u := if hasSign then t[1..] else t;
    var isHex := |u| > 2 && u[0] == '0' && (u[1] == 'x' || u[1] == 'X') && DigitValue(u[2]) < 16;
    var base := if isHex then 16 else if |u| > 0 && u[0] == '0' then 8 else 10;
    var digits := if isHex then u[2..] else u;
    var n := DigitCount(digits, base);
    if n == 0 then (0, s)
    else
      var value := ValueFrom(digits[..n], base, 0);
      (if value >= U64 then U64 - 1 else if hasSign && t[0] == '-' then (U64 - value) % U64 else value, digits[n..])
  }

  datatype Number = Word(word: nat) | NoNumber

  function ParseNumber(s: string): Number {
    if |s| == 0 || |s| >= 40 then NoNumber
    else if s[0] == '-' then
      var parsed := Strtoull(s[1..]);
      if parsed.1 == [] then Word((U64 - parsed.0) % U64) else NoNumber
    else if '0' <= s[0] <= '9' then
      var parsed := Strtoull(s);
      if parsed.1 == [] then Word(parsed.0) else NoNumber
    else NoNumber
  }

  // ---------------------------------------------------------------------------------------
  // Lists
  // ---------------------------------------------------------------------------------------

  function SkipBlanks(s: string): (r: string)
    ensures |r| <= |s|
    decreases |s|
  {
    if |s| > 0 && IsBlank(s[0]) then SkipBlanks(s[1..]) else s
  }

  // Up to the first comma
  function ItemLength(s: string): (n: nat)
    ensures n <= |s|
    decreases |s|
  {
    if |s| > 0 && s[0] != ',' then 1 + ItemLength(s[1..]) else 0
  }

  function TrimEnd(s: string): string
    decreases |s|
  {
    if |s| > 0 && IsLineEnd(s[|s| - 1]) then TrimEnd(s[..|s| - 1]) else s
  }

  // A '$' is left out, and a local name is made one of its scope; names are cut at 159 characters.
  function SymbolName(s: string, scope: string): string {
    var name := if |s| > 0 && s[0] == '$' then s[1..] else s;
    var full := if |name| > 0 && name[0] == '.' then scope + name else name;
    if |full| > 159 then full[..159] else full
  }

  function AddItem(size: nat, item: string, s: Section): Assembled {
    if |item| == 0 then Ok(s)
    else
      match ParseNumber(item)
      case Word(word) => Ok(s.(bytes := s.bytes + LittleEndian(word, size)))
      case NoNumber =>
        if size == 8 then
          Ok(s.(bytes := s.bytes + Zeros(8), relocs := s.relocs + [Reloc(|s.bytes|, SymbolName(item, s.scope))]))
        else Failed
  }

  function AddItems(size: nat, text: string, s: Section): Assembled
    decreases |text|
  {
    if |text| == 0 then Ok(s)
    else
      var p := SkipBlanks(text);
      var n := ItemLength(p);
      var added := AddItem(size, TrimEnd(p[..n]), s);
      if added.Failed? then Failed else AddItems(size, if n < |p| then p[n + 1..] else [], added.section)
  }

  // The rest of a division by the alignment
  function Remainder(size: nat, align: nat): (r: nat)
    requires align > 0
    ensures r < align
    decreases size
  {
    if size < align then size else Remainder(size - align, align)
  }

  lemma ProductGrows(a: int, k: int)
    requires a >= 0
    ensures k >= 1 ==> a * k >= a
    ensures k <= -1 ==> a * k <= -a
  {
    if k >= 1 {
      assert a * k == a + a * (k - 1) && a * (k - 1) >= 0;
    } else if k <= -1 {
      assert a * k == -a - a * (-1 - k) && a * (-1 - k) >= 0;
    }
  }

  lemma OneRemainder(a: nat, p: int, r: int, q: int, s: int)
    requires a > 0 && 0 <= r < a && 0 <= s < a && a * p + r == a * q + s
    ensures r == s
  {
    ProductGrows(a, p - q);
    assert a * (p - q) == s - r;
  }

  // It is the one of the operator.
  lemma {:induction false} RemainderIsMod(size: nat, align: nat)
    requires align > 0
    ensures Remainder(size, align) == size % align
    decreases size
  {
    var q, r := size / align, size % align;
    assert size == align * q + r;
    if size < align {
      OneRemainder(align, q, r, 0, size);
    } else {
      RemainderIsMod(size - align, align);
      var before := size - align;
      assert before == align * (before / align) + before % align;
      assert before == align * (q - 1) + r;
      OneRemainder(align, before / align, before % align, q - 1, r);
    }
  }

  // How many bytes are put until the size is a multiple of the alignment
  function Padding(size: nat, align: int): nat {
    if align <= 1 || Remainder(size, align) == 0 then 0 else align - Remainder(size, align)
  }

  lemma PaddingAligns(size: nat, align: int)
    requires align > 1
    ensures Padding(size, align) < align && (size + Padding(size, align)) % align == 0
  {
    PaddedRemainder(size, align);
    RemainderIsMod(size + Padding(size, align), align);
  }

  lemma {:induction false} PaddedRemainder(size: nat, align: int)
    requires align > 1
    ensures Padding(size, align) < align && Remainder(size + Padding(size, align), align) == 0
    decreases size
  {
    if size >= align {
      PaddedRemainder(size - align, align);
    } else if size > 0 {
      assert Remainder(align, align) == Remainder(0, align);
    }
  }

  // A line of a data section
  function Assemble(s: Section, line: Line): Assembled {
    match line
    case Align(align) =>
      Ok(s.(alignment := if align > s.alignment then align else s.alignment, bytes := s.bytes + Zeros(Padding(|s.bytes|, align))))
    case Label(symbol) =>
      var name := SymbolName(symbol, s.scope);
      if name in s.labels then Failed
      else Ok(s.(labels := s.labels[name := |s.bytes|], scope := if |symbol| > 0 && symbol[0] == '.' then s.scope else name))
    case Times(count) => Ok(s.(bytes := s.bytes + Zeros(count)))
    case List(size, rest) => AddItems(size, rest, s)
  }

  function AssembleAll(s: Section, lines: seq<Line>): Assembled
    decreases |lines|
  {
    if |lines| == 0 then Ok(s)
    else
      var before := AssembleAll(s, lines[..|lines| - 1]);
      if before.Failed? then Failed else Assemble(before.section, lines[|lines| - 1])
  }

  lemma AssembleOneMore(s: Section, lines: seq<Line>, line: Line)
    ensures AssembleAll(s, lines + [line]) ==
            var before := AssembleAll(s, lines);
            if before.Failed? then Failed else Assemble(before.section, line)
  {
    assert (lines + [line])[..|lines|] == lines;
  }

  lemma {:induction false} AssembleConcat(s: Section, a: seq<Line>, b: seq<Line>)
    ensures AssembleAll(s, a + b) ==
            var first := AssembleAll(s, a);
            if first.Failed? then Failed else AssembleAll(first.section, b)
    decreases |b|
  {
    if |b| == 0 {
      assert a + b == a;
    } else {
      assert (a + b)[..|a + b| - 1] == a + b[..|b| - 1];
      AssembleConcat(s, a, b[..|b| - 1]);
    }
  }

  // ---------------------------------------------------------------------------------------
  // The loops over the text
  // ---------------------------------------------------------------------------------------

  lemma {:induction false} RemainderOfNext(size: nat, align: nat)
    requires align > 0
    ensures Remainder(size + 1, align) == if Remainder(size, align) + 1 == align then 0 else Remainder(size, align) + 1
    decreases size
  {
    if size >= align {
      RemainderOfNext(size - align, align);
    } else if size + 1 == align {
      assert Remainder(size + 1, align) == Remainder(0, align);
    }
  }

  method PadTo(bytes: seq<int>, align: int) returns (padded: seq<int>)
    ensures padded == bytes + Zeros(Padding(|bytes|, align))
  {
    padded := bytes;
    ghost var n := 0;
    while align > 1 && Remainder(|padded|, align) != 0
      invariant padded == bytes + Zeros(n) && n + Padding(|padded|, align) == Padding(|bytes|, align)
      decreases Padding(|padded|, align)
    {
      RemainderOfNext(|padded|, align);
      padded := padded + [0];
      n := n + 1;
    }
  }

  lemma {:induction false} TrimmedTo(s: string, n: nat)
    requires n <= |s| && forall i :: n <= i < |s| ==> IsLineEnd(s[i])
    ensures TrimEnd(s) == TrimEnd(s[..n])
    decreases |s|
  {
    if n < |s| {
      assert s[..|s| - 1][..n] == s[..n];
      TrimmedTo(s[..|s| - 1], n);
    } else {
      assert s[..n] == s;
    }
  }

  method SkipFrom(text: string, at: nat) returns (p: nat)
    requires at <= |text|
    ensures at <= p <= |text| && SkipBlanks(text[at..]) == text[p..]
  {
    p := at;
    while p < |text| && IsBlank(text[p])
      invariant at <= p <= |text| && SkipBlanks(text[at..]) == SkipBlanks(text[p..])
    {
      assert text[p..][1..] == text[p + 1..];
      p := p + 1;
    }
  }

  method EndOfItem(text: string, p: nat) returns (end: nat)
    requires p <= |text|
    ensures end == p + ItemLength(text[p..])
  {
    end := p;
    while end < |text| && text[end] != ','
      invariant p <= end <= |text| && ItemLength(text[p..]) == end - p + ItemLength(text[end..])
    {
      assert text[end..][1..] == text[end + 1..];
      end := end + 1;
    }
  }

  method TrimmedLength(item: string) returns (length: nat)
    ensures length <= |item| && item[..length] == TrimEnd(item)
  {
    length := |item|;
    while length > 0 && IsLineEnd(item[length - 1])
      invariant length <= |item| && forall i :: length <= i < |item| ==> IsLineEnd(item[i])
    {
      length := length - 1;
    }
    TrimmedTo(item, length);
  }

  // A list of numbers, or of the addresses of symbols
  method AssembleList(section: Section, size: nat, rest: string) returns (r: Assembled)
    ensures r == Assemble(section, List(size, rest))
  {
    var s := section;
    var at := 0;
    assert rest[0..] == rest;
    while at < |rest|
      invariant at <= |rest| && AddItems(size, rest, section) == AddItems(size, rest[at..], s)
      decreases |rest| - at
    {
      var p := SkipFrom(rest, at);
      var end := EndOfItem(rest, p);
      assert rest[p..][..end - p] == rest[p..end];
      var length := TrimmedLength(rest[p..end]);
      var item := rest[p..end][..length];
      if length > 0 {
        match ParseNumber(item)
        case Word(word) => s := s.(bytes := s.bytes + LittleEndian(word, size));
        case NoNumber =>
          if size == 8 {
            s := s.(bytes := s.bytes + Zeros(8), relocs := s.relocs + [Reloc(|s.bytes|, SymbolName(item, s.scope))]);
          } else {
            return Failed;
          }
      }
      at := if end < |rest| then end + 1 else end;
      if end < |rest| {
        assert rest[p..][end - p + 1..] == rest[at..];
      }
    }
    r := Ok(s);
  }

  method AssembleLine(section: Section, line: Line) returns (r: Assembled)
    ensures r == Assemble(section, line)
  {
    match line
    case Align(align) => {
      var padded := PadTo(section.bytes, align);
      r := Ok(section.(alignment := if align > section.alignment then align else section.alignment, bytes := padded));
    }
    case Label(symbol) => {
      var name := SymbolName(symbol, section.scope);
      if name in section.labels {
        return Failed;
      }
      r := Ok(section.(labels := section.labels[name := |section.bytes|],
                       scope := if |symbol| > 0 && symbol[0] == '.' then section.scope else name));
    }
    case Times(count) => {
      var bytes := section.bytes;
      for i := 0 to count
        invariant bytes == section.bytes + Zeros(i)
      {
        bytes := bytes + [0];
      }
      r := Ok(section.(bytes := bytes));
    }
    case List(size, rest) => {
      r := AssembleList(section, size, rest);
    }
  }

  // The lines of a data section, one after the other
  method AssembleLines(section: Section, lines: seq<Line>) returns (r: Assembled)
    ensures r == AssembleAll(section, lines)
  {
    r := Ok(section);
    assert lines[..0] == [];
    for i := 0 to |lines|
      invariant r == AssembleAll(section, lines[..i])
    {
      AssembleOneMore(section, lines[..i], lines[i]);
      assert lines[..i + 1] == lines[..i] + [lines[i]];
      if r.Ok? {
        r := AssembleLine(r.section, lines[i]);
      }
    }
    assert lines[..|lines|] == lines;
  }
}
