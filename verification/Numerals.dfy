/** The numbers and names that the assembler reads in data: decimal, hexadecimal, octal and negative numbers as what they
    denote, and local labels apart from each other. */
module Numerals {
  import opened AsmData

  // A digit in any base up to 16, in small letters
  function Numeral(d: nat): char
    requires d < 16
  {
    if d < 10 then ('0' as int + d) as char else ('a' as int + (d - 10)) as char
  }

  function InBase(n: nat, base: nat): (s: string)
    requires 2 <= base <= 16
    ensures |s| > 0
    decreases n
  {
    if n < base then [Numeral(n)] else InBase(n / base, base) + [Numeral(n % base)]
  }

  // Capital letters denote the same digits.
  predicate SameDigits(s: string, t: string) {
    |s| == |t| && forall i :: 0 <= i < |s| ==> DigitValue(s[i]) == DigitValue(t[i])
  }

  predicate AreDigitsOf(s: string, base: nat) {
    forall i :: 0 <= i < |s| ==> DigitValue(s[i]) < base
  }

  lemma {:induction false} DigitsCounted(s: string, base: nat)
    requires AreDigitsOf(s, base)
    ensures DigitCount(s, base) == |s|
    decreases |s|
  {
    if |s| > 0 {
      DigitsCounted(s[1..], base);
    }
  }

  lemma {:induction false} ValueOfMore(s: string, c: char, base: nat, before: nat)
    ensures ValueFrom(s + [c], base, before) == ValueFrom(s, base, before) * base + DigitValue(c)
    decreases |s|
  {
    if |s| == 0 {
      assert (s + [c])[1..] == [];
    } else {
      assert (s + [c])[0] == s[0] && (s + [c])[1..] == s[1..] + [c];
      ValueOfMore(s[1..], c, base, before * base + DigitValue(s[0]));
    }
  }

  lemma {:induction false} SameValue(s: string, t: string, base: nat, before: nat)
    requires SameDigits(s, t)
    ensures ValueFrom(s, base, before) == ValueFrom(t, base, before)
    decreases |s|
  {
    if |s| > 0 {
      SameValue(s[1..], t[1..], base, before * base + DigitValue(s[0]));
    }
  }

  lemma {:induction false} InBaseDenotes(n: nat, base: nat)
    requires 2 <= base <= 16
    ensures AreDigitsOf(InBase(n, base), base) && ValueFrom(InBase(n, base), base, 0) == n
    ensures n > 0 ==> InBase(n, base)[0] != '0'
    decreases n
  {
    if n < base {
      assert [Numeral(n)] == [] + [Numeral(n)];
      OneMoreDigit([], n, base, 0);
    } else {
      InBaseDenotes(n / base, base);
      OneMoreDigit(InBase(n / base, base), n % base, base, n / base);
      Division(n, base);
    }
  }

  lemma OneMoreDigit(s: string, d: nat, base: nat, before: nat)
    requires d < base <= 16 && AreDigitsOf(s, base) && ValueFrom(s, base, 0) == before && (|s| > 0 ==> s[0] != '0')
    ensures AreDigitsOf(s + [Numeral(d)], base) && ValueFrom(s + [Numeral(d)], base, 0) == before * base + d
    ensures |s| > 0 || d > 0 ==> (s + [Numeral(d)])[0] != '0'
  {
    hide Numeral, ValueFrom, DigitValue;
    NumeralDenotes(d);
    ValueOfMore(s, Numeral(d), base, 0);
  }

  lemma NumeralDenotes(d: nat)
    requires d < 16
    ensures DigitValue(Numeral(d)) == d && (d > 0 ==> Numeral(d) != '0')
  {
  }

  lemma Division(n: nat, base: nat)
    requires base > 0
    ensures n == n / base * base + n % base
  {
  }

  lemma NoSpaces(s: string)
    requires |s| > 0 && '0' <= s[0] <= '9'
    ensures SkipSpaces(s) == s
  {
  }

  lemma HexRead(s: string, digits: string)
    requires |s| > 2 && s[0] == '0' && (s[1] == 'x' || s[1] == 'X') && s[2..] == digits
    requires AreDigitsOf(digits, 16) && ValueFrom(digits, 16, 0) < U64
    ensures Strtoull(s) == (ValueFrom(digits, 16, 0), [])
  {
    hide SkipSpaces, DigitCount, ValueFrom;
    NoSpaces(s);
    DigitsCounted(digits, 16);
    assert digits[..|digits|] == digits && digits[|digits|..] == [];
    assert s[2] == s[2..][0];
  }

  lemma OctalRead(s: string, digits: string)
    requires |s| > 1 && s[0] == '0' && s[1..] == digits && AreDigitsOf(digits, 8) && ValueFrom(digits, 8, 0) < U64
    ensures Strtoull(s) == (ValueFrom(digits, 8, 0), [])
  {
    NoSpaces(s);
    assert s[1] == s[1..][0];
    forall i | 0 <= i < |s|
      ensures DigitValue(s[i]) < 8
    {
      assert i > 0 ==> s[i] == digits[i - 1];
    }
    DigitsCounted(s, 8);
    assert s[..|s|] == s && s[|s|..] == [];
  }

  lemma DecimalRead(s: string)
    requires |s| > 0 && '1' <= s[0] <= '9' && AreDigitsOf(s, 10) && ValueFrom(s, 10, 0) < U64
    ensures Strtoull(s) == (ValueFrom(s, 10, 0), [])
  {
    hide SkipSpaces, DigitCount, ValueFrom, AreDigitsOf, DigitValue;
    NoSpaces(s);
    DigitsCounted(s, 10);
    assert s[..|s|] == s && s[|s|..] == [];
  }

  lemma IsParsed(s: string, n: nat)
    requires 0 < |s| < 39 && '0' <= s[0] <= '9' && Strtoull(s) == (n, []) && 0 < n < U64
    ensures ParseNumber(s) == Word(n) && ParseNumber("-" + s) == Word(U64 - n)
  {
    hide Strtoull;
    assert ("-" + s)[1..] == s;
  }

  // A number in decimal, in octal, or in hexadecimal with small or capital letters, is read as that number, and with a minus
  // as its complement.
  lemma NumberIsRead(n: nat, base: nat, prefix: string, digits: string)
    requires 0 < n < U64 && 2 <= base <= 16 && SameDigits(digits, InBase(n, base)) && |digits| < 36
    requires (base == 10 && prefix == "") || (base == 8 && prefix == "0") || (base == 16 && (prefix == "0x" || prefix == "0X"))
    ensures ParseNumber(prefix + digits) == Word(n) && ParseNumber("-" + (prefix + digits)) == Word(U64 - n)
  {
    hide Strtoull, ParseNumber;
    var s := prefix + digits;
    InBaseDenotes(n, base);
    SameValue(digits, InBase(n, base), base, 0);
    FirstDigit(digits, InBase(n, base));
    if base == 16 {
      assert s[2..] == digits;
      HexRead(s, digits);
    } else if base == 8 {
      assert s[1..] == digits;
      OctalRead(s, digits);
    } else {
      assert s == digits;
      DecimalRead(s);
    }
    IsParsed(s, n);
  }

  lemma FirstDigit(digits: string, other: string)
    requires SameDigits(digits, other) && |digits| > 0 && other[0] != '0' && DigitValue(other[0]) < 16
    ensures DigitValue(digits[0]) < 10 ==> '1' <= digits[0] <= '9'
  {
  }

  // ---------------------------------------------------------------------------------------
  // Local labels
  // ---------------------------------------------------------------------------------------

  // A local label has the name of its scope before its own: labels with different names, or of different functions, differ.
  lemma SameLocalLabelIff(a: string, b: string, scopeA: string, scopeB: string)
    requires '.' !in scopeA && '.' !in scopeB && |scopeA| + 1 + |a| <= 159 && |scopeB| + 1 + |b| <= 159
    ensures SymbolName("." + a, scopeA) == SymbolName("." + b, scopeB) <==> a == b && scopeA == scopeB
  {
    var x, y := scopeA + ("." + a), scopeB + ("." + b);
    if x == y {
      SameScope(a, b, scopeA, scopeB);
      SameScope(b, a, scopeB, scopeA);
      assert x[..|scopeA|] == scopeA && y[..|scopeB|] == scopeB;
      assert x[|scopeA| + 1..] == a && y[|scopeB| + 1..] == b;
    }
  }

  // It is one of the label before it that is not local, also behind other local ones.
  lemma LocalLabelIsPlaced(s: Section, a: string)
    requires |s.scope| + 1 + |a| <= 159 && s.scope + ("." + a) !in s.labels
    ensures Assemble(s, Label("." + a)) == Ok(s.(labels := s.labels[s.scope + ("." + a) := |s.bytes|]))
  {
    assert SymbolName("." + a, s.scope) == s.scope + ("." + a);
  }

  lemma SameScope(a: string, b: string, scopeA: string, scopeB: string)
    requires scopeA + ("." + a) == scopeB + ("." + b) && '.' !in scopeB
    ensures |scopeB| <= |scopeA|
  {
    var x, y := scopeA + ("." + a), scopeB + ("." + b);
    assert x[|scopeA|] == '.';
    assert forall i :: 0 <= i < |scopeB| ==> y[i] == scopeB[i];
  }
}
