/** The relocations that are read back, and linking what was read. */
module CoffLinked {
  import opened LittleEndians
  import opened Objects
  import opened CoffFormat
  import opened CoffWriter
  import opened CoffReader
  import opened CoffRoundTrip

  const MAX_COUNT := 0x1_0000

  function TargetBack(obj: Object, i: nat): (target: nat)
    requires IsAssembled(obj) && i < |obj.relocs|
  {
    assert ValidSymbol(obj.symbols[obj.relocs[i].symbol]);
    Target(obj, i)
  }

  function RelocBack(obj: Object, i: nat): Reloc
    requires IsAssembled(obj) && i < |obj.relocs|
  {
    var r := obj.relocs[i];
    Reloc(r.section, r.offset, r.kind, TargetBack(obj, i), Signed(LittleEndian(FieldAddend(obj, i), r.Size())),
          if r.kind.Abs64? then 0 else r.trailing)
  }

  function RelocsBack(obj: Object, which: seq<nat>): (back: seq<Reloc>)
    requires IsAssembled(obj) && forall j :: 0 <= j < |which| ==> which[j] < |obj.relocs|
    ensures |back| == |which| && forall j :: 0 <= j < |which| ==> back[j] == RelocBack(obj, which[j])
  {
    seq(|which|, j requires 0 <= j < |which| => RelocBack(obj, which[j]))
  }

  // The relocations of a section that the reader gets to: the header counts them in 16 bits.
  function Counted(obj: Object, s: nat): (which: seq<nat>)
    requires ValidFields(obj)
    ensures forall j :: 0 <= j < |which| ==> which[j] < |obj.relocs|
  {
    var left := LeftIn(obj, s, |obj.relocs|);
    left[..|left| % MAX_COUNT]
  }

  function ReadOrder(obj: Object): (order: seq<nat>)
    requires ValidFields(obj)
    ensures forall j :: 0 <= j < |order| ==> order[j] < |obj.relocs|
  {
    Counted(obj, 0) + Counted(obj, 1) + Counted(obj, 2)
  }

  // What is read back from the file
  function ObjectBack(obj: Object, sections: Sections): Object
    requires IsAssembled(obj)
  {
    Object(sections, SymbolsBack(obj.symbols, |obj.symbols|), RelocsBack(obj, ReadOrder(obj)))
  }

  // ---------------------------------------------------------------------------------------
  // Relocations
  // ---------------------------------------------------------------------------------------

  lemma TargetIsRecord(obj: Object, i: nat)
    requires IsAssembled(obj) && i < |obj.relocs|
    ensures TargetBack(obj, i) < |RecordsOf(obj.symbols, |obj.symbols|)|
  {
    var index := obj.relocs[i].symbol;
    assert ValidSymbol(obj.symbols[index]);
    if obj.symbols[index].IsExternal() {
      RecordAt(obj.symbols, index);
    }
  }

  lemma ReadsReloc(e: CoffReloc, r: Reloc, sections: Sections, of: seq<int>, target: nat, addend: int)
    requires ValidReloc(r) && r.FitsIn(sections) && Holds(sections, r, addend)
    requires e == CoffReloc(r.offset, target, if r.kind.Abs64? then 1 else 4 + r.trailing)
    requires target < |of| && of[target] == target
    ensures ReadReloc(e, r.section, 0, sections, of) ==
            Relocs([Reloc(r.section, r.offset, r.kind, target, Signed(LittleEndian(addend, r.Size())), if r.kind.Abs64? then 0 else r.trailing)])
  {
    var made := Reloc(r.section, r.offset, r.kind, 0, 0, if r.kind.Abs64? then 0 else r.trailing);
    assert FieldOf(sections, made) == FieldOf(sections, r);
  }

  ghost predicate EachIsRead(obj: Object, sections: Sections, of: seq<int>)
    requires IsAssembled(obj)
  {
    forall i: nat {:trigger RelocBack(obj, i)} :: i < |obj.relocs| && !IsResolved(obj, i) ==>
      ReadReloc(RelocRecord(obj, i), obj.relocs[i].section, 0, sections, of) == Relocs([RelocBack(obj, i)])
  }

  lemma RelocIsRead(obj: Object, i: nat, sections: Sections, of: seq<int>)
    requires IsAssembled(obj) && i < |obj.relocs| && IsWritten(obj, sections) && !IsResolved(obj, i)
    requires of == Identity(|RecordsOf(obj.symbols, |obj.symbols|)|)
    ensures ReadReloc(RelocRecord(obj, i), obj.relocs[i].section, 0, sections, of) == Relocs([RelocBack(obj, i)])
  {
    var r := obj.relocs[i];
    assert ValidReloc(r);
    assert IsDone(obj, i, |obj.relocs|, |obj.relocs|);
    TargetIsRecord(obj, i);
    ReadsReloc(RelocRecord(obj, i), r, sections, of, TargetBack(obj, i), FieldAddend(obj, i));
  }

  lemma StepReads(file: CoffFile, p: Placing, of: seq<int>, i: nat, k: nat, before: seq<Reloc>, one: seq<Reloc>)
    requires i < |file.sections| == |p.placedIn| == |p.placedAt| && p.placedIn[i] >= 0 && 0 < k <= |file.sections[i].relocs|
    requires SectionRelocs(file, p, of, i, k - 1) == Relocs(before)
    requires ReadReloc(file.sections[i].relocs[k - 1], p.placedIn[i], p.placedAt[i], p.sections, of) == Relocs(one)
    ensures SectionRelocs(file, p, of, i, k) == Relocs(before + one)
  {
  }

  lemma {:induction false} SectionRelocsAreRead(file: CoffFile, p: Placing, of: seq<int>, s: nat, back: seq<Reloc>, k: nat)
    requires s < |file.sections| == |p.placedIn| == |p.placedAt| && p.placedIn[s] >= 0 && k <= |back| <= |file.sections[s].relocs|
    requires forall j :: 0 <= j < |back| ==>
               ReadReloc(file.sections[s].relocs[j], p.placedIn[s], p.placedAt[s], p.sections, of) == Relocs([back[j]])
    ensures SectionRelocs(file, p, of, s, k) == Relocs(back[..k])
    decreases k
  {
    if k > 0 {
      SectionRelocsAreRead(file, p, of, s, back, k - 1);
      StepReads(file, p, of, s, k, back[..k - 1], [back[k - 1]]);
      assert back[..k] == back[..k - 1] + [back[k - 1]];
    }
  }

  lemma SectionsTogether(file: CoffFile, p: Placing, of: seq<int>, a: seq<Reloc>, b: seq<Reloc>, c: seq<Reloc>)
    requires SECTION_COUNT == |file.sections| && p.placedIn == [0, 1, 2] && p.placedAt == [0, 0, 0]
    requires SectionRelocs(file, p, of, 0, file.sections[0].relocCount) == Relocs(a)
    requires SectionRelocs(file, p, of, 1, file.sections[1].relocCount) == Relocs(b)
    requires SectionRelocs(file, p, of, 2, file.sections[2].relocCount) == Relocs(c)
    ensures RelocsUpTo(file, p, of, SECTION_COUNT) == Relocs(a + b + c)
  {
    assert [] + a == a;
    assert RelocsUpTo(file, p, of, 1) == Relocs(a);
    assert RelocsUpTo(file, p, of, 2) == Relocs(a + b);
  }

  lemma BackOfThree(obj: Object, a: seq<nat>, b: seq<nat>, c: seq<nat>, all: seq<nat>)
    requires IsAssembled(obj) && all == a + b + c && forall j :: 0 <= j < |all| ==> all[j] < |obj.relocs|
    requires forall j :: 0 <= j < |a| ==> a[j] < |obj.relocs|
    requires forall j :: 0 <= j < |b| ==> b[j] < |obj.relocs|
    requires forall j :: 0 <= j < |c| ==> c[j] < |obj.relocs|
    ensures RelocsBack(obj, all) == RelocsBack(obj, a) + RelocsBack(obj, b) + RelocsBack(obj, c)
  {
    hide IsAssembled, RelocBack, RelocsBack;
    var x, y, z := RelocsBack(obj, a), RelocsBack(obj, b), RelocsBack(obj, c);
    forall j | 0 <= j < |all|
      ensures RelocsBack(obj, all)[j] == (x + y + z)[j]
    {
      assert RelocsBack(obj, all)[j] == RelocBack(obj, all[j]);
      if j < |a| {
        assert all[j] == a[j];
      } else if j < |a| + |b| {
        assert all[j] == b[j - |a|];
      } else {
        assert all[j] == c[j - |a| - |b|];
      }
    }
  }

  predicate HasRelocs(file: CoffFile, obj: Object)
    requires ValidFields(obj)
  {
    |file.sections| == SECTION_COUNT && forall s :: 0 <= s < SECTION_COUNT ==>
      file.sections[s].relocs == RelocRecords(obj, s, |obj.relocs|) && file.sections[s].relocCount == |file.sections[s].relocs| % MAX_COUNT
  }

  lemma CountedAreRead(obj: Object, file: CoffFile, p: Placing, of: seq<int>, s: nat)
    requires IsAssembled(obj) && EachIsRead(obj, p.sections, of) && HasRelocs(file, obj) && s < SECTION_COUNT
    requires p.placedIn == [0, 1, 2] && p.placedAt == [0, 0, 0]
    ensures SectionRelocs(file, p, of, s, file.sections[s].relocCount) == Relocs(RelocsBack(obj, Counted(obj, s)))
  {
    hide ReadReloc, RelocBack, RelocRecord, SectionRelocs, ValidFields;
    var which := Counted(obj, s);
    var back := RelocsBack(obj, which);
    forall j | 0 <= j < |back|
      ensures ReadReloc(file.sections[s].relocs[j], s, 0, p.sections, of) == Relocs([back[j]])
    {
      assert back[j] == RelocBack(obj, which[j]) && which[j] == LeftIn(obj, s, |obj.relocs|)[j];
    }
    SectionRelocsAreRead(file, p, of, s, back, |back|);
    assert back[..|back|] == back;
  }

  lemma RelocsAreRead(obj: Object, file: CoffFile, p: Placing, of: seq<int>)
    requires IsAssembled(obj) && EachIsRead(obj, p.sections, of) && HasRelocs(file, obj)
    requires p.placedIn == [0, 1, 2] && p.placedAt == [0, 0, 0]
    ensures RelocsUpTo(file, p, of, SECTION_COUNT) == Relocs(RelocsBack(obj, ReadOrder(obj)))
  {
    CountedAreRead(obj, file, p, of, 0);
    CountedAreRead(obj, file, p, of, 1);
    CountedAreRead(obj, file, p, of, 2);
    var a, b, c := Counted(obj, 0), Counted(obj, 1), Counted(obj, 2);
    SectionsTogether(file, p, of, RelocsBack(obj, a), RelocsBack(obj, b), RelocsBack(obj, c));
    BackOfThree(obj, a, b, c, ReadOrder(obj));
  }

  // ---------------------------------------------------------------------------------------
  // The file
  // ---------------------------------------------------------------------------------------

  lemma FileIsRead(obj: Object, alignment: seq<nat>, sections: Sections)
    requires IsAssembled(obj) && |sections| == SECTION_COUNT && ValidAlignment(alignment) && IsWritten(obj, sections)
    ensures ValidNames(FileOf(obj, alignment, sections))
    ensures ReadFile(FileOf(obj, alignment, sections)) == Read(ObjectBack(obj, sections))
  {
    var file, n := FileOf(obj, alignment, sections), |obj.symbols|;
    NamesHaveEight(obj.symbols, n);
    SectionsAreRead(obj, alignment, sections);
    var p := Placing(sections, [0, 1, 2], [0, 0, 0]);
    CoffRoundTrip.SymbolsAreRead(obj, file, p, n);
    var of := Identity(|RecordsOf(obj.symbols, n)|);
    forall i: nat | i < |obj.relocs| && !IsResolved(obj, i)
      ensures ReadReloc(RelocRecord(obj, i), obj.relocs[i].section, 0, sections, of) == Relocs([RelocBack(obj, i)])
    {
      RelocIsRead(obj, i, sections, of);
    }
    RelocsAreRead(obj, file, p, of);
  }

  // ---------------------------------------------------------------------------------------
  // The program
  // ---------------------------------------------------------------------------------------

  // No section has more relocations left than the header can count.
  predicate CanCount(obj: Object)
    requires ValidFields(obj)
  {
    forall s :: 0 <= s < SECTION_COUNT ==> |LeftIn(obj, s, |obj.relocs|)| < MAX_COUNT
  }

  lemma {:induction false} IsLeft(obj: Object, n: nat, i: nat) returns (j: nat)
    requires ValidFields(obj) && i < n <= |obj.relocs| && !IsResolved(obj, i)
    ensures j < |LeftIn(obj, obj.relocs[i].section, n)| && LeftIn(obj, obj.relocs[i].section, n)[j] == i
    decreases n
  {
    if i == n - 1 {
      j := |LeftIn(obj, obj.relocs[i].section, n)| - 1;
    } else {
      j := IsLeft(obj, n - 1, i);
    }
  }

  lemma LeftIsRead(obj: Object, i: nat)
    requires ValidFields(obj) && |obj.sections| == SECTION_COUNT && CanCount(obj) && i < |obj.relocs| && !IsResolved(obj, i)
    ensures i in ReadOrder(obj)
  {
    var j := IsLeft(obj, |obj.relocs|, i);
    var s := obj.relocs[i].section;
    assert obj.relocs[i].FitsIn(obj.sections);
    assert Counted(obj, s) == LeftIn(obj, s, |obj.relocs|);
    assert Counted(obj, s)[j] == i;
    assert i in Counted(obj, s);
    assert s == 0 || s == 1 || s == 2;
  }

  // Every relocation that the linker needs is read, if and only if the header can count the ones of each section.
  lemma AllAreReadIff(obj: Object)
    requires ValidFields(obj) && |obj.sections| == SECTION_COUNT
    ensures (forall i: nat :: i < |obj.relocs| && !IsResolved(obj, i) ==> i in ReadOrder(obj)) <==> CanCount(obj)
  {
    if CanCount(obj) {
      forall i: nat | i < |obj.relocs| && !IsResolved(obj, i)
        ensures i in ReadOrder(obj)
      {
        LeftIsRead(obj, i);
      }
    } else {
      var s :| 0 <= s < SECTION_COUNT && |LeftIn(obj, s, |obj.relocs|)| >= MAX_COUNT;
      LastIsLost(obj, s);
    }
  }

  lemma LastIsLost(obj: Object, s: nat)
    requires ValidFields(obj) && s < SECTION_COUNT && |LeftIn(obj, s, |obj.relocs|)| >= MAX_COUNT
    ensures var left := LeftIn(obj, s, |obj.relocs|);
            !IsResolved(obj, left[|left| - 1]) && left[|left| - 1] !in ReadOrder(obj)
  {
    NotCounted(obj, s, 0);
    NotCounted(obj, s, 1);
    NotCounted(obj, s, 2);
  }

  lemma NotCounted(obj: Object, s: nat, t: nat)
    requires ValidFields(obj) && s < SECTION_COUNT && |LeftIn(obj, s, |obj.relocs|)| >= MAX_COUNT
    ensures LeftIn(obj, s, |obj.relocs|)[|LeftIn(obj, s, |obj.relocs|)| - 1] !in Counted(obj, t)
  {
    var left, others := LeftIn(obj, s, |obj.relocs|), LeftIn(obj, t, |obj.relocs|);
    forall j | 0 <= j < |Counted(obj, t)|
      ensures Counted(obj, t)[j] != left[|left| - 1]
    {
      assert Counted(obj, t)[j] == others[j];
      assert s != t ==> obj.relocs[others[j]].section != obj.relocs[left[|left| - 1]].section;
    }
  }

  // A symbol that is found through its section, or by its name, is where it was.
  lemma AddressBack(obj: Object, sections: Sections, at: Layout, i: nat)
    requires IsAssembled(obj) && i < |obj.relocs|
    requires TargetBack(obj, i) < |SymbolsBack(obj.symbols, |obj.symbols|)|
    ensures AddressOf(ObjectBack(obj, sections), at, TargetBack(obj, i)) + FieldAddend(obj, i) ==
            AddressOf(obj, at, obj.relocs[i].symbol) + obj.relocs[i].addend
  {
    var index := obj.relocs[i].symbol;
    var s, back := obj.symbols[index], SymbolsBack(obj.symbols, |obj.symbols|);
    assert ValidSymbol(s);
    if s.IsExternal() {
      SymbolsGrow(obj.symbols, index + 1, |obj.symbols|);
      assert back[TargetBack(obj, i)] == SymbolBack(s);
    } else {
      SymbolsGrow(obj.symbols, 0, |obj.symbols|);
      assert back[s.section] == SectionSymbol(s.section);
    }
  }

  lemma RelocReplaces(obj: Object, sections: Sections, at: Layout, i: nat)
    requires IsAssembled(obj) && i < |obj.relocs|
    requires TargetBack(obj, i) < |SymbolsBack(obj.symbols, |obj.symbols|)|
    ensures Replaces(ObjectBack(obj, sections), RelocBack(obj, i), obj, obj.relocs[i], at)
  {
    hide AddressOf, FieldAddend, TargetBack, LittleEndian, Signed, Range, FromBytes, SymbolsBack, RelocsBack;
    var r, back, read := obj.relocs[i], RelocBack(obj, i), ObjectBack(obj, sections);
    assert ValidReloc(r);
    AddressBack(obj, sections, at, i);
    var q := SignedBack(FieldAddend(obj, i), r.Size());
    assert Value(read, at, back) == Value(obj, at, r) + q * Range(r.Size());
    SameField(Value(obj, at, r), q, r.Size());
  }

  // Two relocations that are read have different fields.
  lemma OrderIsDistinct(obj: Object, i: nat, j: nat)
    requires ValidFields(obj) && i < j < |ReadOrder(obj)|
    ensures ReadOrder(obj)[i] != ReadOrder(obj)[j]
  {
    var a, b := Counted(obj, 0), Counted(obj, 1);
    var n := |obj.relocs|;
    assert forall k :: 0 <= k < |a| ==> a[k] == LeftIn(obj, 0, n)[k];
    assert forall k :: 0 <= k < |b| ==> b[k] == LeftIn(obj, 1, n)[k];
    assert forall k :: 0 <= k < |Counted(obj, 2)| ==> Counted(obj, 2)[k] == LeftIn(obj, 2, n)[k];
  }

  lemma BackIsValid(obj: Object, sections: Sections)
    requires IsAssembled(obj) && SameShape(obj.sections, sections)
    ensures ValidFields(ObjectBack(obj, sections))
  {
    var read, order := ObjectBack(obj, sections), ReadOrder(obj);
    forall j | 0 <= j < |read.relocs|
      ensures read.relocs[j].FitsIn(sections) && read.relocs[j].symbol < |read.symbols|
    {
      assert read.relocs[j] == RelocBack(obj, order[j]);
      assert obj.relocs[order[j]].FitsIn(obj.sections);
      TargetIsRecord(obj, order[j]);
    }
    forall i, j | 0 <= i < j < |read.relocs|
      ensures Apart(read.relocs[i], read.relocs[j])
    {
      OrderIsDistinct(obj, i, j);
      ApartEitherWay(obj, order[i], order[j]);
      assert read.relocs[i] == RelocBack(obj, order[i]) && read.relocs[j] == RelocBack(obj, order[j]);
    }
  }

  lemma ApartEitherWay(obj: Object, i: nat, j: nat)
    requires ValidFields(obj) && i < |obj.relocs| && j < |obj.relocs| && i != j
    ensures Apart(obj.relocs[i], obj.relocs[j])
  {
    assert i < j ==> Apart(obj.relocs[i], obj.relocs[j]);
    assert j < i ==> Apart(obj.relocs[j], obj.relocs[i]);
  }

  lemma BackStandsFor(obj: Object, sections: Sections, at: Layout)
    requires IsAssembled(obj) && CanCount(obj) && IsWritten(obj, sections) && ValidFields(ObjectBack(obj, sections))
    ensures StandsFor(ObjectBack(obj, sections), obj, ReadOrder(obj), at)
  {
    var read, order := ObjectBack(obj, sections), ReadOrder(obj);
    forall j | 0 <= j < |order|
      ensures Replaces(read, read.relocs[j], obj, obj.relocs[order[j]], at)
    {
      TargetIsRecord(obj, order[j]);
      RelocReplaces(obj, sections, at, order[j]);
    }
    forall i: nat | i < |obj.relocs| && i !in order
      ensures Holds(sections, obj.relocs[i], Value(obj, at, obj.relocs[i]))
    {
      if !IsResolved(obj, i) {
        LeftIsRead(obj, i);
      }
      assert IsDone(obj, i, |obj.relocs|, |obj.relocs|);
      ResolvedIsLinked(obj, at, i);
    }
  }

  // A resolved field has the value that a linker would put there, wherever the sections are.
  lemma ResolvedIsLinked(obj: Object, at: Layout, i: nat)
    requires ValidFields(obj) && i < |obj.relocs| && IsResolved(obj, i)
    ensures WrittenValue(obj, i) == Value(obj, at, obj.relocs[i])
  {
  }

  lemma ObjectBackLinks(obj: Object, sections: Sections, at: Layout)
    requires IsAssembled(obj) && CanCount(obj) && IsWritten(obj, sections) && ValidFields(ObjectBack(obj, sections))
    ensures Link(ObjectBack(obj, sections), at) == Link(obj, at)
  {
    BackStandsFor(obj, sections, at);
    SameProgram(ObjectBack(obj, sections), obj, ReadOrder(obj), at);
  }

  // Linking what is read from the file gives the program that linking the object gives, for every layout.
  lemma RoundTripLinks(obj: Object, alignment: seq<nat>, sections: Sections, at: Layout)
    requires IsAssembled(obj) && ValidAlignment(alignment) && CanCount(obj) && IsWritten(obj, sections)
    ensures ValidNames(FileOf(obj, alignment, sections)) && ReadFile(FileOf(obj, alignment, sections)).Read?
    ensures var read := ReadFile(FileOf(obj, alignment, sections)).obj; ValidFields(read) && Link(read, at) == Link(obj, at)
  {
    FileIsRead(obj, alignment, sections);
    BackIsValid(obj, sections);
    ObjectBackLinks(obj, sections, at);
  }
}
