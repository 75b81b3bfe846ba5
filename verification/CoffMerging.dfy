/** Reading any object file: its sections are put one after the other into those of the program, and its symbols and
    relocations mean in them what they mean in the file (Microsoft PE/COFF specification, sections 4 and 5). */
module CoffMerging {
  import opened LittleEndians
  import opened Objects
  import opened CoffFormat
  import opened CoffReader
  import AsmData

  // ---------------------------------------------------------------------------------------
  // Sections
  // ---------------------------------------------------------------------------------------

  // A section is left out when the linker is to remove it or only reads it (LNK_REMOVE, LNK_INFO).
  lemma IsPlacedUnlessLeftOut(file: CoffFile, k: nat)
    requires k < |file.sections|
    ensures Placed(file).placedIn[k] < 0 <==> file.sections[k].flags & 0x800 != 0 || file.sections[k].flags & 0x200 != 0
  {
  }

  // What a section has in memory: zeros without bytes in the file (CNT_UNINITIALIZED_DATA)
  lemma ContentsAre(section: CoffSection, i: nat)
    requires i < |ContentsOf(section)|
    ensures ContentsOf(section)[i] == if section.flags & 0x80 != 0 || |section.bytes| == 0 then 0 else section.bytes[i]
    ensures |ContentsOf(section)| == if section.flags & 0x80 != 0 || |section.bytes| == 0 then section.size else |section.bytes|
  {
  }

  // Section k of the file is in its section of the object, at a multiple of its alignment: code, data that is written, or
  // data that is read.
  ghost predicate IsPlacedIn(file: CoffFile, p: Placing, k: nat)
    requires k < |file.sections| && k < |p.placedIn| && k < |p.placedAt|
  {
    var section, s, at := file.sections[k], p.placedIn[k], p.placedAt[k];
    && s == (if section.flags & 0x20 != 0 then 0 else if section.flags & 0x8000_0000 != 0 then 1 else 2) < |p.sections|
    && at % AlignOf(section.flags) == 0
    && at + |ContentsOf(section)| <= |p.sections[s]| && p.sections[s][at..at + |ContentsOf(section)|] == ContentsOf(section)
  }

  lemma PaddedToAlignment(bytes: seq<int>, align: nat, fill: int)
    requires align > 0
    ensures |Filled(bytes, align, fill)| % align == 0 && |bytes| <= |Filled(bytes, align, fill)|
    ensures Filled(bytes, align, fill)[..|bytes|] == bytes
  {
    if align > 1 {
      AsmData.PaddingAligns(|bytes|, align);
    }
  }

  // Placing one more section adds it after everything that was there.
  lemma OneMorePlaced(p: Placing, section: CoffSection, s: nat)
    requires |p.sections| == SECTION_COUNT && s < SECTION_COUNT
    ensures var placed := PlaceOne(p, section);
            |p.sections[s]| <= |placed.sections[s]| && placed.sections[s][..|p.sections[s]|] == p.sections[s]
  {
    if !IsLeftOut(section.flags) && s == SectionOf(section.flags) {
      PaddedToAlignment(p.sections[s], AlignOf(section.flags), if s == 0 then 0xCC else 0);
    }
  }

  lemma NewIsPlaced(file: CoffFile, n: nat)
    requires n < |file.sections| && !IsLeftOut(file.sections[n].flags)
    ensures IsPlacedIn(file, PlacedUpTo(file, n + 1), n)
    ensures var p := PlacedUpTo(file, n); |p.sections[SectionOf(file.sections[n].flags)]| <= PlacedUpTo(file, n + 1).placedAt[n]
  {
    var p, section := PlacedUpTo(file, n), file.sections[n];
    var s := SectionOf(section.flags);
    var filled := Filled(p.sections[s], AlignOf(section.flags), if s == 0 then 0xCC else 0);
    PaddedToAlignment(p.sections[s], AlignOf(section.flags), if s == 0 then 0xCC else 0);
    assert (filled + ContentsOf(section))[|filled|..|filled| + |ContentsOf(section)|] == ContentsOf(section);
  }

  lemma SliceOfPrefix(a: seq<int>, b: seq<int>, i: nat, j: nat)
    requires i <= j <= |a| <= |b| && b[..|a|] == a
    ensures b[i..j] == a[i..j]
  {
    forall k | i <= k < j
      ensures b[k] == a[k]
    {
      assert b[..|a|][k] == b[k];
    }
  }

  // For every file: a section that is not left out is placed, whatever comes after it.
  lemma {:induction false} SectionIsPlaced(file: CoffFile, n: nat, k: nat)
    requires k < n <= |file.sections| && !IsLeftOut(file.sections[k].flags)
    ensures IsPlacedIn(file, PlacedUpTo(file, n), k)
    decreases n
  {
    if k == n - 1 {
      NewIsPlaced(file, k);
    } else {
      SectionIsPlaced(file, n - 1, k);
      var p, s := PlacedUpTo(file, n - 1), PlacedUpTo(file, n - 1).placedIn[k];
      OneMorePlaced(p, file.sections[n - 1], s);
      SliceOfPrefix(p.sections[s], PlacedUpTo(file, n).sections[s], p.placedAt[k], p.placedAt[k] + |ContentsOf(file.sections[k])|);
    }
  }

  lemma {:induction false} PlacesAreKept(file: CoffFile, n: nat, m: nat, k: nat)
    requires k < n <= m <= |file.sections|
    ensures PlacedUpTo(file, m).placedIn[k] == PlacedUpTo(file, n).placedIn[k] && PlacedUpTo(file, m).placedAt[k] == PlacedUpTo(file, n).placedAt[k]
    decreases m
  {
    if n < m {
      PlacesAreKept(file, n, m - 1, k);
    }
  }

  // Two sections of the file do not overlap.
  lemma SectionsAreApart(file: CoffFile, j: nat, k: nat)
    requires j < k < |file.sections| && !IsLeftOut(file.sections[j].flags) && !IsLeftOut(file.sections[k].flags)
    requires Placed(file).placedIn[j] == Placed(file).placedIn[k]
    ensures Placed(file).placedAt[j] + |ContentsOf(file.sections[j])| <= Placed(file).placedAt[k]
  {
    SectionIsPlaced(file, k, j);
    NewIsPlaced(file, k);
    PlacesAreKept(file, k, |file.sections|, j);
    PlacesAreKept(file, k + 1, |file.sections|, k);
  }

  // A byte of the object is one of a section of the file, or padding.
  ghost predicate IsFromSection(file: CoffFile, p: Placing, k: nat, s: nat, i: nat)
    requires |file.sections| >= |p.placedIn| == |p.placedAt|
  {
    k < |p.placedIn| && p.placedIn[k] == s && p.placedAt[k] <= i < p.placedAt[k] + |ContentsOf(file.sections[k])|
  }

  lemma {:induction false} RestIsPadding(file: CoffFile, n: nat, s: nat, i: nat)
    requires n <= |file.sections| && s < SECTION_COUNT && i < |PlacedUpTo(file, n).sections[s]|
    ensures (exists k :: IsFromSection(file, PlacedUpTo(file, n), k, s, i)) ||
            PlacedUpTo(file, n).sections[s][i] == if s == 0 then 0xCC else 0
    decreases n
  {
    if n > 0 {
      var before, after, section := PlacedUpTo(file, n - 1), PlacedUpTo(file, n), file.sections[n - 1];
      OneMorePlaced(before, section, s);
      if i < |before.sections[s]| {
        RestIsPadding(file, n - 1, s, i);
        assert after.sections[s][i] == after.sections[s][..|before.sections[s]|][i];
        if k :| IsFromSection(file, before, k, s, i) {
          assert IsFromSection(file, after, k, s, i);
        }
      } else {
        var filled := Filled(before.sections[s], AlignOf(section.flags), if s == 0 then 0xCC else 0);
        if |filled| <= i {
          assert IsFromSection(file, after, n - 1, s, i);
        }
      }
    }
  }

  // ---------------------------------------------------------------------------------------
  // Symbols
  // ---------------------------------------------------------------------------------------

  // Going from record i to the next and over the records that belong to it, one comes to record n.
  predicate IsReached(file: CoffFile, i: nat, n: nat)
    decreases |file.symbols| - i
  {
    i < |file.symbols| && (n == i || IsReached(file, i + 1 + file.symbols[i].aux, n))
  }

  lemma {:induction false} ReachedIsLater(file: CoffFile, i: nat, n: nat)
    requires IsReached(file, i, n)
    ensures i <= n < |file.symbols|
    decreases |file.symbols| - i
  {
    if n != i {
      ReachedIsLater(file, i + 1 + file.symbols[i].aux, n);
    }
  }

  predicate DifferentNames(symbols: seq<Symbol>) {
    forall i, j :: 0 <= i < j < |symbols| ==> symbols[i].name != symbols[j].name
  }

  predicate SameNames(before: seq<Symbol>, after: seq<Symbol>) {
    |before| <= |after| && forall k :: 0 <= k < |before| ==> before[k].name == after[k].name
  }

  // Record n, from i on, that says where the symbol with this name is
  predicate Defines(file: CoffFile, p: Placing, i: nat, n: nat, name: Name)
    requires ValidNames(file)
  {
    && IsReached(file, i, n) && n < |file.symbols| && !IsSkipped(p, file.symbols[n])
    && file.symbols[n].section > 0 && SymbolName(file, n) == name
  }

  ghost predicate DefinesLast(file: CoffFile, p: Placing, i: nat, n: nat, name: Name)
    requires ValidNames(file)
  {
    n < |file.symbols| && Defines(file, p, i, n, name) && forall m: nat :: n < m ==> !Defines(file, p, i, m, name)
  }

  predicate IsWhere(p: Placing, e: CoffSymbol, s: Symbol) {
    && 0 < e.section <= |p.placedIn| && e.section <= |p.placedAt|
    && s.section == p.placedIn[e.section - 1] && s.offset == p.placedAt[e.section - 1] + e.value && (s.isGlobal <==> e.storage == 2)
  }

  predicate SamePlace(a: Symbol, b: Symbol) {
    a.section == b.section && a.offset == b.offset && a.isGlobal == b.isGlobal
  }

  // What reading one record does: its entry, and its symbol among the others
  ghost predicate IsRead(file: CoffFile, p: Placing, i: nat, st: SymbolsRead, read: SymbolsRead)
    requires ValidNames(file) && i < |file.symbols|
  {
    && |read.of| == |st.of| + 1 && read.of[..|st.of|] == st.of
    && DifferentNames(read.symbols) && SameNames(st.symbols, read.symbols)
    && if IsSkipped(p, file.symbols[i]) then read.of[|st.of|] == -1 && read.symbols == st.symbols
       else IsReadInto(file, p, i, st.symbols, read.symbols, read.of[|st.of|])
  }

  ghost predicate IsReadInto(file: CoffFile, p: Placing, i: nat, before: seq<Symbol>, after: seq<Symbol>, k: int)
    requires ValidNames(file) && i < |file.symbols|
  {
    && 0 <= k < |after| && after[k].name == SymbolName(file, i) && |before| <= |after| <= |before| + 1
    && (|after| == |before| + 1 ==> k == |before|)
    && (forall j :: 0 <= j < |before| && j != k ==> after[j] == before[j])
    && (file.symbols[i].section > 0 ==> IsWhere(p, file.symbols[i], after[k]))
    && (file.symbols[i].section <= 0 && k < |before| ==> SamePlace(after[k], before[k]))
    && (file.symbols[i].section <= 0 && k == |before| ==> after[k].section == -1)
  }

  lemma RecordIsRead(file: CoffFile, p: Placing, i: nat, st: SymbolsRead)
    requires ValidNames(file) && i < |file.symbols| && |p.placedIn| == |p.placedAt| && DifferentNames(st.symbols)
    ensures IsRead(file, p, i, st, ReadSymbol(file, p, i, st))
  {
    var e := file.symbols[i];
    if !IsSkipped(p, e) {
      var name := SymbolName(file, i);
      var symbols, k := WithSymbol(st.symbols, name), Find(st.symbols, name);
      assert DifferentNames(symbols);
    }
  }

  // The state at the record after record i
  function AfterRecord(file: CoffFile, p: Placing, i: nat, st: SymbolsRead): SymbolsRead
    requires ValidNames(file) && i < |file.symbols| && |p.placedIn| == |p.placedAt|
  {
    var read := ReadSymbol(file, p, i, st);
    read.(of := read.of + Skips(file.symbols[i].aux))
  }

  // The entries: every record that is reached has its symbol, the others have none.
  ghost predicate HasEntries(file: CoffFile, p: Placing, i: nat, of: seq<int>, all: SymbolsRead)
    requires ValidNames(file)
  {
    && i == |of| <= |all.of| && all.of[..i] == of
    && (forall n: nat :: IsReached(file, i, n) ==> HasEntry(file, p, n, all))
    && forall n: nat :: i <= n < |all.of| && !IsReached(file, i, n) ==> all.of[n] == -1
  }

  predicate HasEntry(file: CoffFile, p: Placing, n: nat, all: SymbolsRead)
    requires ValidNames(file)
  {
    && n < |file.symbols| && n < |all.of|
    && if IsSkipped(p, file.symbols[n]) then all.of[n] == -1
       else 0 <= all.of[n] < |all.symbols| && all.symbols[all.of[n]].name == SymbolName(file, n)
  }

  lemma {:induction false} NamesStay(file: CoffFile, p: Placing, i: nat, st: SymbolsRead)
    requires ValidNames(file) && |p.placedIn| == |p.placedAt| && DifferentNames(st.symbols)
    ensures DifferentNames(ReadSymbolsFrom(file, p, i, st).symbols) && SameNames(st.symbols, ReadSymbolsFrom(file, p, i, st).symbols)
    decreases |file.symbols| - i
  {
    hide ReadSymbol, IsSkipped, SymbolName, IsReadInto;
    if i < |file.symbols| {
      RecordIsRead(file, p, i, st);
      NamesStay(file, p, i + 1 + file.symbols[i].aux, AfterRecord(file, p, i, st));
    }
  }

  lemma {:induction false} EntriesAreRead(file: CoffFile, p: Placing, i: nat, st: SymbolsRead)
    requires ValidNames(file) && |p.placedIn| == |p.placedAt| && DifferentNames(st.symbols) && |st.of| == i
    ensures HasEntries(file, p, i, st.of, ReadSymbolsFrom(file, p, i, st))
    decreases |file.symbols| - i
  {
    hide ReadSymbol, SymbolName, IsSkipped, IsReadInto, SameNames, IsReached;
    if i < |file.symbols| {
      hide HasEntries, DifferentNames;
      var after, next := AfterRecord(file, p, i, st), i + 1 + file.symbols[i].aux;
      RecordIsRead(file, p, i, st);
      EntriesAreRead(file, p, next, after);
      NamesStay(file, p, next, after);
      EntriesBefore(file, p, i, st, ReadSymbolsFrom(file, p, next, after));
    } else {
      NoneReached(file, p, i, st);
    }
  }

  lemma NoneReached(file: CoffFile, p: Placing, i: nat, st: SymbolsRead)
    requires ValidNames(file) && i >= |file.symbols| && |st.of| == i
    ensures HasEntries(file, p, i, st.of, st)
  {
  }

  lemma EntriesBefore(file: CoffFile, p: Placing, i: nat, st: SymbolsRead, all: SymbolsRead)
    requires ValidNames(file) && i < |file.symbols| && |p.placedIn| == |p.placedAt| && |st.of| == i
    requires IsRead(file, p, i, st, ReadSymbol(file, p, i, st))
    requires var after := AfterRecord(file, p, i, st);
             HasEntries(file, p, i + 1 + file.symbols[i].aux, after.of, all) && SameNames(after.symbols, all.symbols)
    ensures HasEntries(file, p, i, st.of, all)
  {
    hide ReadSymbol, SymbolName, IsSkipped, IsReadInto, DifferentNames;
    var after, next := AfterRecord(file, p, i, st), i + 1 + file.symbols[i].aux;
    assert all.of[..i] == all.of[..next][..i] == after.of[..i] == st.of;
    forall n | i <= n < next
      ensures n < |all.of| && all.of[n] == if n == i then after.of[i] else -1
    {
      assert all.of[n] == all.of[..next][n] == after.of[n];
    }
    OwnEntry(file, p, i, st, ReadSymbol(file, p, i, st), all);
    hide HasEntry;
    forall n: nat | IsReached(file, i, n)
      ensures HasEntry(file, p, n, all)
    {
      if n != i {
        assert IsReached(file, next, n);
      }
    }
    forall n: nat | i <= n < |all.of| && !IsReached(file, i, n)
      ensures all.of[n] == -1
    {
      if n >= next {
        assert !IsReached(file, next, n);
      }
    }
  }

  lemma OwnEntry(file: CoffFile, p: Placing, i: nat, st: SymbolsRead, read: SymbolsRead, all: SymbolsRead)
    requires ValidNames(file) && i < |file.symbols| && |st.of| == i && IsRead(file, p, i, st, read)
    requires i < |all.of| && all.of[i] == read.of[i] && SameNames(read.symbols, all.symbols)
    ensures HasEntry(file, p, i, all)
  {
  }

  ghost predicate NoneDefines(file: CoffFile, p: Placing, i: nat, name: Name)
    requires ValidNames(file)
  {
    forall n: nat :: !Defines(file, p, i, n, name)
  }

  // Where symbol k is: the last record that defines it says it, and without one it is where it was before.
  ghost predicate HasPlace(file: CoffFile, p: Placing, i: nat, before: seq<Symbol>, k: nat, s: Symbol)
    requires ValidNames(file)
  {
    && (forall n: nat :: DefinesLast(file, p, i, n, s.name) ==> IsWhere(p, file.symbols[n], s))
    && (NoneDefines(file, p, i, s.name) ==> if k < |before| then SamePlace(s, before[k]) else s.section == -1)
  }

  ghost predicate HavePlaces(file: CoffFile, p: Placing, i: nat, before: seq<Symbol>, after: seq<Symbol>)
    requires ValidNames(file)
  {
    forall k: nat :: k < |after| ==> HasPlace(file, p, i, before, k, after[k])
  }

  lemma {:induction false} PlacesAreRead(file: CoffFile, p: Placing, i: nat, st: SymbolsRead)
    requires ValidNames(file) && |p.placedIn| == |p.placedAt| && DifferentNames(st.symbols) && |st.of| == i
    ensures HavePlaces(file, p, i, st.symbols, ReadSymbolsFrom(file, p, i, st).symbols)
    decreases |file.symbols| - i
  {
    hide HasPlace, DifferentNames, SameNames, IsReadInto, ReadSymbol;
    if i < |file.symbols| {
      var after, next := AfterRecord(file, p, i, st), i + 1 + file.symbols[i].aux;
      RecordIsRead(file, p, i, st);
      PlacesAreRead(file, p, next, after);
      NamesStay(file, p, next, after);
      var all := ReadSymbolsFrom(file, p, next, after);
      forall k: nat | k < |all.symbols|
        ensures HasPlace(file, p, i, st.symbols, k, all.symbols[k])
      {
        PlaceBefore(file, p, i, st, all.symbols, k);
      }
    } else {
      forall k: nat | k < |st.symbols|
        ensures HasPlace(file, p, i, st.symbols, k, st.symbols[k])
      {
        NothingAfter(file, p, i, st.symbols, k);
      }
    }
  }

  lemma NothingAfter(file: CoffFile, p: Placing, i: nat, symbols: seq<Symbol>, k: nat)
    requires ValidNames(file) && i >= |file.symbols| && k < |symbols|
    ensures HasPlace(file, p, i, symbols, k, symbols[k])
  {
  }

  lemma DefinesFromNext(file: CoffFile, p: Placing, i: nat, n: nat, name: Name)
    requires ValidNames(file) && i < |file.symbols|
    ensures Defines(file, p, i, n, name) <==> (n == i && Defines(file, p, i, i, name)) || Defines(file, p, i + 1 + file.symbols[i].aux, n, name)
  {
    var next := i + 1 + file.symbols[i].aux;
    if IsReached(file, next, n) {
      ReachedIsLater(file, next, n);
    }
  }

  lemma PlaceBefore(file: CoffFile, p: Placing, i: nat, st: SymbolsRead, all: seq<Symbol>, k: nat)
    requires ValidNames(file) && i < |file.symbols| && |p.placedIn| == |p.placedAt| && |st.of| == i && k < |all|
    requires IsRead(file, p, i, st, ReadSymbol(file, p, i, st)) && DifferentNames(all) && SameNames(AfterRecord(file, p, i, st).symbols, all)
    requires HasPlace(file, p, i + 1 + file.symbols[i].aux, AfterRecord(file, p, i, st).symbols, k, all[k])
    ensures HasPlace(file, p, i, st.symbols, k, all[k])
  {
    hide Defines, ReadSymbol, SymbolName, IsReadInto, DifferentNames, SameNames, IsSkipped;
    var read, next, name := ReadSymbol(file, p, i, st), i + 1 + file.symbols[i].aux, all[k].name;
    if NoneDefines(file, p, next, name) {
      if Defines(file, p, i, i, name) {
        PlaceIsRead(file, p, i, st, read, all, k);
      } else {
        PlaceIsKept(file, p, i, st, read, all, k);
      }
      forall n: nat
        ensures Defines(file, p, i, n, name) <==> n == i && Defines(file, p, i, i, name)
      {
        DefinesFromNext(file, p, i, n, name);
      }
    } else {
      var m: nat :| Defines(file, p, next, m, name);
      DefinesFromNext(file, p, i, m, name);
      forall n: nat | DefinesLast(file, p, i, n, name)
        ensures IsWhere(p, file.symbols[n], all[k])
      {
        LastFromNext(file, p, i, n, name);
      }
    }
  }

  // Record i is the only one from i on that defines symbol k.
  lemma PlaceIsRead(file: CoffFile, p: Placing, i: nat, st: SymbolsRead, read: SymbolsRead, all: seq<Symbol>, k: nat)
    requires ValidNames(file) && i < |file.symbols| && |st.of| == i && k < |all| && IsRead(file, p, i, st, read)
    requires DifferentNames(all) && SameNames(read.symbols, all) && Defines(file, p, i, i, all[k].name)
    requires if k < |read.symbols| then SamePlace(all[k], read.symbols[k]) else all[k].section == -1
    ensures IsWhere(p, file.symbols[i], all[k])
  {
    var own := read.of[i];
    assert all[own].name == all[k].name;
  }

  // No record from i on defines symbol k.
  lemma PlaceIsKept(file: CoffFile, p: Placing, i: nat, st: SymbolsRead, read: SymbolsRead, all: seq<Symbol>, k: nat)
    requires ValidNames(file) && i < |file.symbols| && |st.of| == i && k < |all| && IsRead(file, p, i, st, read)
    requires DifferentNames(all) && SameNames(read.symbols, all) && !Defines(file, p, i, i, all[k].name)
    requires if k < |read.symbols| then SamePlace(all[k], read.symbols[k]) else all[k].section == -1
    ensures if k < |st.symbols| then SamePlace(all[k], st.symbols[k]) else all[k].section == -1
  {
    if !IsSkipped(p, file.symbols[i]) {
      var own := read.of[i];
      assert own == k ==> all[k].name == SymbolName(file, i) && file.symbols[i].section <= 0;
    }
  }

  lemma LastFromNext(file: CoffFile, p: Placing, i: nat, n: nat, name: Name)
    requires ValidNames(file) && i < |file.symbols| && DefinesLast(file, p, i, n, name) && !NoneDefines(file, p, i + 1 + file.symbols[i].aux, name)
    ensures DefinesLast(file, p, i + 1 + file.symbols[i].aux, n, name)
  {
    var next := i + 1 + file.symbols[i].aux;
    var m: nat :| Defines(file, p, next, m, name);
    ReachedIsLater(file, next, m);
    DefinesFromNext(file, p, i, m, name);
    DefinesFromNext(file, p, i, n, name);
    forall l: nat | n < l
      ensures !Defines(file, p, next, l, name)
    {
      DefinesFromNext(file, p, i, l, name);
    }
  }

  // What a program reads about record n in a whole file
  lemma RecordMeans(file: CoffFile, p: Placing, n: nat)
    requires ValidNames(file) && |p.placedIn| == |p.placedAt|
    requires var st := ReadSymbolsFrom(file, p, 0, SymbolsRead([], [])); n < |st.of| && st.of[n] >= 0
    ensures n < |file.symbols| && IsReached(file, 0, n) && !IsSkipped(p, file.symbols[n])
    ensures var st := ReadSymbolsFrom(file, p, 0, SymbolsRead([], [])); st.of[n] < |st.symbols| && st.symbols[st.of[n]].name == SymbolName(file, n)
    ensures var st := ReadSymbolsFrom(file, p, 0, SymbolsRead([], []));
            HasPlace(file, p, 0, [], st.of[n], st.symbols[st.of[n]])
  {
    var empty := SymbolsRead([], []);
    EntriesAreRead(file, p, 0, empty);
    PlacesAreRead(file, p, 0, empty);
    assert IsReached(file, 0, n);
    assert HasEntry(file, p, n, ReadSymbolsFrom(file, p, 0, empty));
  }

  // ---------------------------------------------------------------------------------------
  // Relocations
  // ---------------------------------------------------------------------------------------

  // How many relocations the sections before section n have
  function RelocBase(file: CoffFile, p: Placing, n: nat): nat
    requires n <= |file.sections| == |p.placedIn|
    decreases n
  {
    if n == 0 then 0 else RelocBase(file, p, n - 1) + if p.placedIn[n - 1] < 0 then 0 else file.sections[n - 1].relocCount
  }

  lemma {:induction false} SectionRelocsAre(file: CoffFile, p: Placing, of: seq<int>, i: nat, k: nat, j: nat)
    requires i < |file.sections| == |p.placedIn| == |p.placedAt| && p.placedIn[i] >= 0 && j < k
    requires SectionRelocs(file, p, of, i, k).Relocs?
    ensures |SectionRelocs(file, p, of, i, k).relocs| == k && j < |file.sections[i].relocs|
    ensures ReadReloc(file.sections[i].relocs[j], p.placedIn[i], p.placedAt[i], p.sections, of) == Relocs([SectionRelocs(file, p, of, i, k).relocs[j]])
    decreases k
  {
    if k > 1 {
      SectionRelocsAre(file, p, of, i, k - 1, if j < k - 1 then j else 0);
    }
  }

  lemma {:induction false} RelocsAre(file: CoffFile, p: Placing, of: seq<int>, n: nat, i: nat, j: nat)
    requires i < n <= |file.sections| == |p.placedIn| == |p.placedAt| && p.placedIn[i] >= 0 && j < file.sections[i].relocCount
    requires RelocsUpTo(file, p, of, n).Relocs?
    ensures |RelocsUpTo(file, p, of, n).relocs| == RelocBase(file, p, n)
    ensures RelocBase(file, p, i) + j < RelocBase(file, p, n) && j < |file.sections[i].relocs|
    ensures ReadReloc(file.sections[i].relocs[j], p.placedIn[i], p.placedAt[i], p.sections, of) ==
            Relocs([RelocsUpTo(file, p, of, n).relocs[RelocBase(file, p, i) + j]])
    decreases n
  {
    hide ReadReloc;
    CountOfRelocs(file, p, of, n);
    if i < n - 1 {
      RelocsAre(file, p, of, n - 1, i, j);
    } else {
      CountOfRelocs(file, p, of, n - 1);
      SectionRelocsAre(file, p, of, i, file.sections[i].relocCount, j);
    }
  }

  lemma {:induction false} CountOfRelocs(file: CoffFile, p: Placing, of: seq<int>, n: nat)
    requires n <= |file.sections| == |p.placedIn| == |p.placedAt| && RelocsUpTo(file, p, of, n).Relocs?
    ensures |RelocsUpTo(file, p, of, n).relocs| == RelocBase(file, p, n)
    decreases n
  {
    hide ReadReloc;
    if n > 0 {
      CountOfRelocs(file, p, of, n - 1);
      if p.placedIn[n - 1] >= 0 && file.sections[n - 1].relocCount > 0 {
        SectionRelocsAre(file, p, of, n - 1, file.sections[n - 1].relocCount, 0);
      }
    }
  }

  // What the reader needs of a relocation: a symbol that is read, a type that it knows, and a field in the section
  predicate IsReadable(file: CoffFile, p: Placing, of: seq<int>, i: nat, j: nat)
    requires i < |file.sections| == |p.placedIn| == |p.placedAt|
  {
    && j < |file.sections[i].relocs|
    && var e := file.sections[i].relocs[j];
       && 0 <= e.symbol < |of| && of[e.symbol] >= 0
       && (e.rtype == 1 || e.rtype == 3 || e.rtype == 11 || 4 <= e.rtype <= 9)
       && 0 <= p.placedIn[i] < |p.sections| && p.placedAt[i] + e.offset + (if e.rtype == 1 then 8 else 4) <= |p.sections[p.placedIn[i]]|
  }

  lemma OneIsReadIff(file: CoffFile, p: Placing, of: seq<int>, i: nat, j: nat)
    requires i < |file.sections| == |p.placedIn| == |p.placedAt| && p.placedIn[i] >= 0
    ensures IsReadable(file, p, of, i, j) <==>
            j < |file.sections[i].relocs| && ReadReloc(file.sections[i].relocs[j], p.placedIn[i], p.placedAt[i], p.sections, of).Relocs?
  {
  }

  lemma {:induction false} SectionIsReadIff(file: CoffFile, p: Placing, of: seq<int>, i: nat, k: nat)
    requires i < |file.sections| == |p.placedIn| == |p.placedAt| && p.placedIn[i] >= 0
    ensures SectionRelocs(file, p, of, i, k).Relocs? <==> forall j :: 0 <= j < k ==> IsReadable(file, p, of, i, j)
    decreases k
  {
    hide IsReadable, ReadReloc;
    if k > 0 {
      SectionIsReadIff(file, p, of, i, k - 1);
      OneIsReadIff(file, p, of, i, k - 1);
    }
  }

  ghost predicate AllReadable(file: CoffFile, p: Placing, of: seq<int>, n: nat)
    requires n <= |file.sections| == |p.placedIn| == |p.placedAt|
  {
    forall i, j :: 0 <= i < n && p.placedIn[i] >= 0 && 0 <= j < file.sections[i].relocCount ==> IsReadable(file, p, of, i, j)
  }

  lemma {:induction false} RelocsAreReadIff(file: CoffFile, p: Placing, of: seq<int>, n: nat)
    requires n <= |file.sections| == |p.placedIn| == |p.placedAt|
    ensures RelocsUpTo(file, p, of, n).Relocs? <==> AllReadable(file, p, of, n)
    decreases n
  {
    hide IsReadable;
    if n > 0 {
      RelocsAreReadIff(file, p, of, n - 1);
      if p.placedIn[n - 1] >= 0 {
        SectionIsReadIff(file, p, of, n - 1, file.sections[n - 1].relocCount);
      }
    }
  }

  // A file is read if and only if all relocations that its headers count are readable, of the sections that are not left out.
  lemma FileIsReadIff(file: CoffFile)
    requires ValidNames(file)
    ensures ReadFile(file).Read? <==>
            AllReadable(file, Placed(file), ReadSymbolsFrom(file, Placed(file), 0, SymbolsRead([], [])).of, |file.sections|)
  {
    hide AllReadable, RelocsUpTo, ReadSymbolsFrom;
    RelocsAreReadIff(file, Placed(file), ReadSymbolsFrom(file, Placed(file), 0, SymbolsRead([], [])).of, |file.sections|);
  }

  // ---------------------------------------------------------------------------------------
  // What a relocation means
  // ---------------------------------------------------------------------------------------

  // The field of a relocation: from the address of its target and its offset in its section, what the file has in the
  // field, and the address of the field. ADDR64, ADDR32NB, SECREL, and REL32 to REL32_5.
  function CoffValue(rtype: int, target: int, offset: int, field: int, place: int, image: int): int {
    match rtype
    case 1 => target + field
    case 3 => target + field - image
    case 11 => offset + field
    case _ => target + field - (place + rtype)
  }

  function FieldSize(rtype: int): nat {
    if rtype == 1 then 8 else 4
  }

  // The address of a section of the file, when the sections of the object are where the layout says
  function SectionAddress(p: Placing, at: Layout, k: nat): int
    requires k < |p.placedIn| && k < |p.placedAt| && p.placedIn[k] >= 0
  {
    at.base(p.placedIn[k]) + p.placedAt[k]
  }

  // Relocation j of section k, in the object that is read
  lemma RelocationIs(file: CoffFile, obj: Object, k: nat, j: nat) returns (r: nat)
    requires ValidNames(file) && ReadFile(file) == Read(obj)
    requires k < |file.sections| && !IsLeftOut(file.sections[k].flags) && j < file.sections[k].relocCount
    ensures var p := Placed(file); var st := ReadSymbolsFrom(file, p, 0, SymbolsRead([], []));
            && r < |obj.relocs| && r == RelocBase(file, p, k) + j && j < |file.sections[k].relocs|
            && obj.sections == p.sections && obj.symbols == st.symbols && p.placedIn[k] >= 0
            && ReadReloc(file.sections[k].relocs[j], p.placedIn[k], p.placedAt[k], p.sections, st.of) == Relocs([obj.relocs[r]])
  {
    hide ReadReloc;
    var p := Placed(file);
    var st := ReadSymbolsFrom(file, p, 0, SymbolsRead([], []));
    RelocsAre(file, p, st.of, |file.sections|, k, j);
    r := RelocBase(file, p, k) + j;
  }

  lemma FieldIsFromFile(file: CoffFile, k: nat, offset: nat, size: nat)
    requires k < |file.sections| && !IsLeftOut(file.sections[k].flags) && offset + size <= |ContentsOf(file.sections[k])|
    ensures var p := Placed(file);
            && 0 <= p.placedIn[k] < |p.sections| && p.placedAt[k] + offset + size <= |p.sections[p.placedIn[k]]|
            && p.sections[p.placedIn[k]][p.placedAt[k] + offset..p.placedAt[k] + offset + size] == ContentsOf(file.sections[k])[offset..offset + size]
  {
    hide ContentsOf, PlacedUpTo, AlignOf;
    SectionIsPlaced(file, |file.sections|, k);
    var p, contents := Placed(file), ContentsOf(file.sections[k]);
    var bytes, at := p.sections[p.placedIn[k]], p.placedAt[k];
    forall i | offset <= i < offset + size
      ensures bytes[at + i] == contents[i]
    {
      assert bytes[at..at + |contents|][i] == bytes[at + i];
    }
  }

  // The relocation of a record, and its value in any layout
  lemma ReadRelocMeans(e: CoffReloc, s: nat, at: nat, sections: Sections, of: seq<int>, r: Reloc)
    requires ReadReloc(e, s, at, sections, of) == Relocs([r])
    ensures 0 <= e.symbol < |of| && r.symbol == of[e.symbol] && r.section == s && r.offset == at + e.offset
    ensures r.Size() == FieldSize(e.rtype) && r.FitsIn(sections) && r.addend == Signed(FieldOf(sections, r))
    ensures forall obj: Object, layout: Layout :: r.symbol < |obj.symbols| ==>
              Value(obj, layout, r) == CoffValue(e.rtype, AddressOf(obj, layout, r.symbol), obj.symbols[r.symbol].offset, r.addend,
                                                 layout.base(s) + at + e.offset, layout.image)
  {
    hide Signed;
  }

  // Relocation r of the object is relocation j of section k of the file: its field is in the section's bytes, and gets what
  // the format asks for, of the address of its symbol.
  ghost predicate Relocates(file: CoffFile, obj: Object, at: Layout, k: nat, j: nat, r: Reloc, target: int, offset: int)
    requires k < |file.sections| && j < |file.sections[k].relocs|
  {
    var p, e := Placed(file), file.sections[k].relocs[j];
    && r.symbol < |obj.symbols| && p.placedIn[k] >= 0 && r.section == p.placedIn[k] && r.offset == p.placedAt[k] + e.offset
    && r.Size() == FieldSize(e.rtype) && e.offset + FieldSize(e.rtype) <= |ContentsOf(file.sections[k])|
    && Value(obj, at, r) == CoffValue(e.rtype, target, offset, Signed(ContentsOf(file.sections[k])[e.offset..e.offset + FieldSize(e.rtype)]),
                                      SectionAddress(p, at, k) + e.offset, at.image)
  }

  lemma RelocationMeans(file: CoffFile, obj: Object, at: Layout, k: nat, j: nat) returns (r: nat)
    requires ValidNames(file) && ReadFile(file) == Read(obj)
    requires k < |file.sections| && !IsLeftOut(file.sections[k].flags) && j < file.sections[k].relocCount && j < |file.sections[k].relocs|
    requires file.sections[k].relocs[j].offset + FieldSize(file.sections[k].relocs[j].rtype) <= |ContentsOf(file.sections[k])|
    ensures r == RelocBase(file, Placed(file), k) + j < |obj.relocs| && obj.relocs[r].symbol < |obj.symbols|
    ensures var symbol := obj.relocs[r].symbol;
            Relocates(file, obj, at, k, j, obj.relocs[r], AddressOf(obj, at, symbol), obj.symbols[symbol].offset)
    ensures var n, p := file.sections[k].relocs[j].symbol, Placed(file);
            && 0 <= n < |file.symbols| && IsReached(file, 0, n) && !IsSkipped(p, file.symbols[n])
            && obj.symbols[obj.relocs[r].symbol].name == SymbolName(file, n)
            && HasPlace(file, p, 0, [], obj.relocs[r].symbol, obj.symbols[obj.relocs[r].symbol])
  {
    hide ReadSymbolsFrom, RelocsUpTo, ReadReloc, ContentsOf, Signed, HasPlace, IsSkipped, SymbolName, Value, CoffValue, AddressOf;
    var p, e := Placed(file), file.sections[k].relocs[j];
    var st := ReadSymbolsFrom(file, p, 0, SymbolsRead([], []));
    r := RelocationIs(file, obj, k, j);
    ReadRelocMeans(e, p.placedIn[k], p.placedAt[k], p.sections, st.of, obj.relocs[r]);
    RecordMeans(file, p, e.symbol);
    FieldIsFromFile(file, k, e.offset, FieldSize(e.rtype));
  }

  // A symbol that record d of the file defines, and no later one: its relocations are to its offset in its own section.
  lemma DefinedTarget(file: CoffFile, obj: Object, at: Layout, k: nat, j: nat, d: nat) returns (r: nat)
    requires ValidNames(file) && ReadFile(file) == Read(obj)
    requires k < |file.sections| && !IsLeftOut(file.sections[k].flags) && j < file.sections[k].relocCount && j < |file.sections[k].relocs|
    requires file.sections[k].relocs[j].offset + FieldSize(file.sections[k].relocs[j].rtype) <= |ContentsOf(file.sections[k])|
    requires 0 <= file.sections[k].relocs[j].symbol < |file.symbols|
    requires DefinesLast(file, Placed(file), 0, d, SymbolName(file, file.sections[k].relocs[j].symbol))
    ensures var p, s := Placed(file), file.symbols[d].section - 1;
            && r < |obj.relocs| && 0 <= s < |file.sections| && p.placedIn[s] >= 0
            && Relocates(file, obj, at, k, j, obj.relocs[r], SectionAddress(p, at, s) + file.symbols[d].value, p.placedAt[s] + file.symbols[d].value)
  {
    hide ReadFile, ContentsOf, Relocates, SymbolName, IsReached, IsSkipped;
    r := RelocationMeans(file, obj, at, k, j);
    var p, symbol := Placed(file), obj.symbols[obj.relocs[r].symbol];
    assert IsWhere(p, file.symbols[d], symbol);
    DefinerIsPlaced(file, p, d, symbol.name);
  }

  lemma DefinerIsPlaced(file: CoffFile, p: Placing, d: nat, name: Name)
    requires ValidNames(file) && Defines(file, p, 0, d, name) && d < |file.symbols|
    ensures 0 < file.symbols[d].section <= |p.placedIn| && p.placedIn[file.symbols[d].section - 1] >= 0
  {
  }

  // A symbol that no record defines: its relocations are to the extern with its name.
  lemma ExternTarget(file: CoffFile, obj: Object, at: Layout, k: nat, j: nat) returns (r: nat, offset: int)
    requires ValidNames(file) && ReadFile(file) == Read(obj)
    requires k < |file.sections| && !IsLeftOut(file.sections[k].flags) && j < file.sections[k].relocCount && j < |file.sections[k].relocs|
    requires file.sections[k].relocs[j].offset + FieldSize(file.sections[k].relocs[j].rtype) <= |ContentsOf(file.sections[k])|
    requires 0 <= file.sections[k].relocs[j].symbol < |file.symbols|
    requires NoneDefines(file, Placed(file), 0, SymbolName(file, file.sections[k].relocs[j].symbol))
    ensures r < |obj.relocs|
    ensures Relocates(file, obj, at, k, j, obj.relocs[r], at.extern(SymbolName(file, file.sections[k].relocs[j].symbol)), offset)
  {
    hide ReadFile, ContentsOf, Relocates, SymbolName, IsReached, IsSkipped;
    r := RelocationMeans(file, obj, at, k, j);
    offset := obj.symbols[obj.relocs[r].symbol].offset;
  }

  // In the linked program the field has its value, and every byte of the section that is in no field is the file's.
  lemma FieldIsLinked(file: CoffFile, obj: Object, at: Layout, k: nat, j: nat, r: nat, target: int, offset: int)
    requires k < |file.sections| && j < |file.sections[k].relocs| && r < |obj.relocs| && ValidFields(obj)
    requires Relocates(file, obj, at, k, j, obj.relocs[r], target, offset)
    ensures var p, e := Placed(file), file.sections[k].relocs[j];
            var size, start := FieldSize(e.rtype), p.placedAt[k] + e.offset;
            && 0 <= p.placedIn[k] < |Link(obj, at)| && start + size <= |Link(obj, at)[p.placedIn[k]]|
            && Link(obj, at)[p.placedIn[k]][start..start + size] ==
               LittleEndian(CoffValue(e.rtype, target, offset, Signed(ContentsOf(file.sections[k])[e.offset..e.offset + size]),
                                      SectionAddress(p, at, k) + e.offset, at.image), size)
  {
    LinkedHolds(obj, at, |obj.relocs|, r);
  }

  lemma PlainByteIsLinked(file: CoffFile, obj: Object, at: Layout, k: nat, i: nat)
    requires ValidNames(file) && ReadFile(file) == Read(obj) && ValidFields(obj)
    requires k < |file.sections| && !IsLeftOut(file.sections[k].flags) && i < |ContentsOf(file.sections[k])|
    requires InNoField(obj.relocs, Placed(file).placedIn[k], Placed(file).placedAt[k] + i)
    ensures var s, b := Placed(file).placedIn[k], Placed(file).placedAt[k] + i;
            s < |Link(obj, at)| && b < |Link(obj, at)[s]| && Link(obj, at)[s][b] == ContentsOf(file.sections[k])[i]
  {
    FieldIsFromFile(file, k, i, 1);
    LinkedAgrees(obj, at, |obj.relocs|);
    var s, b := Placed(file).placedIn[k], Placed(file).placedAt[k] + i;
    assert obj.sections[s][b..b + 1][0] == obj.sections[s][b];
  }
}
