/** A module with its globals: every function and every extern is found by its own name, whatever globals are made, and
    whatever names C takes from the functions of the program. */
module Modules {
  import opened NameTable
  import opened Globals
  import opened GlobalData
  import opened AsmData
  import opened Decimals

  // The global that a table has for a name, or -1
  function LookupIn(table: seq<int>, slots: map<string, nat>, name: string): int {
    if name in slots && slots[name] < |table| then table[slots[name]] - 1 else -1
  }

  lemma CopyFindsTheSame(before: seq<int>, slots: map<string, nat>, table: seq<int>, copied: map<string, nat>, name: string)
    requires CopiedUpTo(before, slots, table, copied, |before|) && copied.Keys == slots.Keys
    ensures LookupIn(table, copied, name) == LookupIn(before, slots, name)
  {
    if name in slots {
      assert name in copied.Keys;
      assert SameEntry(before, slots, table, copied, name);
    }
  }

  // After entering a global, only its name can have changed.
  lemma EnteredFinds(before: seq<int>, hash: Hash, names: seq<string>, slots: map<string, nat>, slot: nat, index: nat, name: string)
    requires |before| > 0 && Represents(before, hash, names, slots) && slot < |before| && index < |names|
    requires names[index] in slots ==> slot == slots[names[index]]
    requires names[index] !in slots ==> before[slot] == 0
    ensures LookupIn(before[slot := index + 1], slots[names[index] := slot], name) ==
            if name == names[index] then index else LookupIn(before, slots, name)
  {
    if name != names[index] && name in slots {
      assert HasSlot(before, hash, names, name, slots[name]);
    }
  }

  // ---------------------------------------------------------------------------------------
  // Generated names
  // ---------------------------------------------------------------------------------------

  // A name made different by a number
  function Numbered(name: string, n: nat): string {
    name + "__" + Decimal(n)
  }

  lemma DecimalIsInjective(a: nat, b: nat)
    requires Decimal(a) == Decimal(b)
    ensures a == b
  {
    DecimalDigits(a);
    DecimalDigits(b);
  }

  lemma NumberedIsInjective(name: string, a: nat, b: nat)
    requires Numbered(name, a) == Numbered(name, b)
    ensures a == b
  {
    var head := name + "__";
    assert Numbered(name, a)[|head|..] == Decimal(a);
    assert Numbered(name, b)[|head|..] == Decimal(b);
    DecimalIsInjective(a, b);
  }

  // The first n numbered names from 2 on
  function NumberedUpTo(name: string, n: nat): set<string>
    decreases n
  {
    if n <= 2 then {} else NumberedUpTo(name, n - 1) + {Numbered(name, n - 1)}
  }

  lemma {:induction false} CountNumbered(name: string, n: nat)
    requires n >= 2
    ensures |NumberedUpTo(name, n)| == n - 2
    ensures forall k :: 2 <= k < n ==> Numbered(name, k) in NumberedUpTo(name, n)
    ensures Numbered(name, n) !in NumberedUpTo(name, n)
    decreases n
  {
    if n > 2 {
      CountNumbered(name, n - 1);
      NumberedIn(name, n, n);
    }
  }

  lemma {:induction false} NumberedIn(name: string, n: nat, m: nat)
    requires n <= m
    ensures Numbered(name, m) !in NumberedUpTo(name, n)
    decreases n
  {
    if n > 2 {
      NumberedIn(name, n - 1, m);
      if Numbered(name, m) == Numbered(name, n - 1) {
        NumberedIsInjective(name, m, n - 1);
      }
    }
  }

  lemma {:induction false} SubsetIsSmaller<T>(a: set<T>, b: set<T>)
    requires a <= b
    ensures |a| <= |b|
    decreases a
  {
    if a != {} {
      var x :| x in a;
      SubsetIsSmaller(a - {x}, b - {x});
    }
  }

  // When every number below n is taken, there are as many names.
  lemma ManyTaken(slots: map<string, nat>, name: string, n: nat)
    requires n >= 2 && NumberedUpTo(name, n) <= slots.Keys
    ensures n - 2 <= |slots|
  {
    CountNumbered(name, n);
    SubsetIsSmaller(NumberedUpTo(name, n), slots.Keys);
    assert |slots.Keys| == |slots|;
  }

  // Characters that an assembler label can have
  predicate IsLabelChar(c: char) {
    'a' <= c <= 'z' || 'A' <= c <= 'Z' || '0' <= c <= '9' || c == '_'
  }

  function Sanitized(s: string): (r: string)
    ensures |r| == |s| && forall i :: 0 <= i < |s| ==> r[i] == if IsLabelChar(s[i]) then s[i] else '_'
  {
    seq(|s|, (i: nat) => if i < |s| && IsLabelChar(s[i]) then s[i] else '_')
  }

  // The symbol of the data with the number; debugName is empty when there is none.
  function DataName(index: nat, debugName: string): string {
    Sanitized("__data" + Decimal(index) + (if debugName == "" then "" else "_") + debugName)
  }

  // A generated name has letters, digits and '_' only, and the assembler reads it back as it is.
  lemma DataNameIsPlain(index: nat, debugName: string)
    ensures forall c :: c in DataName(index, debugName) ==> 'a' <= c <= 'z' || 'A' <= c <= 'Z' || '0' <= c <= '9' || c == '_'
    ensures |DataName(index, debugName)| < 160 ==> PlainName(DataName(index, debugName))
  {
    hide Decimal;
    var name := "__data" + Decimal(index) + (if debugName == "" then "" else "_") + debugName;
    assert forall i :: 0 <= i < |name| ==> Sanitized(name)[i] == '_' || IsLabelChar(Sanitized(name)[i]);
  }

  predicate IsDataName(name: string) {
    "__data" <= name
  }

  lemma {:induction false} DigitsEnd(s: string, tail: string)
    requires AreDigits(s) && (|tail| > 0 ==> tail[0] == '_')
    ensures DigitCount(s + tail, 10) == |s|
    decreases |s|
  {
    if |s| > 0 {
      assert (s + tail)[1..] == s[1..] + tail;
      DigitsEnd(s[1..], tail);
    } else {
      assert s + tail == tail;
    }
  }

  // What is a label already stays so.
  lemma LabelStays(head: string, rest: string)
    requires forall i :: 0 <= i < |head| ==> IsLabelChar(head[i])
    ensures Sanitized(head + rest) == head + Sanitized(rest)
  {
    forall i | 0 <= i < |head| + |rest|
      ensures Sanitized(head + rest)[i] == (head + Sanitized(rest))[i]
    {
      if i < |head| {
        assert (head + rest)[i] == head[i];
      } else {
        assert (head + rest)[i] == rest[i - |head|];
      }
    }
  }

  lemma NumberedHead(index: nat)
    ensures forall i :: 0 <= i < |"__data" + Decimal(index)| ==> IsLabelChar(("__data" + Decimal(index))[i])
  {
    DecimalDigits(index);
    var head := "__data" + Decimal(index);
    forall i | 0 <= i < |head|
      ensures IsLabelChar(head[i])
    {
      if i >= 6 {
        assert head[i] == Decimal(index)[i - 6];
      }
    }
  }

  // A data name is the number after __data, and then nothing or an underscore.
  lemma DataNameParts(index: nat, debugName: string) returns (tail: string)
    ensures DataName(index, debugName) == "__data" + (Decimal(index) + tail)
    ensures |tail| > 0 ==> tail[0] == '_'
  {
    hide Decimal;
    var rest := (if debugName == "" then "" else "_") + debugName;
    var head := "__data" + Decimal(index);
    NumberedHead(index);
    LabelStays(head, rest);
    assert "__data" + Decimal(index) + (if debugName == "" then "" else "_") + debugName == head + rest;
    tail := Sanitized(rest);
    assert head + tail == "__data" + (Decimal(index) + tail);
  }

  lemma DataNamesDiffer(i: nat, a: string, j: nat, b: string)
    requires DataName(i, a) == DataName(j, b)
    ensures i == j
  {
    var ta := DataNameParts(i, a);
    var tb := DataNameParts(j, b);
    assert ("__data" + (Decimal(i) + ta))[6..] == Decimal(i) + ta;
    assert ("__data" + (Decimal(j) + tb))[6..] == Decimal(j) + tb;
    DecimalDigits(i);
    DecimalDigits(j);
    DigitsEnd(Decimal(i), ta);
    DigitsEnd(Decimal(j), tb);
    assert (Decimal(i) + ta)[..|Decimal(i)|] == Decimal(i);
    assert (Decimal(j) + tb)[..|Decimal(j)|] == Decimal(j);
  }

  lemma DataNameIsDataName(index: nat, debugName: string)
    ensures IsDataName(DataName(index, debugName))
  {
    var tail := DataNameParts(index, debugName);
  }

  // A number after a name does not make it the name of data.
  lemma NumberedIsNoDataName(name: string, n: nat)
    requires !IsDataName(name)
    ensures !IsDataName(Numbered(name, n))
  {
    var all, p := Numbered(name, n), |name|;
    DecimalDigits(n);
    assert all == name + ("__" + Decimal(n));
    if p >= 6 {
      assert all[..6] == name[..6] != "__data";
    } else {
      assert all[p] == '_' && all[p + 2] == ("__" + Decimal(n))[2] == Decimal(n)[0] && IsDecimalDigit(all[p + 2]);
      if p <= 3 {
        assert all[p + 2] != "__data"[p + 2];
      } else {
        assert all[p] != "__data"[p];
      }
    }
  }

  // ---------------------------------------------------------------------------------------
  // The table of a module
  // ---------------------------------------------------------------------------------------

  // Every name finds the same global in both tables.
  predicate FindsTheSame(before: seq<int>, slots: map<string, nat>, table: seq<int>, slots': map<string, nat>, name: string) {
    LookupIn(table, slots', name) == LookupIn(before, slots, name)
  }

  ghost predicate AllTheSame(before: seq<int>, slots: map<string, nat>, table: seq<int>, slots': map<string, nat>) {
    forall name :: FindsTheSame(before, slots, table, slots', name)
  }

  // Only a name that was not there finds the global now.
  predicate FindsMore(before: seq<int>, slots: map<string, nat>, table: seq<int>, slots': map<string, nat>, added: string, index: nat, name: string) {
    LookupIn(table, slots', name) == if name == added && LookupIn(before, slots, name) < 0 then index else LookupIn(before, slots, name)
  }

  ghost predicate AllFindMore(before: seq<int>, slots: map<string, nat>, table: seq<int>, slots': map<string, nat>, added: string, index: nat) {
    forall name :: FindsMore(before, slots, table, slots', added, index, name)
  }

  // A name that is there has a global.
  lemma PresentIsFound(table: seq<int>, hash: Hash, names: seq<string>, slots: map<string, nat>, name: string)
    requires |table| > 0 && Represents(table, hash, names, slots)
    ensures name in slots <==> LookupIn(table, slots, name) >= 0
    ensures name in slots ==> slots[name] < |table| && 0 <= LookupIn(table, slots, name) < |names| && names[LookupIn(table, slots, name)] == name
  {
    if name in slots {
      assert HasSlot(table, hash, names, name, slots[name]);
    }
  }

  // A table with enough free slots for a global more, with the same names
  method Reserve(table: array<int>, hash: Hash, names: seq<string>, ghost slots: map<string, nat>, count: nat)
    returns (larger: array<int>, ghost slots': map<string, nat>)
    requires table.Length == 0 ==> slots == map[]
    requires table.Length > 0 ==> HasRoom(table[..], hash, names, slots)
    requires |slots| <= count && (table.Length > 0 ==> 2 * count <= table.Length)
    requires table.Length == 0 ==> 2 * (count + 1) <= INITIAL_CAPACITY
    ensures larger == table || fresh(larger)
    ensures larger.Length >= 2 * (count + 1) && HasRoom(larger[..], hash, names, slots') && |slots'| == |slots|
    ensures AllTheSame(table[..], slots, larger[..], slots')
  {
    larger, slots' := table, slots;
    if 2 * (count + 1) > table.Length {
      if table.Length == 0 {
        larger := new int[INITIAL_CAPACITY](_ => 0);
        UsedOfZeros(larger[..]);
      } else {
        larger, slots' := Rehash(table[..], hash, names, slots, 2 * table.Length);
        forall name: string
          ensures FindsTheSame(table[..], slots, larger[..], slots', name)
        {
          CopyFindsTheSame(table[..], slots, larger[..], slots', name);
        }
        assert |slots'.Keys| == |slots'| && |slots.Keys| == |slots|;
      }
    }
  }

  // Entering changes the lookup of one name, and only when nothing was found for it.
  method EnterIfFree(table: array<int>, hash: Hash, names: seq<string>, ghost slots: map<string, nat>, index: nat)
    returns (ghost slots': map<string, nat>)
    requires index < |names| && HasRoom(table[..], hash, names, slots) && |slots| + 1 < table.Length
    modifies table
    ensures HasRoom(table[..], hash, names, slots')
    ensures |slots'| == |slots| + if names[index] in slots then 0 else 1
    ensures AllFindMore(old(table[..]), slots, table[..], slots', names[index], index)
  {
    var slot := FindSlot(table, hash, names, slots, names[index]);
    slots' := slots;
    ghost var t := table[..];
    PresentIsFound(t, hash, names, slots, names[index]);
    if table[slot] == 0 {
      Entered(t, hash, names, slots, slot, index);
      UsedAfter(t, slot, index + 1);
      SizeAfter(slots, names[index], slot);
      slots' := slots[names[index] := slot];
      ghost var changed := t[slot := index + 1];
      forall name: string
        ensures FindsMore(t, slots, changed, slots', names[index], index, name)
      {
        EnteredFinds(t, hash, names, slots, slot, index, name);
      }
      table[slot] := index + 1;
      assert table[..] == changed;
    }
  }

  lemma SameThenMore(a: seq<int>, sa: map<string, nat>, b: seq<int>, sb: map<string, nat>, c: seq<int>, sc: map<string, nat>, added: string, index: nat)
    requires AllTheSame(a, sa, b, sb) && AllFindMore(b, sb, c, sc, added, index)
    ensures forall name :: LookupIn(c, sc, name) == if name == added && LookupIn(a, sa, name) < 0 then index else LookupIn(a, sa, name)
  {
    forall name: string
      ensures LookupIn(c, sc, name) == if name == added && LookupIn(a, sa, name) < 0 then index else LookupIn(a, sa, name)
    {
      assert FindsTheSame(a, sa, b, sb, name) && FindsMore(b, sb, c, sc, added, index, name);
    }
  }

  // Enters the name of a global, in a table that is grown for it when it has to be
  method AddName(table: array<int>, hash: Hash, names: seq<string>, ghost slots: map<string, nat>, index: nat)
    returns (larger: array<int>, ghost slots': map<string, nat>)
    requires index < |names| && |slots| <= |names|
    requires table.Length == 0 ==> slots == map[] && |names| == 1
    requires table.Length > 0 ==> HasRoom(table[..], hash, names, slots) && 2 * |names| <= table.Length
    modifies table
    ensures larger == table || fresh(larger)
    ensures larger.Length >= 2 * (|names| + 1) && HasRoom(larger[..], hash, names, slots')
    ensures |slots'| <= |slots| + 1 && (LookupIn(old(table[..]), slots, names[index]) >= 0 ==> |slots'| == |slots|)
    ensures forall name :: LookupIn(larger[..], slots', name) ==
              if name == names[index] && LookupIn(old(table[..]), slots, name) < 0 then index else LookupIn(old(table[..]), slots, name)
  {
    ghost var t := table[..];
    larger, slots' := Reserve(table, hash, names, slots, |names|);
    ghost var t1, s1 := larger[..], slots';
    PresentIsFound(t1, hash, names, s1, names[index]);
    assert FindsTheSame(t, slots, t1, s1, names[index]);
    slots' := EnterIfFree(larger, hash, names, s1, index);
    SameThenMore(t, slots, t1, s1, larger[..], slots', names[index], index);
  }

  // Only the name that was given to the global finds another one now.
  predicate FindsOther(before: seq<int>, slots: map<string, nat>, table: seq<int>, slots': map<string, nat>, given: string, index: nat, name: string) {
    LookupIn(table, slots', name) == if name == given then index else LookupIn(before, slots, name)
  }

  ghost predicate AllFindOther(before: seq<int>, slots: map<string, nat>, table: seq<int>, slots': map<string, nat>, given: string, index: nat) {
    forall name :: FindsOther(before, slots, table, slots', given, index, name)
  }

  // The name of the global finds it, whatever it found before.
  method GiveName(table: array<int>, hash: Hash, names: seq<string>, ghost slots: map<string, nat>, index: nat)
    returns (ghost slots': map<string, nat>)
    requires index < |names| && HasRoom(table[..], hash, names, slots) && names[index] in slots
    modifies table
    ensures HasRoom(table[..], hash, names, slots') && |slots'| == |slots|
    ensures AllFindOther(old(table[..]), slots, table[..], slots', names[index], index)
  {
    ghost var t := table[..];
    var slot := Enter(table, hash, names, slots, index);
    slots' := slots[names[index] := slot];
    ghost var changed := table[..];
    forall name: string
      ensures FindsOther(t, slots, changed, slots', names[index], index, name)
    {
      EnteredFinds(t, hash, names, slots, slot, index, name);
    }
  }

  // A global that is not found by any name can get another name.
  lemma RenamedInTable(table: seq<int>, hash: Hash, names: seq<string>, slots: map<string, nat>, index: nat, name: string)
    requires index < |names| && HasRoom(table, hash, names, slots)
    requires forall other :: LookupIn(table, slots, other) != index
    ensures HasRoom(table, hash, names[index := name], slots)
  {
    forall s | 0 <= s < |table|
      ensures table[s] != index + 1
    {
      if table[s] != 0 {
        assert LookupIn(table, slots, names[table[s] - 1]) == table[s] - 1;
      }
    }
    Renamed(table, hash, names, slots, index, name);
  }

  // ---------------------------------------------------------------------------------------
  // What holds of the globals
  // ---------------------------------------------------------------------------------------

  // Every global is found by its name.
  predicate NamedIn(globals: seq<Globals.Global>, table: seq<int>, slots: map<string, nat>) {
    forall i {:trigger LookupIn(table, slots, globals[i].name)} :: 0 <= i < |globals| ==> LookupIn(table, slots, globals[i].name) == i
  }

  ghost predicate IsDataNameOf(index: nat, name: string) {
    exists debugName :: name == DataName(index, debugName)
  }

  ghost predicate HasShape(index: nat, g: Globals.Global) {
    if g.kind.Data? then IsDataNameOf(index, g.name) else !IsDataName(g.name)
  }

  // Data has a generated name of its number, and nothing else has such a name.
  ghost predicate ShapedIn(globals: seq<Globals.Global>) {
    forall i {:trigger HasShape(i, globals[i])} :: 0 <= i < |globals| ==> HasShape(i, globals[i])
  }

  // A function has its name from its global, and its global has it.
  predicate Matches(g: Globals.Global, index: nat, functions: seq<Func>) {
    g.kind.Function? ==> 0 <= g.func < |functions| && functions[g.func] == Func(g.name, index)
  }

  predicate MatchIn(globals: seq<Globals.Global>, functions: seq<Func>) {
    forall i {:trigger Matches(globals[i], i, functions)} :: 0 <= i < |globals| ==> Matches(globals[i], i, functions)
  }

  lemma NamedMore(globals: seq<Globals.Global>, g: Globals.Global, table: seq<int>, slots: map<string, nat>, table': seq<int>, slots': map<string, nat>)
    requires NamedIn(globals, table, slots) && LookupIn(table, slots, g.name) < 0
    requires forall name :: LookupIn(table', slots', name) == if name == g.name then |globals| else LookupIn(table, slots, name)
    ensures NamedIn(globals + [g], table', slots')
  {
    forall i | 0 <= i < |globals|
      ensures LookupIn(table', slots', globals[i].name) == i
    {
      assert LookupIn(table, slots, globals[i].name) == i;
    }
  }

  lemma ShapedMore(globals: seq<Globals.Global>, g: Globals.Global, functions: seq<Func>)
    requires ShapedIn(globals) && MatchIn(globals, functions) && HasShape(|globals|, g) && !g.kind.Function?
    ensures ShapedIn(globals + [g]) && MatchIn(globals + [g], functions)
  {
    forall i | 0 <= i < |globals|
      ensures HasShape(i, (globals + [g])[i]) && Matches((globals + [g])[i], i, functions)
    {
      assert HasShape(i, globals[i]) && Matches(globals[i], i, functions);
    }
  }

  // The globals after a function gave its name to an extern, which is the last one
  function Taken(globals: seq<Globals.Global>, existing: nat, name: string, unique: string): seq<Globals.Global>
    requires existing < |globals|
  {
    globals[existing := globals[existing].(name := unique)] + [Globals.Global(Extern, name, false, -1)]
  }

  lemma NamesOfTaken(globals: seq<Globals.Global>, existing: nat, name: string, unique: string)
    requires existing < |globals|
    ensures NamesOf(Taken(globals, existing, name, unique)) == (NamesOf(globals) + [name])[existing := unique]
  {
    var renamed := globals[existing].(name := unique);
    NamesOfUpdated(globals, existing, renamed);
    NamesOfAppended(globals[existing := renamed], Globals.Global(Extern, name, false, -1));
  }

  lemma NamedAfterTaking(globals: seq<Globals.Global>, existing: nat, name: string, unique: string,
                         table: seq<int>, slots: map<string, nat>, table': seq<int>, slots': map<string, nat>)
    requires existing < |globals| && NamedIn(globals, table, slots)
    requires LookupIn(table, slots, name) == existing && LookupIn(table, slots, unique) < 0
    requires forall other :: LookupIn(table', slots', other) ==
               if other == name then |globals| else if other == unique then existing else LookupIn(table, slots, other)
    ensures NamedIn(Taken(globals, existing, name, unique), table', slots')
  {
    forall i | 0 <= i < |globals| && i != existing
      ensures LookupIn(table', slots', globals[i].name) == i
    {
      assert LookupIn(table, slots, globals[i].name) == i;
    }
    var after := Taken(globals, existing, name, unique);
    forall i | 0 <= i < |after|
      ensures LookupIn(table', slots', after[i].name) == i
    {
      assert i < |globals| && i != existing ==> after[i] == globals[i];
    }
  }

  // No other name finds the global whose name was given away.
  lemma NoLongerFound(hash: Hash, names: seq<string>, table: seq<int>, slots: map<string, nat>, table': seq<int>, slots': map<string, nat>,
                      name: string, existing: nat, index: nat)
    requires |table| > 0 && Represents(table, hash, names, slots) && existing < |names| && names[existing] == name && index != existing
    requires AllFindOther(table, slots, table', slots', name, index)
    ensures forall other :: LookupIn(table', slots', other) != existing
  {
    forall other: string
      ensures LookupIn(table', slots', other) != existing
    {
      assert FindsOther(table, slots, table', slots', name, index, other);
      PresentIsFound(table, hash, names, slots, other);
    }
  }

  // Giving a name to another global, and entering a free one
  lemma TakenLookups(t: seq<int>, s: map<string, nat>, t1: seq<int>, s1: map<string, nat>, t2: seq<int>, s2: map<string, nat>,
                     name: string, unique: string, existing: nat, index: nat)
    requires LookupIn(t, s, name) == existing && LookupIn(t, s, unique) < 0
    requires AllFindOther(t, s, t1, s1, name, index)
    requires forall other :: LookupIn(t2, s2, other) == if other == unique then existing else LookupIn(t1, s1, other)
    ensures forall other :: LookupIn(t2, s2, other) ==
              if other == name then index else if other == unique then existing else LookupIn(t, s, other)
  {
    forall other: string
      ensures LookupIn(t2, s2, other) == if other == name then index else if other == unique then existing else LookupIn(t, s, other)
    {
      assert FindsOther(t, s, t1, s1, name, index, other);
    }
  }

  ghost predicate NotFound(table: seq<int>, slots: map<string, nat>, index: int) {
    forall other :: LookupIn(table, slots, other) != index
  }

  // The name of a global finds it from now on, and no name finds the one that had it.
  method GiveAway(table: array<int>, hash: Hash, names: seq<string>, ghost slots: map<string, nat>, existing: nat, index: nat)
    returns (ghost slots': map<string, nat>)
    requires HasRoom(table[..], hash, names, slots) && existing < |names| && index < |names| && existing != index
    requires names[existing] == names[index] && LookupIn(table[..], slots, names[index]) == existing
    modifies table
    ensures HasRoom(table[..], hash, names, slots') && |slots'| == |slots| && NotFound(table[..], slots', existing)
    ensures AllFindOther(old(table[..]), slots, table[..], slots', names[index], index)
  {
    ghost var t := table[..];
    slots' := GiveName(table, hash, names, slots, index);
    NoLongerFound(hash, names, t, slots, table[..], slots', names[existing], existing, index);
  }

  // A global that no name finds gets a name that is free.
  method EnterRenamed(table: array<int>, hash: Hash, names: seq<string>, ghost slots: map<string, nat>, existing: nat, unique: string)
    returns (larger: array<int>, ghost slots': map<string, nat>)
    requires HasRoom(table[..], hash, names, slots) && existing < |names| && NotFound(table[..], slots, existing)
    requires |slots| < |names| && 2 * |names| <= table.Length && LookupIn(table[..], slots, unique) < 0
    modifies table
    ensures larger == table || fresh(larger)
    ensures larger.Length >= 2 * (|names| + 1) && HasRoom(larger[..], hash, names[existing := unique], slots') && |slots'| <= |names|
    ensures forall name :: LookupIn(larger[..], slots', name) == if name == unique then existing else LookupIn(old(table[..]), slots, name)
  {
    RenamedInTable(table[..], hash, names, slots, existing, unique);
    larger, slots' := AddName(table, hash, names[existing := unique], slots, existing);
  }

  // A name is given to another global, and the one that had it gets a free one.
  method MoveName(table: array<int>, hash: Hash, names: seq<string>, ghost slots: map<string, nat>, existing: nat, index: nat, unique: string)
    returns (larger: array<int>, ghost slots': map<string, nat>)
    requires HasRoom(table[..], hash, names, slots) && existing < |names| && index < |names| && existing != index
    requires names[existing] == names[index] && LookupIn(table[..], slots, names[index]) == existing
    requires |slots| < |names| && 2 * |names| <= table.Length && LookupIn(table[..], slots, unique) < 0
    modifies table
    ensures larger == table || fresh(larger)
    ensures larger.Length >= 2 * (|names| + 1) && HasRoom(larger[..], hash, names[existing := unique], slots') && |slots'| <= |names|
    ensures forall name :: LookupIn(larger[..], slots', name) ==
              if name == names[index] then index else if name == unique then existing else LookupIn(old(table[..]), slots, name)
  {
    ghost var t := table[..];
    ghost var given := GiveAway(table, hash, names, slots, existing, index);
    ghost var t1 := table[..];
    assert FindsOther(t, slots, t1, given, names[index], index, unique);
    larger, slots' := EnterRenamed(table, hash, names, given, existing, unique);
    TakenLookups(t, slots, t1, given, larger[..], slots', names[index], unique, existing, index);
  }

  // A global is added with the name of another one, which keeps it.
  method AddTakenName(table: array<int>, hash: Hash, names: seq<string>, ghost slots: map<string, nat>, name: string)
    returns (larger: array<int>, ghost slots': map<string, nat>)
    requires HasRoom(table[..], hash, names, slots) && LookupIn(table[..], slots, name) >= 0
    requires |slots| <= |names| && 2 * (|names| + 1) <= table.Length
    modifies table
    ensures larger == table || fresh(larger)
    ensures larger.Length >= 2 * (|names| + 2) && HasRoom(larger[..], hash, names + [name], slots') && |slots'| <= |names|
    ensures forall other :: LookupIn(larger[..], slots', other) == LookupIn(old(table[..]), slots, other)
  {
    Appended(table[..], hash, names, slots, name);
    larger, slots' := AddName(table, hash, names + [name], slots, |names|);
  }

  // A global is added with the name of another one, which gets a free one.
  method TakeInTable(table: array<int>, hash: Hash, names: seq<string>, ghost slots: map<string, nat>, existing: nat, name: string, unique: string)
    returns (larger: array<int>, ghost slots': map<string, nat>)
    requires HasRoom(table[..], hash, names, slots) && existing < |names| && names[existing] == name
    requires LookupIn(table[..], slots, name) == existing && LookupIn(table[..], slots, unique) < 0
    requires |slots| <= |names| && 2 * (|names| + 1) <= table.Length
    modifies table
    ensures larger == table || fresh(larger)
    ensures larger.Length >= 2 * (|names| + 2) && HasRoom(larger[..], hash, (names + [name])[existing := unique], slots') && |slots'| <= |names| + 1
    ensures forall other :: LookupIn(larger[..], slots', other) ==
              if other == name then |names| else if other == unique then existing else LookupIn(old(table[..]), slots, other)
  {
    ghost var s1;
    larger, s1 := AddTakenName(table, hash, names, slots, name);
    larger, slots' := MoveName(larger, hash, names + [name], s1, existing, |names|, unique);
  }

  // The functions after one got another name
  function RenamedFunction(functions: seq<Func>, func: int, name: string): seq<Func> {
    if 0 <= func < |functions| then functions[func := functions[func].(name := name)] else functions
  }

  lemma FunctionsAreApart(globals: seq<Globals.Global>, functions: seq<Func>, i: nat, j: nat)
    requires MatchIn(globals, functions) && i < |globals| && j < |globals| && i != j
    requires globals[i].kind.Function? && globals[j].kind.Function?
    ensures globals[i].func != globals[j].func
  {
    assert Matches(globals[i], i, functions) && Matches(globals[j], j, functions);
  }

  // Only functions have a number of a function.
  predicate OnlyFunctions(globals: seq<Globals.Global>) {
    forall i :: 0 <= i < |globals| && !globals[i].kind.Function? ==> globals[i].func == -1
  }

  lemma ShapedAfterTaking(globals: seq<Globals.Global>, existing: nat, name: string, unique: string, functions: seq<Func>)
    requires existing < |globals| && ShapedIn(globals) && MatchIn(globals, functions) && OnlyFunctions(globals)
    requires globals[existing].name == name && !IsDataName(name) && !IsDataName(unique)
    ensures var after := Taken(globals, existing, name, unique);
            ShapedIn(after) && MatchIn(after, RenamedFunction(functions, globals[existing].func, unique)) && OnlyFunctions(after)
  {
    var after := Taken(globals, existing, name, unique);
    var functions' := RenamedFunction(functions, globals[existing].func, unique);
    DataIsNamedSo(globals, existing);
    forall i | 0 <= i < |after|
      ensures HasShape(i, after[i]) && Matches(after[i], i, functions')
    {
      if i < |globals| {
        assert HasShape(i, globals[i]) && Matches(globals[i], i, functions);
        assert Matches(globals[existing], existing, functions);
        if i != existing && globals[i].kind.Function? && globals[existing].kind.Function? {
          FunctionsAreApart(globals, functions, i, existing);
        }
      }
    }
  }

  // Every body is one of the program: what the lowering queued before.
  predicate BodiesAreSaad(globals: seq<Globals.Global>) {
    forall i :: 0 <= i < |globals| && globals[i].kind.Function? ==> globals[i].isSaad
  }

  // A global becomes a function.
  function WithFunction(globals: seq<Globals.Global>, index: nat, func: nat): seq<Globals.Global>
    requires index < |globals|
  {
    globals[index := globals[index].(kind := Function, func := func)]
  }

  lemma FunctionAdded(globals: seq<Globals.Global>, functions: seq<Func>, index: nat, table: seq<int>, slots: map<string, nat>)
    requires index < |globals| && !globals[index].kind.Data? && ShapedIn(globals) && MatchIn(globals, functions) && OnlyFunctions(globals)
    requires NamedIn(globals, table, slots)
    ensures var after := WithFunction(globals, index, |functions|);
            && ShapedIn(after) && MatchIn(after, functions + [Func(globals[index].name, index)]) && OnlyFunctions(after)
            && NamedIn(after, table, slots) && NamesOf(after) == NamesOf(globals)
  {
    var after := WithFunction(globals, index, |functions|);
    var functions' := functions + [Func(globals[index].name, index)];
    NamesOfUpdated(globals, index, after[index]);
    assert NamesOf(globals)[index := globals[index].name] == NamesOf(globals);
    forall i | 0 <= i < |after|
      ensures HasShape(i, after[i]) && Matches(after[i], i, functions') && LookupIn(table, slots, after[i].name) == i
    {
      assert HasShape(i, globals[i]) && Matches(globals[i], i, functions) && LookupIn(table, slots, globals[i].name) == i;
    }
  }

  lemma DataIsNamedSo(globals: seq<Globals.Global>, i: nat)
    requires ShapedIn(globals) && i < |globals| && !IsDataName(globals[i].name)
    ensures !globals[i].kind.Data?
  {
    assert HasShape(i, globals[i]);
    if globals[i].kind.Data? {
      var d :| globals[i].name == DataName(i, d);
      DataNameIsDataName(i, d);
    }
  }

  // ---------------------------------------------------------------------------------------
  // The module
  // ---------------------------------------------------------------------------------------

  class Module {
    const hash: Hash
    var names: array<int>
    var globals: seq<Globals.Global>
    var functions: seq<Func>
    ghost var slots: map<string, nat>

    constructor (hash: Hash)
      ensures Good() && globals == [] && functions == [] && fresh(names)
    {
      this.hash := hash;
      names, globals, functions, slots := new int[0], [], [], map[];
    }

    // The global with the name, or -1
    ghost function Lookup(name: string): int
      reads this, names
    {
      LookupIn(names[..], slots, name)
    }

    ghost predicate TableValid()
      reads this, names
    {
      && (names.Length == 0 ==> slots == map[])
      && (names.Length > 0 ==> HasRoom(names[..], hash, NamesOf(globals), slots))
    }

    // At most half of the slots are taken.
    ghost predicate Valid()
      reads this, names
    {
      && TableValid() && |slots| <= |globals|
      && (names.Length == 0 ==> globals == [])
      && (names.Length > 0 ==> 2 * (|globals| + 1) <= names.Length)
    }

    lemma LookupInGlobals(name: string)
      requires TableValid()
      ensures -1 <= Lookup(name) < |globals|
      ensures Lookup(name) >= 0 ==> globals[Lookup(name)].name == name
      ensures Lookup(name) >= 0 <==> name in slots
    {
      if names.Length > 0 {
        PresentIsFound(names[..], hash, NamesOf(globals), slots, name);
      }
    }

    method FindGlobal(name: string) returns (index: int)
      requires Valid()
      ensures index == Lookup(name) && -1 <= index < |globals|
    {
      LookupInGlobals(name);
      if names.Length == 0 { return -1; }
      var slot := FindSlot(names, hash, NamesOf(globals), slots, name);
      index := names[slot] - 1;
    }

    // Enters the global under its name, unless the table has the name.
    method NameSet(index: nat)
      requires TableValid() && index < |globals| && |slots| <= |globals|
      requires names.Length == 0 ==> |globals| == 1
      requires names.Length > 0 ==> 2 * |globals| <= names.Length
      requires Lookup(globals[index].name) >= 0 || |slots| < |globals|
      modifies this`names, this`slots, names
      ensures Valid() && (names == old(names) || fresh(names))
      ensures |slots| <= |old(slots)| + 1 && (old(Lookup(globals[index].name)) >= 0 ==> |slots| == |old(slots)|)
      ensures forall name :: LookupIn(names[..], slots, name) ==
                if name == globals[index].name && LookupIn(old(names[..]), old(slots), name) < 0 then index
                else LookupIn(old(names[..]), old(slots), name)
    {
      names, slots := AddName(names, hash, NamesOf(globals), slots, index);
    }

    // Every global is found by its name, only data has generated names, and functions have the names of their globals.
    ghost predicate Good()
      reads this, names
    {
      Valid() && NamedIn(globals, names[..], slots) && ShapedIn(globals) && MatchIn(globals, functions) && OnlyFunctions(globals)
    }

    method GlobalNew(kind: Kind, name: string, isSaad: bool) returns (index: nat)
      requires Valid()
      modifies this`globals, this`names, this`slots, names
      ensures Valid() && (names == old(names) || fresh(names))
      ensures index == |old(globals)| && globals == old(globals) + [Globals.Global(kind, name, isSaad, -1)]
      ensures |slots| <= |old(slots)| + 1 && (old(Lookup(name)) >= 0 ==> |slots| == |old(slots)|)
      ensures forall other :: LookupIn(names[..], slots, other) ==
                if other == name && LookupIn(old(names[..]), old(slots), other) < 0 then index
                else LookupIn(old(names[..]), old(slots), other)
    {
      index := |globals|;
      NamesOfAppended(globals, Globals.Global(kind, name, isSaad, -1));
      if names.Length > 0 {
        Appended(names[..], hash, NamesOf(globals), slots, name);
      }
      globals := globals + [Globals.Global(kind, name, isSaad, -1)];
      NameSet(index);
    }

    // The search through the numbered names, until one is free
    method FreshNumbered(name: string) returns (unique: string)
      requires Valid()
      ensures Lookup(unique) < 0
      ensures exists n: nat :: unique == Numbered(name, n)
    {
      var n := 2;
      unique := Numbered(name, n);
      var found := FindGlobal(unique);
      while found >= 0
        invariant n >= 2 && unique == Numbered(name, n) && found == Lookup(unique)
        invariant NumberedUpTo(name, n) <= slots.Keys
        decreases |slots| + 2 - n
      {
        LookupInGlobals(unique);
        ManyTaken(slots, name, n + 1);
        n := n + 1;
        unique := Numbered(name, n);
        found := FindGlobal(unique);
      }
    }

    // The name, or with a number after it when it is taken
    method UniqueName(name: string) returns (unique: string)
      requires Valid()
      ensures Lookup(unique) < 0 && (Lookup(name) < 0 ==> unique == name)
      ensures unique == name || exists n: nat :: unique == Numbered(name, n)
    {
      var found := FindGlobal(name);
      if found < 0 { return name; }
      unique := FreshNumbered(name);
    }

    // A global with a name that is free
    method AddFresh(kind: Kind, name: string, isSaad: bool) returns (index: nat)
      requires Good() && Lookup(name) < 0 && !kind.Function?
      requires HasShape(|globals|, Globals.Global(kind, name, isSaad, -1))
      modifies this`globals, this`names, this`slots, names
      ensures Good() && (names == old(names) || fresh(names))
      ensures index == |old(globals)| && globals == old(globals) + [Globals.Global(kind, name, isSaad, -1)]
      ensures forall other :: LookupIn(names[..], slots, other) ==
                if other == name then index else LookupIn(old(names[..]), old(slots), other)
      ensures |slots| <= |old(slots)| + 1
    {
      ghost var before, t, s := globals, names[..], slots;
      ghost var g := Globals.Global(kind, name, isSaad, -1);
      index := GlobalNew(kind, name, isSaad);
      NamedMore(before, g, t, s, names[..], slots);
      ShapedMore(before, g, functions);
    }

    // The global of a function of the program, whose body is lowered later
    method AddFunction(name: string) returns (index: nat)
      requires Good() && !IsDataName(name)
      modifies this`globals, this`names, this`slots, names
      ensures Good() && (names == old(names) || fresh(names))
      ensures index == |old(globals)| && |globals| == index + 1 && globals[..index] == old(globals)
      ensures globals[index].kind.Extern? && globals[index].isSaad && (old(Lookup(name)) < 0 ==> globals[index].name == name)
    {
      var unique := UniqueName(name);
      if unique != name {
        ghost var n: nat :| unique == Numbered(name, n);
        NumberedIsNoDataName(name, n);
      }
      index := AddFresh(Extern, unique, true);
    }

    // The generated name of data is free.
    lemma DataNameIsFree(debugName: string)
      requires Good()
      ensures Lookup(DataName(|globals|, debugName)) < 0
    {
      var name := DataName(|globals|, debugName);
      LookupInGlobals(name);
      DataNameIsDataName(|globals|, debugName);
      var j := Lookup(name);
      if j >= 0 {
        assert HasShape(j, globals[j]);
        var d :| globals[j].name == DataName(j, d);
        DataNamesDiffer(|globals|, debugName, j, d);
        assert false;
      }
    }

    method AddData(debugName: string) returns (index: nat)
      requires Good()
      modifies this`globals, this`names, this`slots, names
      ensures Good() && (names == old(names) || fresh(names))
      ensures index == |old(globals)| && |globals| == index + 1 && globals[..index] == old(globals) && globals[index].kind.Data?
    {
      DataNameIsFree(debugName);
      assert IsDataNameOf(|globals|, DataName(|globals|, debugName));
      index := AddFresh(Data, DataName(|globals|, debugName), false);
    }

    // A new extern takes the name of another global, which gets a free one.
    method AddTaking(existing: nat, name: string, unique: string)
      requires Valid() && existing < |globals| && globals[existing].name == name && Lookup(name) == existing && Lookup(unique) < 0
      modifies this`globals, this`names, this`slots, names
      ensures Valid() && (names == old(names) || fresh(names)) && globals == Taken(old(globals), existing, name, unique)
      ensures forall other :: LookupIn(names[..], slots, other) ==
                if other == name then |old(globals)| else if other == unique then existing else LookupIn(old(names[..]), old(slots), other)
    {
      NamesOfTaken(globals, existing, name, unique);
      names, slots := TakeInTable(names, hash, NamesOf(globals), slots, existing, name, unique);
      globals := Taken(globals, existing, name, unique);
    }

    // A function of the program gets another symbol, and its name goes to the C function.
    method TakeName(existing: nat, name: string) returns (index: nat, unique: string)
      requires Good() && !IsDataName(name) && Lookup(name) == existing && existing < |globals| && globals[existing].name == name
      modifies this`globals, this`names, this`slots, this`functions, names
      ensures Good() && (names == old(names) || fresh(names))
      ensures index == |old(globals)| && old(Lookup(unique)) < 0
      ensures globals == Taken(old(globals), existing, name, unique)
      ensures functions == RenamedFunction(old(functions), old(globals)[existing].func, unique)
    {
      ghost var g0, f0, t0, s0 := globals, functions, names[..], slots;
      index := |globals|;
      unique := FreshNumbered(name);
      ghost var n: nat :| unique == Numbered(name, n);
      NumberedIsNoDataName(name, n);
      functions := RenamedFunction(functions, globals[existing].func, unique);
      AddTaking(existing, name, unique);
      NamedAfterTaking(g0, existing, name, unique, t0, s0, names[..], slots);
      ShapedAfterTaking(g0, existing, name, unique, f0);
    }

    // The extern with the name: the one there is, or a new one. What it finds is never a function of the program.
    method FindOrAddExtern(name: string) returns (index: nat)
      requires Good() && !IsDataName(name)
      modifies this`globals, this`names, this`slots, this`functions, names
      ensures Good() && (names == old(names) || fresh(names))
      ensures index < |globals| && Lookup(name) == index && globals[index].name == name && !globals[index].isSaad
      ensures old(Lookup(name)) < 0 ==> globals == old(globals) + [Globals.Global(Extern, name, false, -1)]
      ensures 0 <= old(Lookup(name)) < |old(globals)| && !old(globals)[old(Lookup(name))].isSaad ==> globals == old(globals)
      // with the bodies that the lowering makes, it is an extern
      ensures BodiesAreSaad(old(globals)) ==> globals[index].kind.Extern? && BodiesAreSaad(globals)
      // the function of the program that had the name gets one that was free
      ensures var had := old(Lookup(name));
              0 <= had < |old(globals)| && old(globals)[had].isSaad ==>
                exists unique: string :: old(Lookup(unique)) < 0 && globals == Taken(old(globals), had, name, unique)
                  && functions == RenamedFunction(old(functions), old(globals)[had].func, unique)
    {
      hide IsDataName, ShapedIn, MatchIn, OnlyFunctions, TableValid;
      var existing := FindGlobal(name);
      LookupInGlobals(name);
      if existing < 0 {
        index := AddFresh(Extern, name, false);
      } else if !globals[existing].isSaad {
        index := existing;
        DataIsNamedSo(globals, index);
      } else {
        var unique;
        index, unique := TakeName(existing, name);
        assert globals[index].name == name && LookupIn(names[..], slots, globals[index].name) == index;
      }
    }

    // Gives a global its body. Names stay as they are.
    method PutBody(index: nat) returns (func: nat)
      requires Valid() && index < |globals|
      modifies this`globals, this`functions
      ensures Valid() && func == |old(functions)| && functions == old(functions) + [Func(old(globals)[index].name, index)]
      ensures globals == WithFunction(old(globals), index, func)
    {
      func := |functions|;
      functions := functions + [Func(globals[index].name, index)];
      NamesOfUpdated(globals, index, WithFunction(globals, index, func)[index]);
      assert NamesOf(globals)[index := globals[index].name] == NamesOf(globals);
      globals := WithFunction(globals, index, func);
    }

    // A body for the extern with its name, which was referred to before, or for a new global
    method AttachBody(name: string) returns (func: nat, index: nat)
      requires Good() && !IsDataName(name)
      requires 0 <= Lookup(name) < |globals| ==> globals[Lookup(name)].kind.Extern?
      modifies this`globals, this`names, this`slots, this`functions, names
      ensures Good() && (names == old(names) || fresh(names))
      ensures func == |old(functions)| && functions == old(functions) + [Func(name, index)]
      ensures old(Lookup(name)) >= 0 ==> index == old(Lookup(name)) < |old(globals)| && globals == WithFunction(old(globals), index, func)
      ensures old(Lookup(name)) < 0 ==> globals == old(globals) + [Globals.Global(Function, name, false, func)] && index == |old(globals)|
    {
      hide IsDataName, NamedIn, ShapedIn, MatchIn, OnlyFunctions, TableValid, LookupIn;
      LookupInGlobals(name);
      var existing := FindGlobal(name);
      if existing >= 0 {
        index := existing;
      } else {
        index := AddFresh(Extern, name, false);
      }
      FunctionAdded(globals, functions, index, names[..], slots);
      func := PutBody(index);
    }

    // A body whose name another function has: its global is there, but its name leads to the other one.
    method AddSecondBody(name: string) returns (func: nat, index: nat)
      requires Good() && 0 <= Lookup(name) < |globals|
      modifies this`globals, this`names, this`slots, this`functions, names
      ensures Valid() && (names == old(names) || fresh(names))
      ensures func == |old(functions)| && functions == old(functions) + [Func(name, index)]
      ensures index == |old(globals)| && globals == old(globals) + [Globals.Global(Function, name, false, func)]
      ensures LookupIn(names[..], slots, name) == old(Lookup(name))
    {
      hide NamedIn, ShapedIn, MatchIn, OnlyFunctions, TableValid, LookupIn;
      index := GlobalNew(Function, name, false);
      func := PutBody(index);
    }

    // The body of a function gets a global with its name. Afterwards every global is found by its name, if and only if the
    // name was free, or the one of an extern: this is the global that the body was queued for.
    method FunctionNew(name: string) returns (func: nat, index: nat)
      requires Good() && !IsDataName(name)
      modifies this`globals, this`names, this`slots, this`functions, names
      ensures Valid() && (names == old(names) || fresh(names))
      ensures func == |old(functions)| && functions == old(functions) + [Func(name, index)]
      ensures index < |globals| && globals[index].kind.Function? && globals[index].func == func && globals[index].name == name
      ensures NamedIn(globals, names[..], slots) <==> old(IsFreeOrExtern(name))
      ensures Good() <==> old(IsFreeOrExtern(name))
      ensures old(IsFreeOrExtern(name)) ==> old(Lookup(name)) == index || old(Lookup(name)) < 0
      ensures old(IsFreeOrExtern(name)) && old(Lookup(name)) >= 0 ==> index < |old(globals)| && globals == WithFunction(old(globals), index, func)
      ensures BodiesAreSaad(old(globals)) ==> (BodiesAreSaad(globals) <==> globals[index].isSaad)
      ensures !old(IsFreeOrExtern(name)) || old(Lookup(name)) < 0 ==>
                index == |old(globals)| && globals == old(globals) + [Globals.Global(Function, name, false, func)]
    {
      hide IsDataName, ShapedIn, MatchIn, OnlyFunctions, TableValid;
      LookupInGlobals(name);
      var existing := FindGlobal(name);
      if existing < 0 || globals[existing].kind.Extern? {
        func, index := AttachBody(name);
      } else {
        func, index := AddSecondBody(name);
        assert LookupIn(names[..], slots, globals[index].name) != index;
      }
    }

    ghost predicate IsFreeOrExtern(name: string)
      reads this, names
    {
      var i := LookupIn(names[..], slots, name);
      0 <= i < |globals| ==> globals[i].kind.Extern?
    }
  }
}
