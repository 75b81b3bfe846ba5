/** The globals of a module: making them, finding them by name, and giving a name from a function of the program to a
    function of C. */
module Globals {
  import opened NameTable

  datatype Kind = Data | Function | Extern

  // func is the number of the function of a global, or -1.
  datatype Global = Global(kind: Kind, name: string, isSaad: bool, func: int)

  datatype Func = Func(name: string, global: nat)

  const INITIAL_CAPACITY := 256

  function NamesOf(globals: seq<Global>): (names: seq<string>)
    ensures |names| == |globals| && forall i {:trigger names[i]} :: 0 <= i < |globals| ==> names[i] == globals[i].name
  {
    seq(|globals|, (i: nat) => if i < |globals| then globals[i].name else "")
  }

  lemma NamesOfAppended(globals: seq<Global>, g: Global)
    ensures NamesOf(globals + [g]) == NamesOf(globals) + [g.name]
  {
  }

  lemma NamesOfUpdated(globals: seq<Global>, i: nat, g: Global)
    requires i < |globals|
    ensures NamesOf(globals[i := g]) == NamesOf(globals)[i := g.name]
  {
  }

  // ---------------------------------------------------------------------------------------
  // Growing
  // ---------------------------------------------------------------------------------------

  // The names in the first n slots of a table, with the same globals
  predicate CopiedUpTo(before: seq<int>, slots: map<string, nat>, table: seq<int>, copied: map<string, nat>, n: nat) {
    && (forall name :: name in copied ==> name in slots && slots[name] < n)
    && (forall name :: name in slots && slots[name] < n ==> name in copied)
    && forall name :: name in copied ==> SameEntry(before, slots, table, copied, name)
  }

  predicate SameEntry(before: seq<int>, slots: map<string, nat>, table: seq<int>, copied: map<string, nat>, name: string)
    requires name in slots && name in copied
  {
    slots[name] < |before| && copied[name] < |table| && table[copied[name]] == before[slots[name]]
  }

  // A table with its free slots
  predicate HasRoom(table: seq<int>, hash: Hash, names: seq<string>, slots: map<string, nat>) {
    |table| > 0 && Represents(table, hash, names, slots) && Used(table) == |slots| < |table|
  }

  // Puts a global in the slot of its name
  method Enter(table: array<int>, hash: Hash, names: seq<string>, ghost slots: map<string, nat>, index: nat) returns (slot: nat)
    requires index < |names| && HasRoom(table[..], hash, names, slots)
    modifies table
    ensures slot < table.Length && table[..] == old(table[..])[slot := index + 1]
    ensures names[index] in slots ==> slot == slots[names[index]]
    ensures names[index] !in slots ==> old(table[slot]) == 0
    ensures Represents(table[..], hash, names, slots[names[index] := slot])
    ensures Used(table[..]) == |slots[names[index] := slot]| == |slots| + if names[index] in slots then 0 else 1
  {
    slot := FindSlot(table, hash, names, slots, names[index]);
    ghost var t := table[..];
    Entered(t, hash, names, slots, slot, index);
    UsedAfter(t, slot, index + 1);
    SizeAfter(slots, names[index], slot);
    table[slot] := index + 1;
    assert table[..] == t[slot := index + 1];
  }

  lemma EntryIsNew(before: seq<int>, hash: Hash, names: seq<string>, slots: map<string, nat>, table: seq<int>, copied: map<string, nat>, n: nat)
    requires |before| > 0 && Represents(before, hash, names, slots) && n < |before| && before[n] != 0
    requires CopiedUpTo(before, slots, table, copied, n)
    ensures names[before[n] - 1] in slots && slots[names[before[n] - 1]] == n && names[before[n] - 1] !in copied
  {
  }

  lemma CopiedOneMore(before: seq<int>, hash: Hash, names: seq<string>, slots: map<string, nat>, table: seq<int>, copied: map<string, nat>, n: nat,
                      slot: nat)
    requires |before| > 0 && Represents(before, hash, names, slots) && n < |before| && before[n] != 0
    requires CopiedUpTo(before, slots, table, copied, n) && slot < |table| && table[slot] == 0
    requires forall name :: name in copied ==> copied[name] < |table| && table[copied[name]] != 0
    ensures CopiedUpTo(before, slots, table[slot := before[n]], copied[names[before[n] - 1] := slot], n + 1)
  {
    var name := names[before[n] - 1];
    EntryIsNew(before, hash, names, slots, table, copied, n);
    forall other | other in slots && slots[other] < n + 1
      ensures other in copied[name := slot]
    {
      assert HasSlot(before, hash, names, other, slots[other]);
    }
    forall other | other in copied[name := slot]
      ensures other in slots && slots[other] < n + 1
      ensures SameEntry(before, slots, table[slot := before[n]], copied[name := slot], other)
    {
      if other != name {
        assert SameEntry(before, slots, table, copied, other);
      }
    }
  }

  lemma FreeSlotIsSkipped(before: seq<int>, hash: Hash, names: seq<string>, slots: map<string, nat>, table: seq<int>, copied: map<string, nat>, n: nat)
    requires |before| > 0 && Represents(before, hash, names, slots) && n < |before| && before[n] == 0
    requires CopiedUpTo(before, slots, table, copied, n)
    ensures CopiedUpTo(before, slots, table, copied, n + 1)
  {
    forall other | other in slots && slots[other] < n + 1
      ensures other in copied
    {
      assert HasSlot(before, hash, names, other, slots[other]);
    }
  }

  lemma TakenSlots(table: seq<int>, hash: Hash, names: seq<string>, slots: map<string, nat>)
    requires |table| > 0 && Represents(table, hash, names, slots)
    ensures forall name :: name in slots ==> slots[name] < |table| && table[slots[name]] != 0
  {
    forall name | name in slots
      ensures slots[name] < |table| && table[slots[name]] != 0
    {
      assert HasSlot(table, hash, names, name, slots[name]);
    }
  }

  // Enters the global of slot n
  method EnterCopy(table: array<int>, hash: Hash, names: seq<string>, ghost copied: map<string, nat>, before: seq<int>,
                   ghost slots: map<string, nat>, n: nat)
    returns (ghost more: map<string, nat>)
    requires HasRoom(table[..], hash, names, copied) && |copied| + 1 < table.Length
    requires n < |before| && 0 < before[n] <= |names| && names[before[n] - 1] !in copied
    requires forall slot: nat :: slot < table.Length && table[slot] == 0 ==>
               CopiedUpTo(before, slots, table[..][slot := before[n]], copied[names[before[n] - 1] := slot], n + 1)
    modifies table
    ensures HasRoom(table[..], hash, names, more) && |more| == |copied| + 1 && CopiedUpTo(before, slots, table[..], more, n + 1)
  {
    hide CopiedUpTo, Represents;
    var slot := Enter(table, hash, names, copied, before[n] - 1);
    more := copied[names[before[n] - 1] := slot];
  }

  // Puts the name of slot n in again
  method CopyTaken(before: seq<int>, hash: Hash, names: seq<string>, ghost slots: map<string, nat>, table: array<int>,
                   ghost copied: map<string, nat>, n: nat)
    returns (ghost more: map<string, nat>)
    requires |before| > 0 && Represents(before, hash, names, slots) && n < |before| < table.Length && before[n] != 0
    requires HasRoom(table[..], hash, names, copied) && |copied| <= n && CopiedUpTo(before, slots, table[..], copied, n)
    modifies table
    ensures HasRoom(table[..], hash, names, more) && |more| <= n + 1 && CopiedUpTo(before, slots, table[..], more, n + 1)
  {
    ghost var t := table[..];
    EntryIsNew(before, hash, names, slots, t, copied, n);
    TakenSlots(t, hash, names, copied);
    forall slot: nat | slot < table.Length && table[slot] == 0
      ensures CopiedUpTo(before, slots, t[slot := before[n]], copied[names[before[n] - 1] := slot], n + 1)
    {
      CopiedOneMore(before, hash, names, slots, t, copied, n, slot);
    }
    more := EnterCopy(table, hash, names, copied, before, slots, n);
  }

  method CopySlot(before: seq<int>, hash: Hash, names: seq<string>, ghost slots: map<string, nat>, table: array<int>,
                  ghost copied: map<string, nat>, n: nat)
    returns (ghost more: map<string, nat>)
    requires |before| > 0 && Represents(before, hash, names, slots) && n < |before| < table.Length
    requires HasRoom(table[..], hash, names, copied) && |copied| <= n && CopiedUpTo(before, slots, table[..], copied, n)
    modifies table
    ensures HasRoom(table[..], hash, names, more) && |more| <= n + 1 && CopiedUpTo(before, slots, table[..], more, n + 1)
  {
    if before[n] != 0 {
      more := CopyTaken(before, hash, names, slots, table, copied, n);
    } else {
      FreeSlotIsSkipped(before, hash, names, slots, table[..], copied, n);
      more := copied;
    }
  }

  // A table with all the names again, in more slots
  method Rehash(before: seq<int>, hash: Hash, names: seq<string>, ghost slots: map<string, nat>, capacity: nat)
    returns (table: array<int>, ghost copied: map<string, nat>)
    requires |before| > 0 && Represents(before, hash, names, slots) && |before| < capacity
    ensures fresh(table) && table.Length == capacity && HasRoom(table[..], hash, names, copied)
    ensures copied.Keys == slots.Keys && CopiedUpTo(before, slots, table[..], copied, |before|)
  {
    table := new int[capacity](_ => 0);
    UsedOfZeros(table[..]);
    copied := map[];
    var n := 0;
    while n < |before|
      invariant n <= |before| && HasRoom(table[..], hash, names, copied) && |copied| <= n
      invariant CopiedUpTo(before, slots, table[..], copied, n)
    {
      copied := CopySlot(before, hash, names, slots, table, copied, n);
      n := n + 1;
    }
    forall name | name in slots
      ensures name in copied
    {
      assert HasSlot(before, hash, names, name, slots[name]);
    }
  }
}
