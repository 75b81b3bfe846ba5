/** The table of the globals by name: open addressing, where a slot holds the number of a global plus one, or 0. Here it is
    a sequence; the hash can be any function. */
module NameTable {

  type Hash = string -> nat

  function Home(hash: Hash, name: string, capacity: nat): (home: nat)
    requires capacity > 0
    ensures home < capacity
  {
    hash(name) % capacity
  }

  // The slot that is looked at after k others
  function Probe(home: nat, k: nat, capacity: nat): (slot: nat)
    requires home < capacity && k < capacity
    ensures slot < capacity
  {
    if home + k < capacity then home + k else home + k - capacity
  }

  // How far a slot is from the home of a name
  function DistanceTo(home: nat, slot: nat, capacity: nat): (k: nat)
    requires home < capacity && slot < capacity
    ensures k < capacity && Probe(home, k, capacity) == slot
  {
    if home <= slot then slot - home else slot + capacity - home
  }

  lemma ProbeIsInjective(home: nat, j: nat, k: nat, capacity: nat)
    requires home < capacity && j < capacity && k < capacity && Probe(home, j, capacity) == Probe(home, k, capacity)
    ensures j == k
  {
  }

  // Every slot before the one after k others is taken.
  predicate TakenBefore(table: seq<int>, home: nat, k: nat)
    requires home < |table| && k <= |table|
  {
    forall j :: 0 <= j < k ==> table[Probe(home, j, |table|)] != 0
  }

  predicate ValidEntries(table: seq<int>, names: seq<string>) {
    forall s :: 0 <= s < |table| ==> 0 <= table[s] <= |names|
  }

  // The slots of the names: a name has one slot, which is reached from its home over slots that are taken.
  predicate Represents(table: seq<int>, hash: Hash, names: seq<string>, slots: map<string, nat>)
    requires |table| > 0
  {
    && ValidEntries(table, names)
    && (forall s :: 0 <= s < |table| && table[s] != 0 ==> names[table[s] - 1] in slots && slots[names[table[s] - 1]] == s)
    && forall name :: name in slots ==> HasSlot(table, hash, names, name, slots[name])
  }

  predicate HasSlot(table: seq<int>, hash: Hash, names: seq<string>, name: string, slot: nat)
    requires |table| > 0
  {
    && slot < |table| && 0 < table[slot] <= |names| && names[table[slot] - 1] == name
    && TakenBefore(table, Home(hash, name, |table|), DistanceTo(Home(hash, name, |table|), slot, |table|))
  }

  // ---------------------------------------------------------------------------------------
  // The search
  // ---------------------------------------------------------------------------------------

  // k slots were looked at, which have other names.
  predicate Searched(table: seq<int>, names: seq<string>, home: nat, name: string, k: nat)
    requires home < |table| && k <= |table| && ValidEntries(table, names)
  {
    forall j :: 0 <= j < k ==> table[Probe(home, j, |table|)] != 0 && names[table[Probe(home, j, |table|)] - 1] != name
  }

  lemma SearchedOneMore(table: seq<int>, names: seq<string>, home: nat, name: string, k: nat, slot: nat, d: nat)
    requires home < |table| && k <= d < |table| && ValidEntries(table, names)
    requires Searched(table, names, home, name, k) && slot == Probe(home, k, |table|) && table[slot] != 0 && names[table[slot] - 1] != name
    requires table[Probe(home, d, |table|)] == 0
    ensures k < d && Searched(table, names, home, name, k + 1)
    ensures Probe(home, k + 1, |table|) == if slot + 1 == |table| then 0 else slot + 1
  {
  }

  // Looks at one slot after another, up to the name or a free one; d is how far a free one is.
  method Search(table: array<int>, hash: Hash, names: seq<string>, name: string, ghost d: nat) returns (slot: nat, ghost k: nat)
    requires d < table.Length && ValidEntries(table[..], names)
    requires table[Probe(Home(hash, name, table.Length), d, table.Length)] == 0
    ensures k < table.Length && slot == Probe(Home(hash, name, table.Length), k, table.Length)
    ensures Searched(table[..], names, Home(hash, name, table.Length), name, k)
    ensures table[slot] == 0 || names[table[slot] - 1] == name
  {
    ghost var t := table[..];
    ghost var home := Home(hash, name, table.Length);
    k := 0;
    slot := Home(hash, name, table.Length);
    while table[slot] != 0 && names[table[slot] - 1] != name
      invariant k <= d && slot == Probe(home, k, table.Length)
      invariant Searched(t, names, home, name, k)
      decreases d - k
    {
      SearchedOneMore(t, names, home, name, k, slot, d);
      slot := if slot + 1 == table.Length then 0 else slot + 1;
      k := k + 1;
    }
  }

  // A probe that stops has found the name, or an empty slot with every slot before it occupied by another name.
  lemma SearchEnds(table: seq<int>, hash: Hash, names: seq<string>, slots: map<string, nat>, name: string, slot: nat, k: nat)
    requires |table| > 0 && Represents(table, hash, names, slots) && k < |table| && slot == Probe(Home(hash, name, |table|), k, |table|)
    requires Searched(table, names, Home(hash, name, |table|), name, k)
    requires table[slot] == 0 || names[table[slot] - 1] == name
    ensures table[slot] == 0 <==> name !in slots
    ensures table[slot] != 0 ==> slots[name] == slot
    ensures TakenBefore(table, Home(hash, name, |table|), DistanceTo(Home(hash, name, |table|), slot, |table|))
  {
    var home := Home(hash, name, |table|);
    ProbeIsInjective(home, k, DistanceTo(home, slot, |table|), |table|);
    if table[slot] == 0 {
      PresentIsNotAfter(table, hash, names, slots, name, k);
    }
  }

  // A name is not behind a free slot.
  lemma PresentIsNotAfter(table: seq<int>, hash: Hash, names: seq<string>, slots: map<string, nat>, name: string, k: nat)
    requires |table| > 0 && Represents(table, hash, names, slots) && k < |table|
    requires table[Probe(Home(hash, name, |table|), k, |table|)] == 0
    requires Searched(table, names, Home(hash, name, |table|), name, k)
    ensures name !in slots
  {
    if name in slots {
      assert false;
    }
  }

  function Used(table: seq<int>): nat
    decreases |table|
  {
    if |table| == 0 then 0 else Used(table[..|table| - 1]) + if table[|table| - 1] != 0 then 1 else 0
  }

  lemma {:induction false} FreeSlotExists(table: seq<int>) returns (slot: nat)
    requires Used(table) < |table|
    ensures slot < |table| && table[slot] == 0
    decreases |table|
  {
    var n := |table| - 1;
    if table[n] == 0 {
      slot := n;
    } else {
      slot := FreeSlotExists(table[..n]);
    }
  }

  // The search ends, as not every slot is taken.
  method FindSlot(table: array<int>, hash: Hash, names: seq<string>, ghost slots: map<string, nat>, name: string) returns (slot: nat)
    requires table.Length > 0 && Represents(table[..], hash, names, slots) && Used(table[..]) < table.Length
    ensures slot < table.Length
    ensures table[slot] == 0 <==> name !in slots
    ensures table[slot] != 0 ==> slots[name] == slot
    ensures TakenBefore(table[..], Home(hash, name, table.Length), DistanceTo(Home(hash, name, table.Length), slot, table.Length))
  {
    ghost var free := FreeSlotExists(table[..]);
    ghost var k;
    slot, k := Search(table, hash, names, name, DistanceTo(Home(hash, name, table.Length), free, table.Length));
    SearchEnds(table[..], hash, names, slots, name, slot, k);
  }

  // ---------------------------------------------------------------------------------------
  // Changes of the table
  // ---------------------------------------------------------------------------------------

  lemma StillTakenBefore(table: seq<int>, home: nat, k: nat, slot: nat, entry: int)
    requires home < |table| && k <= |table| && slot < |table| && entry != 0 && TakenBefore(table, home, k)
    ensures TakenBefore(table[slot := entry], home, k)
  {
  }

  // Putting a global in the slot of its name: a free one, or the one of the global that had the name
  lemma Entered(table: seq<int>, hash: Hash, names: seq<string>, slots: map<string, nat>, slot: nat, index: nat)
    requires |table| > 0 && slot < |table| && index < |names| && Represents(table, hash, names, slots)
    requires table[slot] == 0 <==> names[index] !in slots
    requires table[slot] != 0 ==> slots[names[index]] == slot
    requires TakenBefore(table, Home(hash, names[index], |table|), DistanceTo(Home(hash, names[index], |table|), slot, |table|))
    ensures Represents(table[slot := index + 1], hash, names, slots[names[index] := slot])
  {
    var changed, slots' := table[slot := index + 1], slots[names[index] := slot];
    forall name | name in slots'
      ensures HasSlot(changed, hash, names, name, slots'[name])
    {
      StillTakenBefore(table, Home(hash, name, |table|), DistanceTo(Home(hash, name, |table|), slots'[name], |table|), slot, index + 1);
      if name != names[index] {
        assert HasSlot(table, hash, names, name, slots[name]);
      }
    }
  }

  // A global that no slot holds can get another name.
  lemma Renamed(table: seq<int>, hash: Hash, names: seq<string>, slots: map<string, nat>, index: nat, name: string)
    requires |table| > 0 && index < |names| && Represents(table, hash, names, slots)
    requires forall s :: 0 <= s < |table| ==> table[s] != index + 1
    ensures Represents(table, hash, names[index := name], slots)
  {
    forall other | other in slots
      ensures HasSlot(table, hash, names[index := name], other, slots[other])
    {
      assert HasSlot(table, hash, names, other, slots[other]);
    }
  }

  // A global more, that no slot holds yet
  lemma Appended(table: seq<int>, hash: Hash, names: seq<string>, slots: map<string, nat>, name: string)
    requires |table| > 0 && Represents(table, hash, names, slots)
    ensures Represents(table, hash, names + [name], slots)
  {
    forall other | other in slots
      ensures HasSlot(table, hash, names + [name], other, slots[other])
    {
      assert HasSlot(table, hash, names, other, slots[other]);
    }
  }

  lemma {:induction false} UsedAfter(table: seq<int>, slot: nat, entry: int)
    requires slot < |table| && entry != 0
    ensures Used(table[slot := entry]) == Used(table) + if table[slot] == 0 then 1 else 0
    decreases |table|
  {
    var n := |table| - 1;
    var changed := table[slot := entry];
    if slot < n {
      UsedAfter(table[..n], slot, entry);
      assert changed[..n] == table[..n][slot := entry];
    } else {
      assert changed[..n] == table[..n];
    }
  }

  lemma {:induction false} UsedOfZeros(table: seq<int>)
    requires forall s :: 0 <= s < |table| ==> table[s] == 0
    ensures Used(table) == 0
    decreases |table|
  {
    if |table| > 0 {
      UsedOfZeros(table[..|table| - 1]);
    }
  }

  lemma SizeAfter(slots: map<string, nat>, name: string, slot: nat)
    ensures |slots[name := slot]| == |slots| + if name in slots then 0 else 1
  {
    var slots' := slots[name := slot];
    if name in slots {
      assert slots'.Keys == slots.Keys;
    } else {
      assert slots'.Keys == slots.Keys + {name};
    }
    assert |slots| == |slots.Keys| && |slots'| == |slots'.Keys|;
  }
}
