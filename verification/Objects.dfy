/** Objects in memory, as the assembler makes them and as reading a file makes them: the bytes of the sections, the
    symbols, and the relocations with what a linker puts in their fields. */
module Objects {
  import opened LittleEndians

  // Bytes are numbers from 0 up to 255.
  type Sections = seq<seq<int>>

  type Name = seq<int>

  // section is -1 for a symbol that is not defined here.
  datatype Symbol = Symbol(name: Name, section: int, offset: nat, isGlobal: bool, isExtern: bool) {
    predicate IsExternal() {
      isGlobal || isExtern
    }
  }

  datatype RelocKind = Rel32 | Abs64 | Rva32 | SecRel32

  // trailing: how far the end of the field is from the end of its instruction
  datatype Reloc = Reloc(section: nat, offset: nat, kind: RelocKind, symbol: nat, addend: int, trailing: int) {
    function Size(): (size: nat)
      ensures size > 0
    {
      if kind.Abs64? then 8 else 4
    }

    predicate Covers(s: nat, k: nat) {
      section == s && offset <= k < offset + Size()
    }

    predicate FitsIn(sections: Sections) {
      section < |sections| && offset + Size() <= |sections[section]|
    }
  }

  datatype Object = Object(sections: Sections, symbols: seq<Symbol>, relocs: seq<Reloc>)

  // Where the sections, the externs and the program itself are
  datatype Layout = Layout(base: nat -> int, extern: Name -> int, image: int)

  // ---------------------------------------------------------------------------------------
  // Fields
  // ---------------------------------------------------------------------------------------

  predicate SameShape(a: Sections, b: Sections) {
    |a| == |b| && forall s :: 0 <= s < |a| ==> |a[s]| == |b[s]|
  }

  function FieldOf(sections: Sections, r: Reloc): (bytes: seq<int>)
    requires r.FitsIn(sections)
    ensures |bytes| == r.Size()
  {
    sections[r.section][r.offset..r.offset + r.Size()]
  }

  predicate Holds(sections: Sections, r: Reloc, value: int) {
    r.FitsIn(sections) && FieldOf(sections, r) == LittleEndian(value, r.Size())
  }

  function Put(sections: Sections, r: Reloc, value: int): (patched: Sections)
    requires r.FitsIn(sections)
    ensures SameShape(sections, patched)
    ensures Holds(patched, r, value)
    ensures forall s: nat, k: nat :: s < |sections| && k < |sections[s]| && !r.Covers(s, k) ==> patched[s][k] == sections[s][k]
  {
    var data := sections[r.section];
    var field := LittleEndian(value, r.Size());
    var after := data[..r.offset] + field + data[r.offset + r.Size()..];
    assert |after| == |data| && after[r.offset..r.offset + r.Size()] == field;
    sections[r.section := after]
  }

  predicate Apart(r: Reloc, q: Reloc) {
    r.section != q.section || r.offset + r.Size() <= q.offset || q.offset + q.Size() <= r.offset
  }

  lemma StillHolds(sections: Sections, r: Reloc, value: int, q: Reloc, v: int)
    requires r.FitsIn(sections) && Apart(r, q) && Holds(sections, q, v)
    ensures Holds(Put(sections, r, value), q, v)
  {
    var patched := Put(sections, r, value);
    forall k | q.offset <= k < q.offset + q.Size()
      ensures patched[q.section][k] == sections[q.section][k]
    {
      assert !r.Covers(q.section, k);
    }
    assert FieldOf(patched, q) == FieldOf(sections, q);
  }

  // The fields are in their sections and do not overlap, and the symbols are there.
  predicate ValidFields(obj: Object) {
    && (forall i :: 0 <= i < |obj.relocs| ==> obj.relocs[i].FitsIn(obj.sections) && obj.relocs[i].symbol < |obj.symbols|)
    && forall i, j :: 0 <= i < j < |obj.relocs| ==> Apart(obj.relocs[i], obj.relocs[j])
  }

  predicate InNoField(relocs: seq<Reloc>, s: nat, k: nat) {
    forall i :: 0 <= i < |relocs| ==> !relocs[i].Covers(s, k)
  }

  lemma OneField(obj: Object, i: nat, j: nat, s: nat, k: nat)
    requires ValidFields(obj) && i < |obj.relocs| && j < |obj.relocs|
    requires obj.relocs[i].Covers(s, k) && obj.relocs[j].Covers(s, k)
    ensures i == j
  {
    assert i < j ==> Apart(obj.relocs[i], obj.relocs[j]);
    assert j < i ==> Apart(obj.relocs[j], obj.relocs[i]);
  }

  // The same bytes outside of the fields
  predicate AgreeOutside(relocs: seq<Reloc>, a: Sections, b: Sections) {
    && SameShape(a, b)
    && forall s: nat, k: nat {:trigger InNoField(relocs, s, k)} :: s < |a| && k < |a[s]| && InNoField(relocs, s, k) ==> a[s][k] == b[s][k]
  }

  lemma PutAgrees(relocs: seq<Reloc>, a: Sections, b: Sections, i: nat, value: int)
    requires AgreeOutside(relocs, a, b) && i < |relocs| && relocs[i].FitsIn(b)
    ensures AgreeOutside(relocs, a, Put(b, relocs[i], value))
  {
  }

  // ---------------------------------------------------------------------------------------
  // Linking
  // ---------------------------------------------------------------------------------------

  function AddressOf(obj: Object, at: Layout, symbol: nat): int
    requires symbol < |obj.symbols|
  {
    var s := obj.symbols[symbol];
    if s.section >= 0 then at.base(s.section) + s.offset else at.extern(s.name)
  }

  // What the field of a relocation gets
  function Value(obj: Object, at: Layout, r: Reloc): int
    requires r.symbol < |obj.symbols|
  {
    var s := AddressOf(obj, at, r.symbol);
    match r.kind
    case Rel32 => s + r.addend - (at.base(r.section) + r.offset + 4 + r.trailing)
    case Abs64 => s + r.addend
    case Rva32 => s + r.addend - at.image
    case SecRel32 => obj.symbols[r.symbol].offset + r.addend
  }

  function LinkUpTo(obj: Object, at: Layout, n: nat): (linked: Sections)
    requires ValidFields(obj) && n <= |obj.relocs|
    ensures SameShape(obj.sections, linked)
    decreases n
  {
    if n == 0 then obj.sections
    else Put(LinkUpTo(obj, at, n - 1), obj.relocs[n - 1], Value(obj, at, obj.relocs[n - 1]))
  }

  // The sections of the program
  function Link(obj: Object, at: Layout): Sections
    requires ValidFields(obj)
  {
    LinkUpTo(obj, at, |obj.relocs|)
  }

  lemma {:induction false} LinkedHolds(obj: Object, at: Layout, n: nat, i: nat)
    requires ValidFields(obj) && i < n <= |obj.relocs|
    ensures Holds(LinkUpTo(obj, at, n), obj.relocs[i], Value(obj, at, obj.relocs[i]))
    decreases n
  {
    if i < n - 1 {
      LinkedHolds(obj, at, n - 1, i);
      var last := obj.relocs[n - 1];
      assert Apart(obj.relocs[i], last);
      StillHolds(LinkUpTo(obj, at, n - 1), last, Value(obj, at, last), obj.relocs[i], Value(obj, at, obj.relocs[i]));
    }
  }

  // A field that no relocation touches keeps what it holds.
  lemma {:induction false} UntouchedHolds(obj: Object, at: Layout, n: nat, r: Reloc, value: int)
    requires ValidFields(obj) && n <= |obj.relocs| && Holds(obj.sections, r, value)
    requires forall j :: 0 <= j < |obj.relocs| ==> Apart(obj.relocs[j], r)
    ensures Holds(LinkUpTo(obj, at, n), r, value)
    decreases n
  {
    if n > 0 {
      UntouchedHolds(obj, at, n - 1, r, value);
      var last := obj.relocs[n - 1];
      assert Apart(last, r);
      StillHolds(LinkUpTo(obj, at, n - 1), last, Value(obj, at, last), r, value);
    }
  }

  lemma {:induction false} LinkedAgrees(obj: Object, at: Layout, n: nat)
    requires ValidFields(obj) && n <= |obj.relocs|
    ensures AgreeOutside(obj.relocs, obj.sections, LinkUpTo(obj, at, n))
    decreases n
  {
    if n > 0 {
      LinkedAgrees(obj, at, n - 1);
      PutAgrees(obj.relocs, obj.sections, LinkUpTo(obj, at, n - 1), n - 1, Value(obj, at, obj.relocs[n - 1]));
    }
  }

  // The program's bytes, by linking as the writer of programs does: with addresses relative to the program, which the
  // absolute fields add to where the program is
  method PutFields(obj: Object, at: Layout, rva: nat -> int) returns (linked: Sections)
    requires ValidFields(obj)
    requires forall i: nat :: i < |obj.symbols| ==> rva(i) == AddressOf(obj, at, i) - at.image
    ensures linked == Link(obj, at)
  {
    linked := obj.sections;
    for n := 0 to |obj.relocs|
      invariant SameShape(obj.sections, linked) && linked == LinkUpTo(obj, at, n)
    {
      var r := obj.relocs[n];
      assert r.FitsIn(linked);
      var target := rva(r.symbol) + r.addend;
      match r.kind {
        case Abs64 => linked := Put(linked, r, at.image + target);
        case Rva32 => linked := Put(linked, r, target);
        case SecRel32 => linked := Put(linked, r, obj.symbols[r.symbol].offset + r.addend);
        case Rel32 =>
          var place := at.base(r.section) - at.image + r.offset + 4 + r.trailing;
          linked := Put(linked, r, target - place);
      }
    }
  }

  // ---------------------------------------------------------------------------------------
  // When two objects give the same program
  // ---------------------------------------------------------------------------------------

  // The field of one relocation, with a value that is the same in the field
  predicate Replaces(read: Object, r: Reloc, obj: Object, q: Reloc, at: Layout)
    requires r.symbol < |read.symbols| && q.symbol < |obj.symbols|
  {
    && r.section == q.section && r.offset == q.offset && r.Size() == q.Size()
    && LittleEndian(Value(read, at, r), r.Size()) == LittleEndian(Value(obj, at, q), r.Size())
  }

  // order[j] is the relocation of obj that relocation j of read stands for; the other ones have their values.
  ghost predicate StandsFor(read: Object, obj: Object, order: seq<nat>, at: Layout)
    requires ValidFields(read) && ValidFields(obj)
  {
    && AgreeOutside(obj.relocs, obj.sections, read.sections)
    && |order| == |read.relocs|
    && (forall j :: 0 <= j < |order| ==> order[j] < |obj.relocs| && Replaces(read, read.relocs[j], obj, obj.relocs[order[j]], at))
    && forall i: nat :: i < |obj.relocs| && i !in order ==> Holds(read.sections, obj.relocs[i], Value(obj, at, obj.relocs[i]))
  }

  lemma ReadFieldByte(read: Object, obj: Object, order: seq<nat>, at: Layout, j: nat, k: nat)
    requires ValidFields(read) && ValidFields(obj) && StandsFor(read, obj, order, at)
    requires j < |order| && k < read.relocs[j].Size()
    ensures var r := read.relocs[j];
            r.section < |Link(read, at)| == |Link(obj, at)| &&
            r.offset + k < |Link(read, at)[r.section]| == |Link(obj, at)[r.section]| &&
            Link(read, at)[r.section][r.offset + k] == Link(obj, at)[r.section][r.offset + k]
  {
    var r, q := read.relocs[j], obj.relocs[order[j]];
    LinkedHolds(read, at, |read.relocs|, j);
    LinkedHolds(obj, at, |obj.relocs|, order[j]);
    assert Replaces(read, r, obj, q, at);
    assert FieldOf(Link(read, at), r)[k] == FieldOf(Link(obj, at), q)[k];
  }

  lemma KeptFieldByte(read: Object, obj: Object, order: seq<nat>, at: Layout, i: nat, k: nat)
    requires ValidFields(read) && ValidFields(obj) && StandsFor(read, obj, order, at)
    requires i < |obj.relocs| && i !in order && k < obj.relocs[i].Size()
    ensures var r := obj.relocs[i];
            r.section < |Link(read, at)| == |Link(obj, at)| &&
            r.offset + k < |Link(read, at)[r.section]| == |Link(obj, at)[r.section]| &&
            Link(read, at)[r.section][r.offset + k] == Link(obj, at)[r.section][r.offset + k]
  {
    var r := obj.relocs[i];
    LinkedHolds(obj, at, |obj.relocs|, i);
    LinkedAgrees(read, at, |read.relocs|);
    assert Holds(read.sections, r, Value(obj, at, r));
    forall j | 0 <= j < |read.relocs|
      ensures !read.relocs[j].Covers(r.section, r.offset + k)
    {
      assert Replaces(read, read.relocs[j], obj, obj.relocs[order[j]], at);
      if obj.relocs[order[j]].Covers(r.section, r.offset + k) {
        OneField(obj, i, order[j], r.section, r.offset + k);
      }
    }
    assert InNoField(read.relocs, r.section, r.offset + k);
    assert FieldOf(Link(obj, at), r)[k] == FieldOf(read.sections, r)[k];
  }

  lemma PlainByte(read: Object, obj: Object, order: seq<nat>, at: Layout, s: nat, k: nat)
    requires ValidFields(read) && ValidFields(obj) && StandsFor(read, obj, order, at)
    requires s < |obj.sections| && k < |obj.sections[s]| && InNoField(obj.relocs, s, k)
    ensures s < |Link(read, at)| == |Link(obj, at)| && k < |Link(read, at)[s]| == |Link(obj, at)[s]|
    ensures Link(read, at)[s][k] == Link(obj, at)[s][k]
  {
    LinkedAgrees(obj, at, |obj.relocs|);
    LinkedAgrees(read, at, |read.relocs|);
    forall j | 0 <= j < |read.relocs|
      ensures !read.relocs[j].Covers(s, k)
    {
      assert Replaces(read, read.relocs[j], obj, obj.relocs[order[j]], at);
    }
    assert InNoField(read.relocs, s, k);
  }

  lemma FieldByte(read: Object, obj: Object, order: seq<nat>, at: Layout, i: nat, s: nat, k: nat)
    requires ValidFields(read) && ValidFields(obj) && StandsFor(read, obj, order, at)
    requires i < |obj.relocs| && obj.relocs[i].Covers(s, k)
    ensures s < |Link(read, at)| == |Link(obj, at)| && k < |Link(read, at)[s]| == |Link(obj, at)[s]|
    ensures Link(read, at)[s][k] == Link(obj, at)[s][k]
  {
    if i in order {
      var j: nat :| j < |order| && order[j] == i;
      assert Replaces(read, read.relocs[j], obj, obj.relocs[i], at);
      ReadFieldByte(read, obj, order, at, j, k - read.relocs[j].offset);
    } else {
      KeptFieldByte(read, obj, order, at, i, k - obj.relocs[i].offset);
    }
  }

  lemma SameByte(read: Object, obj: Object, order: seq<nat>, at: Layout, s: nat, k: nat)
    requires ValidFields(read) && ValidFields(obj) && StandsFor(read, obj, order, at)
    requires s < |obj.sections| && k < |obj.sections[s]|
    ensures s < |Link(read, at)| == |Link(obj, at)| && k < |Link(read, at)[s]| == |Link(obj, at)[s]|
    ensures Link(read, at)[s][k] == Link(obj, at)[s][k]
  {
    if InNoField(obj.relocs, s, k) {
      PlainByte(read, obj, order, at, s, k);
    } else {
      var i: nat :| i < |obj.relocs| && obj.relocs[i].Covers(s, k);
      FieldByte(read, obj, order, at, i, s, k);
    }
  }

  // Then linking gives the same bytes.
  lemma SameProgram(read: Object, obj: Object, order: seq<nat>, at: Layout)
    requires ValidFields(read) && ValidFields(obj) && StandsFor(read, obj, order, at)
    ensures Link(read, at) == Link(obj, at)
  {
    var a, b := Link(read, at), Link(obj, at);
    forall s: nat | s < |b|
      ensures s < |a| && a[s] == b[s]
    {
      forall k: nat | k < |b[s]|
        ensures s < |a| && k < |a[s]| && a[s][k] == b[s][k]
      {
        SameByte(read, obj, order, at, s, k);
      }
    }
  }
}
