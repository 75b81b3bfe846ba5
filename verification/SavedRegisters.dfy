/** Saving registers in the frame and loading them again: what is in between can use them. */
module SavedRegisters {
  import opened Frame
  import opened Moves

  // What the prologue saves, for the first n registers; of an xmm register, the 64 bits that the machine has
  function SaveCode(used: seq<bool>, frame: FrameLayout, n: nat): seq<Instr>
    requires n <= |used| == |frame.savedOffset|
    decreases n
  {
    if n == 0 then [] else SaveCode(used, frame, n - 1) + if used[n - 1] then [Store(RBP, frame.savedOffset[n - 1], n - 1)] else []
  }

  function RestoreCode(used: seq<bool>, frame: FrameLayout, n: nat): seq<Instr>
    requires n <= |used| == |frame.savedOffset|
    decreases n
  {
    if n == 0 then [] else RestoreCode(used, frame, n - 1) + if used[n - 1] then [Load(n - 1, RBP, frame.savedOffset[n - 1])] else []
  }

  method EmitSaves(used: seq<bool>, frame: FrameLayout) returns (code: seq<Instr>)
    requires |used| == |frame.savedOffset|
    ensures code == SaveCode(used, frame, |used|)
  {
    code := [];
    for r := 0 to |used|
      invariant code == SaveCode(used, frame, r)
    {
      if used[r] { code := code + [Store(RBP, frame.savedOffset[r], r)]; }
    }
  }

  method EmitRestores(used: seq<bool>, frame: FrameLayout) returns (code: seq<Instr>)
    requires |used| == |frame.savedOffset|
    ensures code == RestoreCode(used, frame, |used|)
  {
    code := [];
    for r := 0 to |used|
      invariant code == RestoreCode(used, frame, r)
    {
      if used[r] { code := code + [Load(r, RBP, frame.savedOffset[r])]; }
    }
  }

  ghost predicate CellsApart(used: seq<bool>, frame: FrameLayout) {
    && |used| == |frame.savedOffset|
    && forall r: nat, q: nat :: r < |used| && q < |used| && r != q && used[r] && used[q] ==>
         frame.savedOffset[r] + 8 <= frame.savedOffset[q] || frame.savedOffset[q] + 8 <= frame.savedOffset[r]
  }

  // The cell of a saved register
  function SavedCell(m: Machine, frame: FrameLayout, r: nat): Word
    requires r < |frame.savedOffset|
  {
    ReadWord(m.mem, m.rbp + frame.savedOffset[r])
  }

  lemma StoreKeepsCell(m: Machine, at: int, value: Word, cell: int)
    requires at + 8 <= cell || cell + 8 <= at
    ensures ReadWord(SetMem(m, at, value).mem, cell) == ReadWord(m.mem, cell)
  {
  }

  lemma LastInstr(code: seq<Instr>, last: Instr, m: Machine)
    ensures Exec(code + [last], m) == Step(Exec(code, m), last)
  {
    ExecAppend(code, [last], m);
    assert [last][..0] == [];
  }

  // The first n registers are in their cells.
  ghost predicate AreSaved(used: seq<bool>, frame: FrameLayout, n: nat, before: Machine, m: Machine)
    requires n <= |used| == |frame.savedOffset|
  {
    && m.regs == before.regs && m.rbp == before.rbp && m.rsp == before.rsp
    && forall r: nat :: r < n && used[r] ==> SavedCell(m, frame, r) == before.regs(r)
  }

  lemma OneMoreSaved(used: seq<bool>, frame: FrameLayout, n: nat, before: Machine, m: Machine)
    requires |used| == |frame.savedOffset| && CellsApart(used, frame) && n < |used| && used[n] && AreSaved(used, frame, n, before, m)
    ensures AreSaved(used, frame, n + 1, before, Step(m, Store(RBP, frame.savedOffset[n], n)))
  {
    hide ReadWord, SetMem;
    var at, stored := m.rbp + frame.savedOffset[n], Step(m, Store(RBP, frame.savedOffset[n], n));
    StoredIs(m, frame.savedOffset[n], n);
    forall r: nat | r < n + 1 && used[r]
      ensures SavedCell(stored, frame, r) == before.regs(r)
    {
      if r < n {
        StoreKeepsCell(m, at, m.regs(n), m.rbp + frame.savedOffset[r]);
        assert SavedCell(m, frame, r) == before.regs(r);
      } else {
        StoredWord(m, at, m.regs(n));
      }
    }
  }

  lemma StoredIs(m: Machine, offset: int, reg: nat)
    ensures Step(m, Store(RBP, offset, reg)) == SetMem(m, m.rbp + offset, m.regs(reg))
    ensures SetMem(m, m.rbp + offset, m.regs(reg)).regs == m.regs
    ensures SetMem(m, m.rbp + offset, m.regs(reg)).rbp == m.rbp && SetMem(m, m.rbp + offset, m.regs(reg)).rsp == m.rsp
  {
  }

  lemma SavesMore(used: seq<bool>, frame: FrameLayout, n: nat, m: Machine)
    requires |used| == |frame.savedOffset| && CellsApart(used, frame) && n < |used|
    requires AreSaved(used, frame, n, m, Exec(SaveCode(used, frame, n), m))
    ensures AreSaved(used, frame, n + 1, m, Exec(SaveCode(used, frame, n + 1), m))
  {
    hide Step, SavedCell, Exec, CellsApart;
    var code := SaveCode(used, frame, n);
    if used[n] {
      LastInstr(code, Store(RBP, frame.savedOffset[n], n), m);
      OneMoreSaved(used, frame, n, m, Exec(code, m));
    } else {
      assert code + [] == code;
    }
  }

  lemma {:induction false} SavesRun(used: seq<bool>, frame: FrameLayout, n: nat, m: Machine)
    requires |used| == |frame.savedOffset| && CellsApart(used, frame) && n <= |used|
    ensures AreSaved(used, frame, n, m, Exec(SaveCode(used, frame, n), m))
    decreases n
  {
    if n > 0 {
      SavesRun(used, frame, n - 1, m);
      SavesMore(used, frame, n - 1, m);
    }
  }

  ghost predicate AreRestored(used: seq<bool>, frame: FrameLayout, n: nat, before: Machine, m: Machine)
    requires n <= |used| == |frame.savedOffset|
  {
    && m.mem == before.mem && m.rbp == before.rbp && m.rsp == before.rsp
    && forall r: nat :: m.regs(r) == if r < n && used[r] then SavedCell(before, frame, r) else before.regs(r)
  }

  lemma OneMoreRestored(used: seq<bool>, frame: FrameLayout, n: nat, before: Machine, m: Machine)
    requires n < |used| == |frame.savedOffset| && used[n] && AreRestored(used, frame, n, before, m)
    ensures AreRestored(used, frame, n + 1, before, Step(m, Load(n, RBP, frame.savedOffset[n])))
  {
    assert Eval(m, Mem(RBP, frame.savedOffset[n])) == SavedCell(before, frame, n);
  }

  lemma RestoresMore(used: seq<bool>, frame: FrameLayout, n: nat, m: Machine)
    requires n < |used| == |frame.savedOffset| && AreRestored(used, frame, n, m, Exec(RestoreCode(used, frame, n), m))
    ensures AreRestored(used, frame, n + 1, m, Exec(RestoreCode(used, frame, n + 1), m))
  {
    hide Step, SavedCell, Exec;
    var code := RestoreCode(used, frame, n);
    if used[n] {
      LastInstr(code, Load(n, RBP, frame.savedOffset[n]), m);
      OneMoreRestored(used, frame, n, m, Exec(code, m));
    } else {
      assert code + [] == code;
    }
  }

  lemma {:induction false} RestoresRun(used: seq<bool>, frame: FrameLayout, n: nat, m: Machine)
    requires |used| == |frame.savedOffset| && n <= |used|
    ensures AreRestored(used, frame, n, m, Exec(RestoreCode(used, frame, n), m))
    decreases n
  {
    if n > 0 {
      RestoresRun(used, frame, n - 1, m);
      RestoresMore(used, frame, n - 1, m);
    }
  }

  lemma SavedCellsApart(needs: FrameNeeds, frame: FrameLayout, saved: int, slots: int, spills: int)
    requires needs.Valid() && LaidOut(needs, frame, saved, slots, spills)
    ensures CellsApart(needs.used, frame)
  {
    forall r: nat, q: nat | r < |needs.used| && q < |needs.used| && r != q && needs.used[r] && needs.used[q]
      ensures frame.savedOffset[r] + 8 <= frame.savedOffset[q] || frame.savedOffset[q] + 8 <= frame.savedOffset[r]
    {
      assert Apart(SavedRegion(frame, r), SavedRegion(frame, q));
    }
  }

  // m is when the registers have been saved, m' before they are loaded again.
  lemma SavedIsRestored(used: seq<bool>, frame: FrameLayout, entry: Machine, m: Machine, m': Machine, r: nat)
    requires |used| == |frame.savedOffset| && CellsApart(used, frame) && r < |used|
    requires m == Exec(SaveCode(used, frame, |used|), entry) && m'.rbp == m.rbp
    requires used[r] ==> SavedCell(m', frame, r) == SavedCell(m, frame, r)
    ensures var exit := Exec(RestoreCode(used, frame, |used|), m');
            exit.rbp == entry.rbp && exit.regs(r) == if used[r] then entry.regs(r) else m'.regs(r)
    ensures m.regs == entry.regs
  {
    hide Exec, SaveCode, RestoreCode, CellsApart, SavedCell;
    SavesRun(used, frame, |used|, entry);
    RestoresRun(used, frame, |used|, m');
  }

  lemma RestoresKeep(used: seq<bool>, frame: FrameLayout, m: Machine, r: nat)
    requires |used| == |frame.savedOffset| && r < |used| && !used[r]
    ensures Exec(RestoreCode(used, frame, |used|), m).regs(r) == m.regs(r)
  {
    hide Exec, RestoreCode, SavedCell;
    RestoresRun(used, frame, |used|, m);
  }
}
