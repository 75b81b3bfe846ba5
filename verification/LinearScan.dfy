/** Linear scan: registers for intervals, with expiry, eviction and spill slots. */
module LinearScan {

  const MAX_REGS := 64

  datatype RegClass = Gpr | Fpr

  // allocatable registers are in order of preference
  datatype Target = Target(gprs: seq<nat>, fprs: seq<nat>, calleeSaved: set<nat>) {
    function Pool(cls: RegClass): seq<nat> {
      if cls == Gpr then gprs else fprs
    }

    predicate Valid() {
      && (forall r :: r in gprs ==> r < MAX_REGS)
      && (forall r :: r in fprs ==> r < MAX_REGS)
    }
  }

  datatype Location = NoLocation | InReg(reg: nat) | Spilled(slot: nat)

  datatype Interval = Interval(start: int, end: int, regClass: RegClass, crossesCall: bool) {
    predicate Used() { start <= end }
    predicate Contains(p: int) { start <= p <= end }
  }

  // A register the interval may have
  predicate Allowed(target: Target, interval: Interval, reg: nat) {
    reg in target.Pool(interval.regClass) && (interval.crossesCall ==> reg in target.calleeSaved)
  }

  // ---------------------------------------------------------------------------------------
  // What an allocation promises
  // ---------------------------------------------------------------------------------------

  predicate Disjoint(a: Interval, b: Interval) {
    a.end < b.start || b.end < a.start
  }

  ghost predicate ValidLocation(target: Target, interval: Interval, location: Location, spillCount: nat) {
    match location
    case NoLocation => !interval.Used()
    case InReg(reg) => interval.Used() && Allowed(target, interval, reg)
    case Spilled(slot) => interval.Used() && slot < spillCount
  }

  // Two vregs never share a spill slot, and share a register only when their intervals are apart.
  ghost predicate Compatible(intervals: seq<Interval>, locations: seq<Location>, v: nat, w: nat)
    requires |locations| == |intervals| && v < |intervals| && w < |intervals|
  {
    match (locations[v], locations[w])
    case (InReg(r), InReg(q)) => r == q ==> Disjoint(intervals[v], intervals[w])
    case (Spilled(s), Spilled(t)) => s != t
    case _ => true
  }

  ghost predicate ValidAllocation(target: Target, intervals: seq<Interval>, locations: seq<Location>, spillCount: nat) {
    && |locations| == |intervals|
    && (forall v: nat :: v < |intervals| ==> ValidLocation(target, intervals[v], locations[v], spillCount))
    && (forall v: nat, w: nat :: v < |intervals| && w < |intervals| && v != w ==> Compatible(intervals, locations, v, w))
  }

  // The order of the scan: by start, then by number.
  predicate Before(intervals: seq<Interval>, v: nat, w: nat)
    requires v < |intervals| && w < |intervals|
  {
    intervals[v].start < intervals[w].start || (intervals[v].start == intervals[w].start && v < w)
  }

  // When v was placed, each register it may have was held by another interval that contains its start.
  ghost predicate Crowded(target: Target, intervals: seq<Interval>, v: nat) {
    && v < |intervals|
    && exists holders: map<nat, nat> :: HoldersAt(target, intervals, v, holders)
  }

  ghost predicate HoldersAt(target: Target, intervals: seq<Interval>, v: nat, holders: map<nat, nat>)
    requires v < |intervals|
  {
    (forall reg: nat :: Allowed(target, intervals[v], reg) ==> reg in holders) && AreHolders(intervals, v, holders)
  }

  // Different intervals, other than v, that contain its start
  ghost predicate AreHolders(intervals: seq<Interval>, v: nat, holders: map<nat, nat>)
    requires v < |intervals|
  {
    && (forall reg :: reg in holders ==> holders[reg] < |intervals| && holders[reg] != v)
    && (forall reg :: reg in holders ==> intervals[holders[reg]].Contains(intervals[v].start))
    && (forall r, q :: r in holders && q in holders && r != q ==> holders[r] != holders[q])
  }

  // Of the pool, v has the first register that it may have, but for registers that other intervals held at its start.
  ghost predicate Preferred(target: Target, intervals: seq<Interval>, v: nat, reg: nat)
    requires v < |intervals|
  {
    exists i: nat, holders: map<nat, nat> :: PassedOver(target, intervals, v, reg, i, holders)
  }

  ghost predicate PassedOver(target: Target, intervals: seq<Interval>, v: nat, reg: nat, i: nat, holders: map<nat, nat>)
    requires v < |intervals|
  {
    var pool := target.Pool(intervals[v].regClass);
    && i < |pool| && pool[i] == reg && AreHolders(intervals, v, holders)
    && forall j :: 0 <= j < i && Allowed(target, intervals[v], pool[j]) ==> pool[j] in holders
  }

  ghost predicate AllPreferred(target: Target, intervals: seq<Interval>, locations: seq<Location>)
    requires |locations| == |intervals|
  {
    forall v: nat :: v < |intervals| && locations[v].InReg? ==> Preferred(target, intervals, v, locations[v].reg)
  }

  // s was spilled when 'at' was placed: of the intervals of its class that keep an allowed register there, it ends last.
  ghost predicate EndsLast(target: Target, intervals: seq<Interval>, locations: seq<Location>, s: nat, at: nat)
    requires |locations| == |intervals| && s < |intervals| && at < |intervals|
  {
    && intervals[s].regClass == intervals[at].regClass
    && intervals[s].Contains(intervals[at].start)
    && intervals[at].end <= intervals[s].end
    && forall w: nat :: w < |intervals| ==> EndsBefore(target, intervals, locations, s, at, w)
  }

  ghost predicate EndsBefore(target: Target, intervals: seq<Interval>, locations: seq<Location>, s: nat, at: nat, w: nat)
    requires |locations| == |intervals| && s < |intervals| && at < |intervals| && w < |intervals|
  {
    locations[w].InReg? && intervals[w].regClass == intervals[at].regClass
    && Allowed(target, intervals[at], locations[w].reg)
    && intervals[w].Contains(intervals[at].start) && !Before(intervals, at, w)
    ==> intervals[w].end <= intervals[s].end
  }

  ghost predicate SpillsEndLast(target: Target, intervals: seq<Interval>, locations: seq<Location>)
    requires |locations| == |intervals|
  {
    forall s: nat :: s < |intervals| && locations[s].Spilled? ==>
      exists at: nat :: at < |intervals| && EndsLast(target, intervals, locations, s, at)
  }

  // ---------------------------------------------------------------------------------------
  // The order
  // ---------------------------------------------------------------------------------------

  ghost predicate SortedOrder(intervals: seq<Interval>, order: seq<nat>) {
    && (forall k :: 0 <= k < |order| ==> order[k] < |intervals|)
    && (forall j, k :: 0 <= j < k < |order| ==> Before(intervals, order[j], order[k]))
  }

  lemma InsertKeepsSorted(intervals: seq<Interval>, order: seq<nat>, at: nat, v: nat)
    requires SortedOrder(intervals, order) && v < |intervals| && at <= |order|
    requires forall k :: 0 <= k < at ==> Before(intervals, order[k], v)
    requires forall k :: at <= k < |order| ==> Before(intervals, v, order[k])
    ensures SortedOrder(intervals, order[..at] + [v] + order[at..])
  {
    var longer := order[..at] + [v] + order[at..];
    forall j, k | 0 <= j < k < |longer|
      ensures Before(intervals, longer[j], longer[k])
    {
      if j < at && k < at {
      } else if j > at && k > at {
        assert longer[j] == order[j - 1] && longer[k] == order[k - 1];
      } else if j < at && k > at {
        assert longer[k] == order[k - 1];
      }
    }
  }

  // The used vregs by start of their interval, in place of qsort.
  method SortByStart(intervals: seq<Interval>) returns (order: seq<nat>)
    ensures SortedOrder(intervals, order)
    ensures forall v: nat :: v in order <==> v < |intervals| && intervals[v].Used()
  {
    order := [];
    for v := 0 to |intervals|
      invariant SortedOrder(intervals, order)
      invariant forall w: nat :: w in order <==> w < v && intervals[w].Used()
    {
      if intervals[v].Used() {
        var at := |order|;
        while at > 0 && intervals[v].start < intervals[order[at - 1]].start
          invariant 0 <= at <= |order|
          invariant forall k :: at <= k < |order| ==> Before(intervals, v, order[k])
        {
          at := at - 1;
        }
        forall k | 0 <= k < at
          ensures Before(intervals, order[k], v)
        {
          assert order[k] in order;
        }
        InsertKeepsSorted(intervals, order, at, v);
        ghost var before := order;
        order := order[..at] + [v] + order[at..];
        assert forall w: nat :: w in order <==> w == v || w in before by {
          assert before == before[..at] + before[at..];
        }
      }
    }
  }

  // ---------------------------------------------------------------------------------------
  // The registers in use
  // ---------------------------------------------------------------------------------------

  // The active vregs hold distinct registers, and the free registers are the others.
  ghost predicate ActiveHold(active: seq<nat>, locations: seq<Location>, regFree: seq<bool>) {
    && |regFree| == MAX_REGS
    && (forall a :: 0 <= a < |active| ==>
          active[a] < |locations| && locations[active[a]].InReg? && locations[active[a]].reg < MAX_REGS)
    && (forall a, c :: 0 <= a < c < |active| ==> locations[active[a]].reg != locations[active[c]].reg)
    && (forall r: nat :: r < MAX_REGS ==>
          (regFree[r] <==> forall a :: 0 <= a < |active| ==> locations[active[a]].reg != r))
  }

  // Takes the last active vreg in place of the one at a.
  function SwapRemove(active: seq<nat>, a: nat): (r: seq<nat>)
    requires a < |active|
  {
    active[a := active[|active| - 1]][..|active| - 1]
  }

  lemma SwapRemoveFrees(active: seq<nat>, a: nat, locations: seq<Location>, regFree: seq<bool>)
    requires ActiveHold(active, locations, regFree) && a < |active|
    ensures ActiveHold(SwapRemove(active, a), locations, regFree[locations[active[a]].reg := true])
    ensures forall v :: v in active <==> v == active[a] || v in SwapRemove(active, a)
    ensures active[a] !in SwapRemove(active, a)
  {
    var rest := SwapRemove(active, a);
    var free := regFree[locations[active[a]].reg := true];
    forall r: nat | r < MAX_REGS
      ensures free[r] <==> forall c :: 0 <= c < |rest| ==> locations[rest[c]].reg != r
    {
      var last := active[|active| - 1];
      if c :| 0 <= c < |active| && c != a && locations[active[c]].reg == r {
        if c == |active| - 1 {
          assert rest[a] == last;
        } else {
          assert rest[c] == active[c];
        }
      }
      if c :| 0 <= c < |rest| && locations[rest[c]].reg == r {
        assert rest[c] == active[if c == a then |active| - 1 else c];
      }
    }
    forall v | v in active
      ensures v == active[a] || v in rest
    {
      var c :| 0 <= c < |active| && active[c] == v;
      if c == |active| - 1 && c != a {
        assert rest[a] == v;
      } else if c != a {
        assert rest[c] == v;
      }
    }
  }

  // Removes the intervals that are over at 'start' from the active list, and gives their registers back.
  method Expire(intervals: seq<Interval>, locations: seq<Location>, regFree: array<bool>, active: seq<nat>, start: int)
    returns (remaining: seq<nat>)
    requires |locations| == |intervals| && ActiveHold(active, locations, regFree[..])
    modifies regFree
    ensures ActiveHold(remaining, locations, regFree[..])
    ensures forall v :: v in remaining <==> v in active && intervals[v].end >= start
  {
    remaining := active;
    var a := 0;
    while a < |remaining|
      invariant 0 <= a <= |remaining|
      invariant ActiveHold(remaining, locations, regFree[..])
      invariant forall v :: v in remaining ==> v in active
      invariant forall v :: v in active && intervals[v].end >= start ==> v in remaining
      invariant forall c :: 0 <= c < a ==> intervals[remaining[c]].end >= start
      decreases |remaining| - a
    {
      var other := remaining[a];
      if intervals[other].end < start {
        SwapRemoveFrees(remaining, a, locations, regFree[..]);
        ghost var free := regFree[..][locations[other].reg := true];
        regFree[locations[other].reg] := true;
        assert regFree[..] == free;
        remaining := SwapRemove(remaining, a);
      } else {
        a := a + 1;
      }
    }
  }

  predicate Available(target: Target, interval: Interval, regFree: seq<bool>, reg: nat) {
    reg < |regFree| && regFree[reg] && Allowed(target, interval, reg)
  }

  // The first allowed register that is free, in order of preference.
  method PickFree(target: Target, interval: Interval, regFree: array<bool>) returns (found: bool, chosen: nat)
    requires target.Valid() && regFree.Length == MAX_REGS
    ensures found ==> Available(target, interval, regFree[..], chosen)
    ensures found ==>
      var pool := target.Pool(interval.regClass);
      exists i :: (0 <= i < |pool| && pool[i] == chosen
                   && forall j :: 0 <= j < i ==> !Available(target, interval, regFree[..], pool[j]))
    ensures !found ==> forall reg :: !Available(target, interval, regFree[..], reg)
  {
    var pool := target.Pool(interval.regClass);
    found, chosen := false, 0;
    for i := 0 to |pool|
      invariant forall j :: 0 <= j < i ==> !Available(target, interval, regFree[..], pool[j])
    {
      var reg := pool[i];
      assert reg in pool;
      if !regFree[reg] { continue; }
      if interval.crossesCall && reg !in target.calleeSaved { continue; }
      return true, reg;
    }
  }

  // An active interval whose register the new one may take
  predicate Candidate(target: Target, intervals: seq<Interval>, locations: seq<Location>, v: nat, other: nat)
    requires |locations| == |intervals| && v < |intervals| && other < |intervals| && locations[other].InReg?
  {
    && intervals[other].regClass == intervals[v].regClass
    && (intervals[v].crossesCall ==> locations[other].reg in target.calleeSaved)
  }

  // The candidate that ends last, the first of them in the active list.
  method PickVictim(target: Target, intervals: seq<Interval>, locations: seq<Location>, active: seq<nat>, v: nat)
    returns (found: bool, victim: nat)
    requires |locations| == |intervals| && v < |intervals|
    requires forall a :: 0 <= a < |active| ==> active[a] < |intervals| && locations[active[a]].InReg?
    ensures !found ==> forall a :: 0 <= a < |active| ==> !Candidate(target, intervals, locations, v, active[a])
    ensures found ==> victim < |active| && Candidate(target, intervals, locations, v, active[victim])
    ensures found ==> forall a :: 0 <= a < |active| && Candidate(target, intervals, locations, v, active[a]) ==>
      intervals[active[a]].end <= intervals[active[victim]].end
      && (intervals[active[a]].end == intervals[active[victim]].end ==> victim <= a)
  {
    found, victim := false, 0;
    for a := 0 to |active|
      invariant !found ==> forall c :: 0 <= c < a ==> !Candidate(target, intervals, locations, v, active[c])
      invariant found ==> victim < a && Candidate(target, intervals, locations, v, active[victim])
      invariant found ==> forall c :: 0 <= c < a && Candidate(target, intervals, locations, v, active[c]) ==>
        intervals[active[c]].end <= intervals[active[victim]].end
        && (intervals[active[c]].end == intervals[active[victim]].end ==> victim <= c)
    {
      var other := active[a];
      if intervals[other].regClass != intervals[v].regClass { continue; }
      var reg := locations[other].reg;
      if intervals[v].crossesCall && reg !in target.calleeSaved { continue; }
      if !found || intervals[other].end > intervals[active[victim]].end {
        found, victim := true, a;
      }
    }
  }

  // ---------------------------------------------------------------------------------------
  // The scan
  // ---------------------------------------------------------------------------------------

  // After the first k vregs of the order are placed
  ghost predicate Placed(target: Target, intervals: seq<Interval>, order: seq<nat>, k: nat, locations: seq<Location>, spillCount: nat) {
    && |locations| == |intervals| && SortedOrder(intervals, order) && k <= |order|
    && (forall v: nat :: v < |intervals| && v !in order[..k] ==> locations[v].NoLocation?)
    && (forall v: nat :: v < |intervals| && v in order[..k] ==>
          !locations[v].NoLocation? && ValidLocation(target, intervals[v], locations[v], spillCount))
    && (forall v: nat, w: nat :: v < |intervals| && w < |intervals| && v != w ==> Compatible(intervals, locations, v, w))
    && (forall s: nat :: s < |intervals| && locations[s].Spilled? ==>
          exists at: nat :: at in order[..k] && EndsLast(target, intervals, locations, s, at))
    && (spillCount > 0 ==> exists v: nat :: v in order[..k] && Crowded(target, intervals, v))
  }

  // The active vregs are exactly the placed ones whose register may still be needed at a position.
  ghost predicate ActiveAt(intervals: seq<Interval>, order: seq<nat>, k: nat, locations: seq<Location>, active: seq<nat>, position: int) {
    && |locations| == |intervals| && k <= |order|
    && (forall v :: v in active ==> v < |intervals| && v in order[..k])
    && (forall v: nat :: v < |intervals| && v in order[..k] && locations[v].InReg? && intervals[v].end >= position ==> v in active)
  }

  // What holds between expiring for the next vreg of the order and placing it
  ghost predicate ReadyToPlace(target: Target, intervals: seq<Interval>, order: seq<nat>, k: nat, locations: seq<Location>,
                               spillCount: nat, active: seq<nat>, regFree: seq<bool>) {
    && k < |order|
    && Placed(target, intervals, order, k, locations, spillCount)
    && ActiveHold(active, locations, regFree)
    && ActiveAt(intervals, order, k, locations, active, intervals[order[k]].start)
    && (forall v :: v in active ==> intervals[v].end >= intervals[order[k]].start)
    && (forall v: nat :: v in order ==> intervals[v].Used())
    && target.Valid()
  }

  ghost predicate StepDone(target: Target, intervals: seq<Interval>, order: seq<nat>, k: nat, locations: seq<Location>,
                           spillCount: nat, active: seq<nat>, regFree: seq<bool>) {
    && k < |order|
    && Placed(target, intervals, order, k + 1, locations, spillCount)
    && ActiveHold(active, locations, regFree)
    && ActiveAt(intervals, order, k + 1, locations, active, intervals[order[k]].start)
  }

  lemma OrderIsDistinct(intervals: seq<Interval>, order: seq<nat>, k: nat)
    requires SortedOrder(intervals, order) && k < |order|
    ensures order[k] !in order[..k] && order[..k + 1] == order[..k] + [order[k]]
    ensures forall v :: v in order[..k] ==> v < |intervals| && Before(intervals, v, order[k])
  {
  }

  // A placed interval that is not active ended before the new one starts.
  lemma NotActiveIsOver(target: Target, intervals: seq<Interval>, order: seq<nat>, k: nat, locations: seq<Location>,
                        spillCount: nat, active: seq<nat>, regFree: seq<bool>, w: nat)
    requires ReadyToPlace(target, intervals, order, k, locations, spillCount, active, regFree)
    requires w < |intervals| && w != order[k] && locations[w].InReg? && w !in active
    ensures Disjoint(intervals[order[k]], intervals[w])
  {
    assert w in order[..k];
  }

  // A register with the new interval stays apart from every other holder of it.
  lemma NewHolderIsCompatible(target: Target, intervals: seq<Interval>, order: seq<nat>, k: nat, locations: seq<Location>,
                              spillCount: nat, active: seq<nat>, regFree: seq<bool>, locations': seq<Location>)
    requires ReadyToPlace(target, intervals, order, k, locations, spillCount, active, regFree)
    requires |locations'| == |locations| && locations'[order[k]].InReg?
    requires forall w: nat :: w < |locations| && w != order[k] && locations'[w] != locations[w] ==> locations'[w] == Spilled(spillCount)
    requires forall w, x :: 0 <= w < x < |locations| && w != order[k] && x != order[k] ==>
      locations'[w] == locations[w] || locations'[x] == locations[x]
    requires forall w :: w in active && w != order[k] && locations'[w].InReg? ==> locations'[w].reg != locations'[order[k]].reg
    ensures forall v: nat, w: nat :: v < |intervals| && w < |intervals| && v != w ==> Compatible(intervals, locations', v, w)
  {
    var n := order[k];
    forall v: nat, w: nat | v < |intervals| && w < |intervals| && v != w
      ensures Compatible(intervals, locations', v, w)
    {
      assert Compatible(intervals, locations, v, w);
      var other := if v == n then w else v;
      if (v == n || w == n) && locations'[other].InReg? {
        assert locations'[other] == locations[other];
        if other !in active {
          NotActiveIsOver(target, intervals, order, k, locations, spillCount, active, regFree, other);
        }
      }
      SlotsStayDistinct(target, intervals, order, k, locations, spillCount, v);
      SlotsStayDistinct(target, intervals, order, k, locations, spillCount, w);
    }
  }

  lemma SlotsStayDistinct(target: Target, intervals: seq<Interval>, order: seq<nat>, k: nat, locations: seq<Location>, spillCount: nat, v: nat)
    requires Placed(target, intervals, order, k, locations, spillCount) && v < |intervals|
    ensures locations[v].Spilled? ==> locations[v].slot < spillCount
  {
    if v in order[..k] {
    } else {
    }
  }

  // Spills stay justified: later placements only add intervals that come after, or take registers away.
  lemma JustificationsStay(target: Target, intervals: seq<Interval>, order: seq<nat>, k: nat, locations: seq<Location>,
                           locations': seq<Location>, s: nat, at: nat)
    requires SortedOrder(intervals, order) && k < |order| && |locations| == |intervals| == |locations'|
    requires s < |intervals| && at in order[..k] && at < |intervals| && EndsLast(target, intervals, locations, s, at)
    requires forall w :: 0 <= w < |locations| && w != order[k] && locations'[w].InReg? ==> locations'[w] == locations[w]
    ensures at in order[..k + 1] && EndsLast(target, intervals, locations', s, at)
  {
    OrderIsDistinct(intervals, order, k);
    forall w: nat | w < |intervals|
      ensures EndsBefore(target, intervals, locations', s, at, w)
    {
      assert EndsBefore(target, intervals, locations, s, at, w);
    }
  }

  ghost function HolderOf(active: seq<nat>, locations: seq<Location>, regFree: seq<bool>, reg: nat): (v: nat)
    requires ActiveHold(active, locations, regFree) && reg < MAX_REGS && !regFree[reg]
    ensures v in active && v < |locations| && locations[v] == InReg(reg)
  {
    var a :| 0 <= a < |active| && locations[active[a]].reg == reg;
    active[a]
  }

  lemma HoldersOfTaken(target: Target, intervals: seq<Interval>, order: seq<nat>, k: nat, locations: seq<Location>,
                       spillCount: nat, active: seq<nat>, regFree: seq<bool>) returns (holders: map<nat, nat>)
    requires ReadyToPlace(target, intervals, order, k, locations, spillCount, active, regFree)
    ensures forall reg: nat :: reg in holders <==> reg < MAX_REGS && !regFree[reg]
    ensures order[k] < |intervals| && AreHolders(intervals, order[k], holders)
  {
    OrderIsDistinct(intervals, order, k);
    holders := map reg: nat | 0 <= reg < MAX_REGS && !regFree[reg] :: HolderOf(active, locations, regFree, reg);
    forall r, q | r in holders && q in holders && r != q
      ensures holders[r] != holders[q]
    {
      assert locations[holders[r]] == InReg(r) && locations[holders[q]] == InReg(q);
    }
  }

  // Without an available register, every allowed register is held by an interval that is live at the start.
  lemma NoRegisterIsCrowded(target: Target, intervals: seq<Interval>, order: seq<nat>, k: nat, locations: seq<Location>,
                            spillCount: nat, active: seq<nat>, regFree: seq<bool>)
    requires ReadyToPlace(target, intervals, order, k, locations, spillCount, active, regFree)
    requires forall reg :: !Available(target, intervals[order[k]], regFree, reg)
    ensures Crowded(target, intervals, order[k])
  {
    var v := order[k];
    var holders := HoldersOfTaken(target, intervals, order, k, locations, spillCount, active, regFree);
    forall reg: nat | Allowed(target, intervals[v], reg)
      ensures reg in holders
    {
      assert !Available(target, intervals[v], regFree, reg);
    }
    assert HoldersAt(target, intervals, v, holders);
  }

  // The first register of the pool that is free
  lemma FreeIsPreferred(target: Target, intervals: seq<Interval>, order: seq<nat>, k: nat, locations: seq<Location>,
                        spillCount: nat, active: seq<nat>, regFree: seq<bool>, i: nat)
    requires ReadyToPlace(target, intervals, order, k, locations, spillCount, active, regFree)
    requires i < |target.Pool(intervals[order[k]].regClass)|
    requires forall j :: 0 <= j < i ==> !Available(target, intervals[order[k]], regFree, target.Pool(intervals[order[k]].regClass)[j])
    ensures Preferred(target, intervals, order[k], target.Pool(intervals[order[k]].regClass)[i])
  {
    var v := order[k];
    var pool := target.Pool(intervals[v].regClass);
    var holders := HoldersOfTaken(target, intervals, order, k, locations, spillCount, active, regFree);
    forall j | 0 <= j < i && Allowed(target, intervals[v], pool[j])
      ensures pool[j] in holders
    {
      assert !Available(target, intervals[v], regFree, pool[j]);
    }
    assert PassedOver(target, intervals, v, pool[i], i, holders);
  }

  lemma InBounds(target: Target, intervals: seq<Interval>, order: seq<nat>, k: nat, locations: seq<Location>,
                 spillCount: nat, active: seq<nat>, regFree: seq<bool>)
    requires ReadyToPlace(target, intervals, order, k, locations, spillCount, active, regFree)
    ensures k < |order| && order[k] < |intervals| == |locations|
  {
  }

  lemma FirstFreeIsPreferred(target: Target, intervals: seq<Interval>, order: seq<nat>, k: nat, locations: seq<Location>,
                             spillCount: nat, active: seq<nat>, regFree: seq<bool>, reg: nat)
    requires ReadyToPlace(target, intervals, order, k, locations, spillCount, active, regFree)
    requires AllPreferred(target, intervals, locations)
    requires var pool := target.Pool(intervals[order[k]].regClass);
             exists i :: 0 <= i < |pool| && pool[i] == reg && forall j :: 0 <= j < i ==> !Available(target, intervals[order[k]], regFree, pool[j])
    ensures AllPreferred(target, intervals, locations[order[k] := InReg(reg)])
  {
    hide Placed, ActiveHold, ActiveAt, Available, Preferred;
    InBounds(target, intervals, order, k, locations, spillCount, active, regFree);
    var pool := target.Pool(intervals[order[k]].regClass);
    var i: nat :| i < |pool| && pool[i] == reg && forall j :: 0 <= j < i ==> !Available(target, intervals[order[k]], regFree, pool[j]);
    FreeIsPreferred(target, intervals, order, k, locations, spillCount, active, regFree, i);
  }

  lemma EvictedIsPreferred(target: Target, intervals: seq<Interval>, order: seq<nat>, k: nat, locations: seq<Location>,
                           spillCount: nat, active: seq<nat>, regFree: seq<bool>, at: nat)
    requires ReadyToPlace(target, intervals, order, k, locations, spillCount, active, regFree)
    requires AllPreferred(target, intervals, locations)
    requires forall reg :: !Available(target, intervals[order[k]], regFree, reg)
    requires at < |active| && Candidate(target, intervals, locations, order[k], active[at])
    ensures AllPreferred(target, intervals, locations[order[k] := locations[active[at]]][active[at] := Spilled(spillCount)])
  {
    hide Crowded, Preferred, Available;
    var v, x := order[k], active[at];
    NoRegisterIsCrowded(target, intervals, order, k, locations, spillCount, active, regFree);
    assert x in active;
    assert ValidLocation(target, intervals[x], locations[x], spillCount);
    CrowdedIsPreferred(target, intervals, v, locations[x].reg);
  }

  lemma SpilledIsPreferred(target: Target, intervals: seq<Interval>, locations: seq<Location>, v: nat, slot: nat)
    requires |locations| == |intervals| && v < |intervals| && AllPreferred(target, intervals, locations)
    ensures AllPreferred(target, intervals, locations[v := Spilled(slot)])
  {
  }

  // When all registers are held, any of them will do.
  lemma CrowdedIsPreferred(target: Target, intervals: seq<Interval>, v: nat, reg: nat)
    requires Crowded(target, intervals, v) && Allowed(target, intervals[v], reg)
    ensures Preferred(target, intervals, v, reg)
  {
    var holders: map<nat, nat> :| HoldersAt(target, intervals, v, holders);
    var pool := target.Pool(intervals[v].regClass);
    var i: nat :| i < |pool| && pool[i] == reg;
    assert PassedOver(target, intervals, v, reg, i, holders);
  }

  // Placing order[k] changes its location, and may spill one other vreg.
  ghost predicate OneMore(intervals: seq<Interval>, order: seq<nat>, k: nat, locations: seq<Location>, spillCount: nat, locations': seq<Location>) {
    && k < |order| && |locations'| == |locations| == |intervals|
    && order[k] < |locations| && !locations'[order[k]].NoLocation?
    && (forall w: nat :: w < |locations| && w != order[k] && locations'[w] != locations[w] ==>
          locations'[w] == Spilled(spillCount) && !locations[w].NoLocation?)
  }

  lemma PlacedOneMore(target: Target, intervals: seq<Interval>, order: seq<nat>, k: nat, locations: seq<Location>, spillCount: nat,
                      locations': seq<Location>, spillCount': nat)
    requires Placed(target, intervals, order, k, locations, spillCount)
    requires OneMore(intervals, order, k, locations, spillCount, locations')
    requires forall v :: v in order ==> v < |intervals| && intervals[v].Used()
    requires ValidLocation(target, intervals[order[k]], locations'[order[k]], spillCount')
    requires forall v: nat, w: nat :: v < |intervals| && w < |intervals| && v != w ==> Compatible(intervals, locations', v, w)
    requires forall s: nat :: s < |intervals| && locations'[s].Spilled? && locations'[s] != locations[s] ==>
      EndsLast(target, intervals, locations', s, order[k])
    requires spillCount <= spillCount'
    requires forall w: nat :: w < |intervals| && locations'[w] == Spilled(spillCount) ==> spillCount < spillCount'
    requires spillCount < spillCount' ==> Crowded(target, intervals, order[k])
    ensures Placed(target, intervals, order, k + 1, locations', spillCount')
  {
    OrderIsDistinct(intervals, order, k);
    PlacedLocations(target, intervals, order, k, locations, spillCount, locations', spillCount');
    forall s: nat | s < |intervals| && locations'[s].Spilled?
      ensures exists at: nat :: at in order[..k + 1] && EndsLast(target, intervals, locations', s, at)
    {
      if locations'[s] == locations[s] {
        var at: nat :| at in order[..k] && EndsLast(target, intervals, locations, s, at);
        JustificationsStay(target, intervals, order, k, locations, locations', s, at);
      } else {
        assert order[k] in order[..k + 1];
      }
    }
    if spillCount' > 0 {
      if spillCount < spillCount' {
        assert order[k] in order[..k + 1];
      } else {
        var v: nat :| v in order[..k] && Crowded(target, intervals, v);
        assert v in order[..k + 1];
      }
    }
  }

  lemma PlacedLocations(target: Target, intervals: seq<Interval>, order: seq<nat>, k: nat, locations: seq<Location>, spillCount: nat,
                        locations': seq<Location>, spillCount': nat)
    requires Placed(target, intervals, order, k, locations, spillCount)
    requires OneMore(intervals, order, k, locations, spillCount, locations')
    requires forall v :: v in order ==> v < |intervals| && intervals[v].Used()
    requires ValidLocation(target, intervals[order[k]], locations'[order[k]], spillCount')
    requires spillCount <= spillCount'
    requires forall w: nat :: w < |intervals| && locations'[w] == Spilled(spillCount) ==> spillCount < spillCount'
    ensures forall v: nat :: v < |intervals| && v !in order[..k + 1] ==> locations'[v].NoLocation?
    ensures forall v: nat :: v < |intervals| && v in order[..k + 1] ==>
      !locations'[v].NoLocation? && ValidLocation(target, intervals[v], locations'[v], spillCount')
  {
    OrderIsDistinct(intervals, order, k);
    forall v: nat | v < |intervals|
      ensures v !in order[..k + 1] ==> locations'[v].NoLocation?
      ensures v in order[..k + 1] ==> !locations'[v].NoLocation? && ValidLocation(target, intervals[v], locations'[v], spillCount')
    {
      if v != order[k] && v in order[..k] {
        assert ValidLocation(target, intervals[v], locations[v], spillCount);
        assert v in order;
      }
    }
  }

  lemma StepFree(target: Target, intervals: seq<Interval>, order: seq<nat>, k: nat, locations: seq<Location>,
                 spillCount: nat, active: seq<nat>, regFree: seq<bool>, reg: nat)
    requires ReadyToPlace(target, intervals, order, k, locations, spillCount, active, regFree)
    requires Available(target, intervals[order[k]], regFree, reg)
    ensures StepDone(target, intervals, order, k, locations[order[k] := InReg(reg)], spillCount, active + [order[k]], regFree[reg := false])
  {
    var v := order[k];
    var locations' := locations[v := InReg(reg)];
    OrderIsDistinct(intervals, order, k);
    assert v in order;
    forall w | w in active
      ensures w != v && locations'[w] == locations[w] && locations'[w].reg != reg
    {
    }
    NewHolderIsCompatible(target, intervals, order, k, locations, spillCount, active, regFree, locations');
    forall w: nat | w < |intervals| && locations'[w] == Spilled(spillCount)
      ensures false
    {
      SlotsStayDistinct(target, intervals, order, k, locations, spillCount, w);
    }
    PlacedOneMore(target, intervals, order, k, locations, spillCount, locations', spillCount);
    HoldOneMore(active, locations, regFree, v, reg);
  }

  lemma HoldOneMore(active: seq<nat>, locations: seq<Location>, regFree: seq<bool>, v: nat, reg: nat)
    requires ActiveHold(active, locations, regFree) && v < |locations| && v !in active
    requires reg < MAX_REGS && regFree[reg]
    ensures ActiveHold(active + [v], locations[v := InReg(reg)], regFree[reg := false])
  {
    var locations' := locations[v := InReg(reg)];
    var active' := active + [v];
    forall a | 0 <= a < |active|
      ensures locations'[active'[a]] == locations[active[a]]
    {
    }
    var regFree' := regFree[reg := false];
    forall r: nat | r < MAX_REGS
      ensures regFree'[r] <==> forall a :: 0 <= a < |active'| ==> locations'[active'[a]].reg != r
    {
      if r == reg {
        assert locations'[active'[|active|]].reg == r;
      } else if a :| 0 <= a < |active| && locations[active[a]].reg == r {
        assert locations'[active'[a]].reg == r;
      }
    }
  }

  lemma HoldTaken(active: seq<nat>, locations: seq<Location>, regFree: seq<bool>, at: nat, v: nat, slot: nat)
    requires ActiveHold(active, locations, regFree) && at < |active| && v < |locations| && v !in active
    ensures ActiveHold(active[at := v], locations[v := locations[active[at]]][active[at] := Spilled(slot)], regFree)
  {
    var locations' := locations[v := locations[active[at]]][active[at] := Spilled(slot)];
    var active' := active[at := v];
    forall a | 0 <= a < |active|
      ensures active'[a] < |locations'| && locations'[active'[a]] == locations[active[a]]
    {
      if a != at {
        assert active[a] != active[at];
      }
    }
  }

  lemma StepEvict(target: Target, intervals: seq<Interval>, order: seq<nat>, k: nat, locations: seq<Location>,
                  spillCount: nat, active: seq<nat>, regFree: seq<bool>, at: nat)
    requires ReadyToPlace(target, intervals, order, k, locations, spillCount, active, regFree)
    requires forall reg :: !Available(target, intervals[order[k]], regFree, reg)
    requires at < |active| && Candidate(target, intervals, locations, order[k], active[at])
    requires forall a :: 0 <= a < |active| && Candidate(target, intervals, locations, order[k], active[a]) ==>
      intervals[active[a]].end <= intervals[active[at]].end
    requires intervals[active[at]].end > intervals[order[k]].end
    ensures StepDone(target, intervals, order, k, locations[order[k] := locations[active[at]]][active[at] := Spilled(spillCount)],
                     spillCount + 1, active[at := order[k]], regFree)
  {
    var v, x := order[k], active[at];
    var locations' := locations[v := locations[x]][x := Spilled(spillCount)];
    OrderIsDistinct(intervals, order, k);
    NoRegisterIsCrowded(target, intervals, order, k, locations, spillCount, active, regFree);
    assert v in order && x in order[..k] && x != v;
    forall w | w in active && w != v && locations'[w].InReg?
      ensures locations'[w].reg != locations'[v].reg
    {
      var a :| 0 <= a < |active| && active[a] == w;
      assert a != at;
    }
    NewHolderIsCompatible(target, intervals, order, k, locations, spillCount, active, regFree, locations');
    EvictedEndsLast(target, intervals, order, k, locations, spillCount, active, regFree, at);
    assert ValidLocation(target, intervals[x], locations[x], spillCount);
    forall s: nat | s < |intervals| && locations'[s].Spilled? && locations'[s] != locations[s]
      ensures EndsLast(target, intervals, locations', s, v)
    {
      assert s == x;
    }
    PlacedOneMore(target, intervals, order, k, locations, spillCount, locations', spillCount + 1);
    HoldTaken(active, locations, regFree, at, v, spillCount);
    ActiveTaken(intervals, order, k, locations, active, at, spillCount);
  }

  lemma ActiveTaken(intervals: seq<Interval>, order: seq<nat>, k: nat, locations: seq<Location>, active: seq<nat>, at: nat, slot: nat)
    requires SortedOrder(intervals, order) && k < |order| && |locations| == |intervals|
    requires ActiveAt(intervals, order, k, locations, active, intervals[order[k]].start)
    requires at < |active| && active[at] < |locations|
    ensures ActiveAt(intervals, order, k + 1, locations[order[k] := locations[active[at]]][active[at] := Spilled(slot)],
                     active[at := order[k]], intervals[order[k]].start)
  {
    OrderIsDistinct(intervals, order, k);
    var v, x := order[k], active[at];
    var locations' := locations[v := locations[x]][x := Spilled(slot)];
    var active' := active[at := v];
    assert active'[at] == v;
    forall w | w in active'
      ensures w < |intervals| && w in order[..k + 1]
    {
      assert w == v || w in active;
    }
    forall w: nat | w < |intervals| && w in order[..k + 1] && locations'[w].InReg? && intervals[w].end >= intervals[v].start
      ensures w in active'
    {
      if w != v {
        assert w in active && w != x;
        var a :| 0 <= a < |active| && active[a] == w;
        assert active'[a] == w;
      }
    }
  }

  lemma EvictedEndsLast(target: Target, intervals: seq<Interval>, order: seq<nat>, k: nat, locations: seq<Location>,
                        spillCount: nat, active: seq<nat>, regFree: seq<bool>, at: nat)
    requires ReadyToPlace(target, intervals, order, k, locations, spillCount, active, regFree)
    requires at < |active| && Candidate(target, intervals, locations, order[k], active[at])
    requires forall a :: 0 <= a < |active| && Candidate(target, intervals, locations, order[k], active[a]) ==>
      intervals[active[a]].end <= intervals[active[at]].end
    requires intervals[active[at]].end > intervals[order[k]].end
    ensures EndsLast(target, intervals, locations[order[k] := locations[active[at]]][active[at] := Spilled(spillCount)],
                     active[at], order[k])
  {
    var v, x := order[k], active[at];
    var locations' := locations[v := locations[x]][x := Spilled(spillCount)];
    OrderIsDistinct(intervals, order, k);
    forall w: nat | w < |intervals|
      ensures EndsBefore(target, intervals, locations', x, v, w)
    {
      if w != v && locations'[w].InReg? && intervals[w].Contains(intervals[v].start) {
        assert w in order[..k];
        assert w in active;
        var a :| 0 <= a < |active| && active[a] == w;
      }
    }
    assert x in order[..k];
  }

  lemma StepSpill(target: Target, intervals: seq<Interval>, order: seq<nat>, k: nat, locations: seq<Location>,
                  spillCount: nat, active: seq<nat>, regFree: seq<bool>)
    requires ReadyToPlace(target, intervals, order, k, locations, spillCount, active, regFree)
    requires forall reg :: !Available(target, intervals[order[k]], regFree, reg)
    requires forall a :: 0 <= a < |active| && Candidate(target, intervals, locations, order[k], active[a]) ==>
      intervals[active[a]].end <= intervals[order[k]].end
    ensures StepDone(target, intervals, order, k, locations[order[k] := Spilled(spillCount)], spillCount + 1, active, regFree)
  {
    var v := order[k];
    var locations' := locations[v := Spilled(spillCount)];
    OrderIsDistinct(intervals, order, k);
    NoRegisterIsCrowded(target, intervals, order, k, locations, spillCount, active, regFree);
    assert v in order;
    forall w: nat | w < |intervals|
      ensures EndsBefore(target, intervals, locations', v, v, w)
    {
      if w != v && locations'[w].InReg? && intervals[w].Contains(intervals[v].start) {
        assert w in order[..k];
        var a :| 0 <= a < |active| && active[a] == w;
      }
    }
    forall i: nat, w: nat | i < |intervals| && w < |intervals| && i != w
      ensures Compatible(intervals, locations', i, w)
    {
      assert Compatible(intervals, locations, i, w);
      SlotsStayDistinct(target, intervals, order, k, locations, spillCount, i);
      SlotsStayDistinct(target, intervals, order, k, locations, spillCount, w);
    }
    PlacedOneMore(target, intervals, order, k, locations, spillCount, locations', spillCount + 1);
    assert forall w :: w in active ==> w != v;
    assert forall a :: 0 <= a < |active| ==> locations'[active[a]] == locations[active[a]] by {
      assert forall a :: 0 <= a < |active| ==> active[a] in active;
    }
  }

  // Gives the next vreg a free register, the register of an interval that ends later, or a spill slot.
  method PlaceNext(target: Target, intervals: seq<Interval>, ghost order: seq<nat>, ghost k: nat, v: nat, places: array<Location>,
                   spillCount: nat, active: seq<nat>, regFree: array<bool>)
    returns (spillCount': nat, active': seq<nat>)
    requires ReadyToPlace(target, intervals, order, k, places[..], spillCount, active, regFree[..]) && v == order[k]
    requires AllPreferred(target, intervals, places[..])
    modifies places, regFree
    ensures StepDone(target, intervals, order, k, places[..], spillCount', active', regFree[..])
    ensures AllPreferred(target, intervals, places[..])
  {
    hide AllPreferred, Preferred, Crowded, Placed, StepDone, ValidLocation, ActiveAt;
    InBounds(target, intervals, order, k, places[..], spillCount, active, regFree[..]);
    ghost var locations, free := places[..], regFree[..];
    spillCount', active' := spillCount, active;
    var found, chosen := PickFree(target, intervals[v], regFree);
    if found {
      StepFree(target, intervals, order, k, locations, spillCount, active, free, chosen);
      FirstFreeIsPreferred(target, intervals, order, k, locations, spillCount, active, free, chosen);
      regFree[chosen] := false;
      places[v] := InReg(chosen);
      active' := active + [v];
      assert places[..] == locations[v := InReg(chosen)] && regFree[..] == free[chosen := false];
      return;
    }
    assert regFree[..] == free;
    assert forall reg :: !Available(target, intervals[v], free, reg);
    var hasVictim, victim := PickVictim(target, intervals, places[..], active, v);
    spillCount' := spillCount + 1;
    if hasVictim && intervals[active[victim]].end > intervals[v].end {
      StepEvict(target, intervals, order, k, locations, spillCount, active, free, victim);
      var evicted := active[victim];
      EvictedIsPreferred(target, intervals, order, k, locations, spillCount, active, free, victim);
      places[v] := InReg(places[evicted].reg);
      places[evicted] := Spilled(spillCount);
      active' := active[victim := v];
      assert places[..] == locations[v := locations[evicted]][evicted := Spilled(spillCount)];
    } else {
      StepSpill(target, intervals, order, k, locations, spillCount, active, free);
      SpilledIsPreferred(target, intervals, locations, v, spillCount);
      places[v] := Spilled(spillCount);
      assert places[..] == locations[v := Spilled(spillCount)];
    }
  }

  lemma NothingPlaced(target: Target, intervals: seq<Interval>, order: seq<nat>, locations: seq<Location>)
    requires SortedOrder(intervals, order) && |locations| == |intervals|
    requires forall v :: 0 <= v < |locations| ==> locations[v] == NoLocation
    ensures Placed(target, intervals, order, 0, locations, 0)
  {
  }

  lemma AllPlaced(target: Target, intervals: seq<Interval>, order: seq<nat>, locations: seq<Location>, spillCount: nat)
    requires Placed(target, intervals, order, |order|, locations, spillCount)
    requires forall v: nat :: v in order <==> v < |intervals| && intervals[v].Used()
    ensures ValidAllocation(target, intervals, locations, spillCount)
    ensures SpillsEndLast(target, intervals, locations)
    ensures spillCount > 0 ==> exists v: nat :: Crowded(target, intervals, v)
  {
    assert order[..|order|] == order;
    forall s: nat | s < |intervals| && locations[s].Spilled?
      ensures exists at: nat :: at < |intervals| && EndsLast(target, intervals, locations, s, at)
    {
      var at: nat :| at in order[..|order|] && EndsLast(target, intervals, locations, s, at);
    }
  }

  lemma AfterExpiry(target: Target, intervals: seq<Interval>, order: seq<nat>, k: nat, locations: seq<Location>,
                    spillCount: nat, active: seq<nat>, remaining: seq<nat>, regFree: seq<bool>)
    requires k < |order| && target.Valid() && forall v: nat :: v in order ==> v < |intervals| && intervals[v].Used()
    requires Placed(target, intervals, order, k, locations, spillCount)
    requires ActiveHold(remaining, locations, regFree)
    requires k > 0 ==> ActiveAt(intervals, order, k, locations, active, intervals[order[k - 1]].start)
    requires k == 0 ==> active == []
    requires forall v :: v in active ==> v < |intervals|
    requires forall v :: v in remaining <==> v in active && intervals[v].end >= intervals[order[k]].start
    ensures ReadyToPlace(target, intervals, order, k, locations, spillCount, remaining, regFree)
  {
  }

  lemma NothingHeld(target: Target, intervals: seq<Interval>, locations: seq<Location>, regFree: seq<bool>)
    requires |regFree| == MAX_REGS && (forall r :: 0 <= r < MAX_REGS ==> regFree[r]) && |locations| == |intervals|
    requires forall v :: 0 <= v < |locations| ==> locations[v] == NoLocation
    ensures ActiveHold([], locations, regFree) && AllPreferred(target, intervals, locations)
  {
  }

  method Scan(target: Target, intervals: seq<Interval>) returns (locations: seq<Location>, spillCount: nat)
    requires target.Valid()
    ensures ValidAllocation(target, intervals, locations, spillCount)
    ensures AllPreferred(target, intervals, locations)
    ensures SpillsEndLast(target, intervals, locations)
    ensures spillCount > 0 ==> exists v: nat :: Crowded(target, intervals, v)
  {
    hide Placed, ActiveHold, AllPreferred, ValidAllocation, SpillsEndLast, Crowded, ReadyToPlace;
    var order := SortByStart(intervals);
    var places := new Location[|intervals|](_ => NoLocation);
    var regFree := new bool[MAX_REGS](_ => true);
    var active: seq<nat> := [];
    spillCount := 0;
    NothingPlaced(target, intervals, order, places[..]);
    NothingHeld(target, intervals, places[..], regFree[..]);
    for k := 0 to |order|
      invariant Placed(target, intervals, order, k, places[..], spillCount)
      invariant AllPreferred(target, intervals, places[..])
      invariant ActiveHold(active, places[..], regFree[..])
      invariant k > 0 ==> ActiveAt(intervals, order, k, places[..], active, intervals[order[k - 1]].start)
      invariant k == 0 ==> active == []
    {
      var remaining := Expire(intervals, places[..], regFree, active, intervals[order[k]].start);
      AfterExpiry(target, intervals, order, k, places[..], spillCount, active, remaining, regFree[..]);
      spillCount, active := PlaceNext(target, intervals, order, k, order[k], places, spillCount, remaining, regFree);
    }
    locations := places[..];
    AllPlaced(target, intervals, order, locations, spillCount);
  }
}
