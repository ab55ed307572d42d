/** Calls of vm_map and vm_unmap as the kernel makes them: on one space, and for the kernel's own
    space with a record appended to, or erased from, the log. */
module Calls {
  import opened Words
  import opened Wrappers
  import opened Frames
  import opened Growth
  import opened Tables
  import opened TableSteps
  import opened Mapping
  import opened Unmapping
  import opened Ranges
  import opened Replay
  import opened Systems

  /** sizeof(MEM_MAP), an element of global_mem_map. */
  const RECORD_SIZE: nat := 32

  /** One call of vm_map; it is logged when the address space is null. */
  datatype Call = Call(r: Record, logged: bool)

  /** Flags mark pages present, and the byte count of the range does not wrap. */
  predicate GoodRecord(r: Record) {
    GoodFlags(r.flags) && r.n * PAGE_SIZE < TWO64
  }

  predicate GoodLog(rs: seq<Record>) {
    forall r :: r in rs ==> GoodRecord(r)
  }

  // ---------------------------------------------------------------- sequences of calls

  function Records(calls: seq<Call>): seq<Record> {
    if calls == [] then [] else Records(calls[..|calls| - 1]) + [calls[|calls| - 1].r]
  }

  /** The records they leave in the log. */
  function Logged(calls: seq<Call>): seq<Record> {
    if calls == [] then []
    else
      var front := Logged(calls[..|calls| - 1]);
      if calls[|calls| - 1].logged then front + [calls[|calls| - 1].r] else front
  }

  /** A call for each record, all of them logged or none. */
  function CallsOf(rs: seq<Record>, logged: bool): (calls: seq<Call>)
    ensures |calls| == |rs|
  {
    if rs == [] then [] else CallsOf(rs[..|rs| - 1], logged) + [Call(rs[|rs| - 1], logged)]
  }

  lemma CallsSnoc(calls: seq<Call>, c: Call)
    ensures Records(calls + [c]) == Records(calls) + [c.r]
    ensures Logged(calls + [c]) == if c.logged then Logged(calls) + [c.r] else Logged(calls)
  {
    assert (calls + [c])[..|calls|] == calls;
  }

  lemma {:induction false} CallsOfAre(calls: seq<Call>, rs: seq<Record>, logged: bool)
    ensures Records(calls + CallsOf(rs, logged)) == Records(calls) + rs
    ensures Logged(calls + CallsOf(rs, logged)) == if logged then Logged(calls) + rs else Logged(calls)
  {
    hide Records, Logged;
    if rs == [] {
      assert calls + CallsOf(rs, logged) == calls;
    } else {
      var front, r := rs[..|rs| - 1], rs[|rs| - 1];
      CallsOfAre(calls, front, logged);
      CallsSnoc(calls + CallsOf(front, logged), Call(r, logged));
      assert calls + CallsOf(rs, logged) == calls + CallsOf(front, logged) + [Call(r, logged)];
      assert rs == front + [r];
    }
  }

  lemma {:induction false} RecordsMembers(calls: seq<Call>)
    ensures forall c :: c in calls ==> c.r in Records(calls)
    ensures forall r :: r in Logged(calls) ==> r in Records(calls)
  {
    if calls != [] {
      var front, c := calls[..|calls| - 1], calls[|calls| - 1];
      RecordsMembers(front);
      assert calls == front + [c];
    }
  }

  // ---------------------------------------------------------------- vm_map

  /** vector_append to the log. */
  function LogAppend(st: Store, lv: Vec, len: nat): Outcome<(Store, Vec)> {
    var (free, vec) :- Grow(st.free, st.limit, lv, len + 1, RECORD_SIZE);
    Done((st.(free := free), vec))
  }

  /** vm_map on space sp, with a log of len records in lv. */
  function MapCall(st: Store, lv: Vec, len: nat, sp: Space, c: Call): Outcome<(Store, Vec, Space)> {
    var (st1, lv1) :- if c.logged then LogAppend(st, lv, len) else Done((st, lv));
    var (st', sp') :- VmMap(st1, sp, c.r.virt, c.r.phys, c.r.n, c.r.flags);
    Done((st', lv1, sp'))
  }

  /** One call after the other, on the same space. */
  function MapCalls(st: Store, lv: Vec, len: nat, sp: Space, calls: seq<Call>): Outcome<(Store, Vec, Space)> {
    if calls == [] then Done((st, lv, sp))
    else
      var front := calls[..|calls| - 1];
      var (st1, lv1, sp1) :- MapCalls(st, lv, len, sp, front);
      MapCall(st1, lv1, len + |Logged(front)|, sp1, calls[|calls| - 1])
  }

  /** What a call keeps: the root, the tables of other spaces, and all managed pages. */
  ghost predicate KeptAll(st: Store, vecs: map<Holder, Vec>, sp: Space, sh: Shape,
                          st': Store, vecs': map<Holder, Vec>, sp': Space, sh': Shape) {
    Frame(st, sh, st', sh') && ManagedAll(st', vecs') == ManagedAll(st, vecs) && sp'.root == sp.root
  }

  lemma KeptAllTrans(st: Store, vecs: map<Holder, Vec>, sp: Space, sh: Shape,
                     st1: Store, vecs1: map<Holder, Vec>, sp1: Space, sh1: Shape,
                     st2: Store, vecs2: map<Holder, Vec>, sp2: Space, sh2: Shape)
    requires KeptAll(st, vecs, sp, sh, st1, vecs1, sp1, sh1) && KeptAll(st1, vecs1, sp1, sh1, st2, vecs2, sp2, sh2)
    ensures KeptAll(st, vecs, sp, sh, st2, vecs2, sp2, sh2)
  {
    hide ManagedAll;
  }

  /** Space i and the log among all holders of vectors. */
  ghost predicate Here(vecs: map<Holder, Vec>, i: nat, lv: Vec, sp: Space) {
    TheLog in vecs && vecs[TheLog] == lv && ListOf(i) in vecs && vecs[ListOf(i)] == sp.vec
  }

  ghost function Moved(vecs: map<Holder, Vec>, i: nat, lv: Vec, sp: Space): map<Holder, Vec> {
    vecs[TheLog := lv][ListOf(i) := sp.vec]
  }

  /** Good states of one space and the log in the midst of all else. */
  ghost predicate CallReady(st: Store, rest: set<nat>, vecs: map<Holder, Vec>, i: nat, lv: Vec, sp: Space, sh: Shape) {
    Housed(st, rest, vecs) && Here(vecs, i, lv, sp) && SpaceInv(st, sp, sh)
  }

  lemma LogAppendKeeps(st: Store, rest: set<nat>, vecs: map<Holder, Vec>, i: nat, lv: Vec, len: nat, sp: Space,
                       sh: Shape)
    requires CallReady(st, rest, vecs, i, lv, sp, sh)
    ensures !LogAppend(st, lv, len).Fault?
    ensures LogAppend(st, lv, len).Done? ==>
      var (st1, lv1) := LogAppend(st, lv, len).value;
      && CallReady(st1, rest, vecs[TheLog := lv1], i, lv1, sp, sh)
      && KeptAll(st, vecs, sp, sh, st1, vecs[TheLog := lv1], sp, sh)
      && lv1.cap == NextCap(lv.cap, len + 1, RECORD_SIZE)
  {
    hide Housed, Placed, Grow, GrowHalts, VecPages, ManagedWith, Around, NextCap, ManagedAll, SpaceInv;
    GrowOrHalt(st.free, st.limit, lv, len + 1, RECORD_SIZE);
    if LogAppend(st, lv, len).Done? {
      var (st1, lv1) := LogAppend(st, lv, len).value;
      GrowFits(st.free, st.limit, lv, len + 1, RECORD_SIZE);
      PlaceOne(st, rest, vecs, TheLog);
      GrowKeeps(st, lv, Around(rest, vecs, TheLog), len + 1, RECORD_SIZE);
      assert VecsApart(vecs, rest, st1.limit) by { HousedApart(st, rest, vecs); }
      PlaceBack(st1, rest, vecs, TheLog, lv1);
      ManagedStays(st, st1, vecs, TheLog, lv1);
      SpaceByTables(st, st1, sp, sh);
    }
  }

  lemma SpaceByTables(st: Store, st': Store, sp: Space, sh: Shape)
    requires SpaceInv(st, sp, sh) && st'.tables == st.tables
    ensures SpaceInv(st', sp, sh)
  {
    hide Coherent, Tight, Listed, Fits;
  }

  lemma HousedApart(st: Store, rest: set<nat>, vecs: map<Holder, Vec>)
    requires Housed(st, rest, vecs)
    ensures VecsApart(vecs, rest, st.limit)
  {
  }

  lemma MapKeeps(st: Store, rest: set<nat>, vecs: map<Holder, Vec>, i: nat, lv: Vec, sp: Space, sh: Shape, r: Record)
      returns (sh': Shape)
    requires CallReady(st, rest, vecs, i, lv, sp, sh) && GoodRecord(r)
    ensures !VmMap(st, sp, r.virt, r.phys, r.n, r.flags).Fault?
    ensures VmMap(st, sp, r.virt, r.phys, r.n, r.flags).Done? ==>
      var (st', sp') := VmMap(st, sp, r.virt, r.phys, r.n, r.flags).value;
      && CallReady(st', rest, Moved(vecs, i, lv, sp'), i, lv, sp', sh')
      && KeptAll(st, vecs, sp, sh, st', Moved(vecs, i, lv, sp'), sp', sh')
      && sh'.pages == Apply(sh.pages, r) && Grown(sh, RangeKeys(r.virt, r.n), sh') && ListGrown(sp, sp')
  {
    hide Housed, Placed, SpaceInv, VmMap, VecPages, ManagedWith, Around, ManagedAll, MapRange, ListGrown, Grown,
      RangeKeys;
    PlaceOne(st, rest, vecs, ListOf(i));
    sh' := VmMapCorrect(st, Around(rest, vecs, ListOf(i)), sp, sh, r.virt, r.phys, r.n, r.flags);
    if VmMap(st, sp, r.virt, r.phys, r.n, r.flags).Done? {
      var (st', sp') := VmMap(st, sp, r.virt, r.phys, r.n, r.flags).value;
      HousedApart(st, rest, vecs);
      PlaceBack(st', rest, vecs, ListOf(i), sp'.vec);
      ManagedStays(st, st', vecs, ListOf(i), sp'.vec);
      assert Moved(vecs, i, lv, sp') == vecs[ListOf(i) := sp'.vec];
    }
  }

  /** Capacity of the log's block after some calls. */
  function LogCap(lv: Vec, len: nat, calls: seq<Call>): nat {
    CapAfter(lv.cap, len, |Logged(calls)|, RECORD_SIZE)
  }

  /** One call of vm_map keeps everything in its place, adds its range to the space, and lets the
      log grow by its record if it is logged. */
  lemma MapCallCorrect(st: Store, rest: set<nat>, vecs: map<Holder, Vec>, i: nat, lv: Vec, len: nat, sp: Space,
                       sh: Shape, c: Call) returns (sh': Shape)
    requires CallReady(st, rest, vecs, i, lv, sp, sh) && GoodRecord(c.r)
    ensures !MapCall(st, lv, len, sp, c).Fault?
    ensures MapCall(st, lv, len, sp, c).Done? ==>
      var (st', lv', sp') := MapCall(st, lv, len, sp, c).value;
      && CallReady(st', rest, Moved(vecs, i, lv', sp'), i, lv', sp', sh')
      && KeptAll(st, vecs, sp, sh, st', Moved(vecs, i, lv', sp'), sp', sh')
      && sh'.pages == Apply(sh.pages, c.r)
      && lv'.cap == if c.logged then NextCap(lv.cap, len + 1, RECORD_SIZE) else lv.cap
  {
    hide CallReady, VmMap, KeptAll, Apply, LogAppend, GoodRecord, NextCap, Grown, ListGrown, RangeKeys;
    sh' := sh;
    if c.logged {
      LogAppendKeeps(st, rest, vecs, i, lv, len, sp, sh);
      if LogAppend(st, lv, len).Done? {
        var (st1, lv1) := LogAppend(st, lv, len).value;
        sh' := MapKeeps(st1, rest, vecs[TheLog := lv1], i, lv1, sp, sh, c.r);
        if VmMap(st1, sp, c.r.virt, c.r.phys, c.r.n, c.r.flags).Done? {
          var (st', sp') := VmMap(st1, sp, c.r.virt, c.r.phys, c.r.n, c.r.flags).value;
          assert Moved(vecs[TheLog := lv1], i, lv1, sp') == Moved(vecs, i, lv1, sp');
          KeptAllTrans(st, vecs, sp, sh, st1, vecs[TheLog := lv1], sp, sh, st', Moved(vecs, i, lv1, sp'), sp', sh');
        }
      }
    } else {
      sh' := MapKeeps(st, rest, vecs, i, lv, sp, sh, c.r);
    }
  }

  lemma CallsStart(st: Store, rest: set<nat>, vecs: map<Holder, Vec>, i: nat, lv: Vec, sp: Space, sh: Shape)
    requires CallReady(st, rest, vecs, i, lv, sp, sh)
    ensures Moved(vecs, i, lv, sp) == vecs
    ensures KeptAll(st, vecs, sp, sh, st, vecs, sp, sh)
  {
    hide Housed, SpaceInv;
  }

  lemma MovedTwice(vecs: map<Holder, Vec>, i: nat, lv: Vec, sp: Space, lv': Vec, sp': Space)
    ensures Moved(Moved(vecs, i, lv, sp), i, lv', sp') == Moved(vecs, i, lv', sp')
  {
  }

  lemma LogCapStep(lv: Vec, len: nat, calls: seq<Call>)
    requires calls != []
    ensures var front, c := calls[..|calls| - 1], calls[|calls| - 1];
      LogCap(lv, len, calls)
        == if c.logged then NextCap(LogCap(lv, len, front), len + |Logged(front)| + 1, RECORD_SIZE)
           else LogCap(lv, len, front)
  {
    hide NextCap;
  }

  /** A sequence of calls on a space with no pages yields exactly the pages that their records
      stand for, and a log block for exactly the logged ones. */
  lemma {:induction false} MapCallsCorrect(st: Store, rest: set<nat>, vecs: map<Holder, Vec>, i: nat, lv: Vec, len: nat,
                                           sp: Space, sh: Shape, calls: seq<Call>) returns (sh': Shape)
    requires CallReady(st, rest, vecs, i, lv, sp, sh) && sh.pages == map[] && GoodLog(Records(calls))
    ensures !MapCalls(st, lv, len, sp, calls).Fault?
    ensures MapCalls(st, lv, len, sp, calls).Done? ==>
      var (st', lv', sp') := MapCalls(st, lv, len, sp, calls).value;
      && CallReady(st', rest, Moved(vecs, i, lv', sp'), i, lv', sp', sh')
      && KeptAll(st, vecs, sp, sh, st', Moved(vecs, i, lv', sp'), sp', sh')
      && sh'.pages == ReplayLog(Records(calls))
      && lv'.cap == LogCap(lv, len, calls)
  {
    hide CallReady, KeptAll, MapCall, Apply, GoodRecord, Moved, LogCap, NextCap, Logged;
    CallsStart(st, rest, vecs, i, lv, sp, sh);
    NoCalls(lv, len);
    sh' := sh;
    if calls != [] {
      var front, c := calls[..|calls| - 1], calls[|calls| - 1];
      assert calls == front + [c];
      CallsSnoc(front, c);
      ReplaySnoc(Records(front), c.r);
      LogCapStep(lv, len, calls);
      FrontGood(Records(front), c.r);
      var sh1 := MapCallsCorrect(st, rest, vecs, i, lv, len, sp, sh, front);
      if MapCalls(st, lv, len, sp, front).Done? {
        var (st1, lv1, sp1) := MapCalls(st, lv, len, sp, front).value;
        var vecs1 := Moved(vecs, i, lv1, sp1);
        sh' := MapCallCorrect(st1, rest, vecs1, i, lv1, len + |Logged(front)|, sp1, sh1, c);
        if MapCall(st1, lv1, len + |Logged(front)|, sp1, c).Done? {
          var (st', lv', sp') := MapCall(st1, lv1, len + |Logged(front)|, sp1, c).value;
          MovedTwice(vecs, i, lv1, sp1, lv', sp');
          KeptAllTrans(st, vecs, sp, sh, st1, vecs1, sp1, sh1, st', Moved(vecs, i, lv', sp'), sp', sh');
        }
      }
    }
  }

  lemma FrontGood(front: seq<Record>, r: Record)
    requires GoodLog(front + [r])
    ensures GoodLog(front) && GoodRecord(r)
  {
    hide GoodRecord;
    assert r in front + [r];
    forall x | x in front
      ensures GoodRecord(x)
    {
      assert x in front + [r];
    }
  }

  lemma NoCalls(lv: Vec, len: nat)
    ensures LogCap(lv, len, []) == lv.cap
  {
  }

  // ---------------------------------------------------------------- vm_unmap

  /** Erasing the record for v stays inside the log's block. */
  predicate LogDropSafe(limit: nat, lv: Vec, log: seq<Record>, v: Word) {
    var j := FindRecord(log, v);
    j < |log| ==> EraseSafe(limit, lv, RECORD_SIZE, |log|, j)
  }

  /** vm_unmap on space sp; a kernel unmap erases its first record from the log before. */
  function UnmapCall(st: Store, lv: Vec, log: seq<Record>, sp: Space, v: Word, n: nat, logged: bool)
      : Outcome<(Store, Space)> {
    if logged && !LogDropSafe(st.limit, lv, log, v) then Fault else VmUnmap(st, sp, v, n)
  }

  /** All erases of a vm_unmap stay inside the blocks of their vectors. */
  predicate UnmapSafe(limit: nat, lv: Vec, log: seq<Record>, sp: Space, sh: Shape, v: Word, n: nat, logged: bool) {
    (logged ==> LogDropSafe(limit, lv, log, v)) && DropsSafe(limit, sp.vec, sp.list, RangeBases(sh, v, n))
  }

  /** vm_unmap follows no bad address and never halts. It stays inside the pages it owns if and
      only if all its erases do; then it removes the touched regions from the space. */
  lemma UnmapCallCorrect(st: Store, rest: set<nat>, vecs: map<Holder, Vec>, i: nat, lv: Vec, log: seq<Record>,
                         sp: Space, sh: Shape, v: Word, n: nat, logged: bool)
    requires CallReady(st, rest, vecs, i, lv, sp, sh)
    ensures var r := UnmapCall(st, lv, log, sp, v, n, logged);
      var sh' := ClearedRange(sh, v, n);
      && !r.Halt?
      && (r.Done? <==> UnmapSafe(st.limit, lv, log, sp, sh, v, n, logged))
      && (r.Done? ==>
            var (st', sp') := r.value;
            && sp'.vec == sp.vec
            && CallReady(st', rest, vecs, i, lv, sp', sh') && KeptAll(st, vecs, sp, sh, st', vecs, sp', sh')
            && sh'.pages == UnmapRange(sh.pages, v, n))
  {
    hide Housed, Placed, SpaceInv, VmUnmap, VecPages, ManagedWith, Around, ManagedAll, UnmapRange, ClearedRange,
      LogDropSafe, DropsSafe, RangeBases, Shrunk, DropAll;
    PlaceOne(st, rest, vecs, ListOf(i));
    VmUnmapCorrect(st, Around(rest, vecs, ListOf(i)), sp, sh, v, n);
    if UnmapCall(st, lv, log, sp, v, n, logged).Done? {
      var (st', sp') := UnmapCall(st, lv, log, sp, v, n, logged).value;
      HousedApart(st, rest, vecs);
      PlaceBack(st', rest, vecs, ListOf(i), sp'.vec);
      ManagedStays(st, st', vecs, ListOf(i), sp'.vec);
      assert vecs == vecs[ListOf(i) := sp'.vec];
    }
  }

  /** Blocks with spare room for any erase are enough. */
  lemma RoomyIsUnmapSafe(st: Store, rest: set<nat>, vecs: map<Holder, Vec>, i: nat, lv: Vec, log: seq<Record>,
                         sp: Space, sh: Shape, v: Word, n: nat, logged: bool)
    requires CallReady(st, rest, vecs, i, lv, sp, sh) && RECORD_SIZE * |log| <= lv.cap
    requires Roomy(sp.vec, LIST_ENTRY, |sp.list|) && (logged ==> Roomy(lv, RECORD_SIZE, |log|))
    ensures UnmapSafe(st.limit, lv, log, sp, sh, v, n, logged)
  {
    hide EraseSafe, RangeBases, DropsSafe, Coherent, Tight, Listed, Separated, VecPages, LimitPages, Roomy, VecsPages;
    RoomyDropsSafe(st.limit, sp.vec, sp.list, RangeBases(sh, v, n));
    var j := FindRecord(log, v);
    if logged && j < |log| {
      RoomyIsSafe(st.limit, lv, RECORD_SIZE, |log|, j);
    }
  }
}
