/** The log of kernel mappings and the address spaces rebuilt from it. */
module Replay {
  import opened Words
  import opened Tables
  import opened Ranges

  /** MEM_MAP. */
  datatype Record = Record(virt: Word, phys: Word, flags: Word, n: nat) {
    function Pages(): set<nat> {
      RangePages(virt, n)
    }
  }

  function Apply(pages: map<nat, Leaf>, r: Record): map<nat, Leaf> {
    MapRange(pages, r.virt, r.phys, r.n, r.flags)
  }

  /** What mapping the records of a log one after the other produces. */
  function ReplayLog(log: seq<Record>): map<nat, Leaf> {
    if log == [] then map[]
    else Apply(ReplayLog(log[..|log| - 1]), log[|log| - 1])
  }

  /** The first record at address v. */
  function FindRecord(log: seq<Record>, v: Word): (i: nat)
    ensures i <= |log|
    ensures i < |log| ==> log[i].virt == v
    ensures forall j :: 0 <= j < i ==> log[j].virt != v
  {
    if log == [] then 0
    else if log[0].virt == v then 0
    else 1 + FindRecord(log[1..], v)
  }

  /** vector_erase at the first record for v, if there is one. */
  function EraseRecord(log: seq<Record>, v: Word): seq<Record> {
    var i := FindRecord(log, v);
    if i < |log| then log[..i] + log[i + 1..] else log
  }

  /** The kernel's own mappings: pages mapped, and the log. */
  datatype History = History(pages: map<nat, Leaf>, log: seq<Record>)

  datatype Op = Map(r: Record) | Unmap(v: Word, n: nat)

  /** vm_map(NULL, ...) and vm_unmap(NULL, ...). */
  function Step(h: History, op: Op): History {
    match op
    case Map(r) => History(Apply(h.pages, r), h.log + [r])
    case Unmap(v, n) => History(UnmapRange(h.pages, v, n), EraseRecord(h.log, v))
  }

  // ---------------------------------------------------------------- replay, record by record

  lemma ReplaySnoc(log: seq<Record>, r: Record)
    ensures ReplayLog(log + [r]) == Apply(ReplayLog(log), r)
  {
    assert (log + [r])[..|log|] == log;
  }

  lemma {:induction false} ReplayKeys(log: seq<Record>, w: nat)
    ensures w in ReplayLog(log) <==> exists j :: 0 <= j < |log| && w in log[j].Pages()
  {
    if log != [] {
      var front, last := log[..|log| - 1], log[|log| - 1];
      ReplayKeys(front, w);
      MapRangeKeys(ReplayLog(front), last.virt, last.phys, last.n, last.flags);
      assert forall j :: 0 <= j < |front| ==> front[j] == log[j];
    }
  }

  /** A record that does not cover w does not matter for w. */
  lemma {:induction false} ReplayWithout(log: seq<Record>, i: nat, w: nat)
    requires i < |log| && w !in log[i].Pages()
    ensures w in ReplayLog(log) <==> w in ReplayLog(log[..i] + log[i + 1..])
    ensures w in ReplayLog(log) ==> ReplayLog(log)[w] == ReplayLog(log[..i] + log[i + 1..])[w]
  {
    var front, last := log[..|log| - 1], log[|log| - 1];
    var less := log[..i] + log[i + 1..];
    hide RangePages, MapRange;
    if i == |log| - 1 {
      assert less == front;
      ApplyElsewhere(ReplayLog(front), last, w);
    } else {
      var less' := front[..i] + front[i + 1..];
      assert less == less' + [last];
      ReplaySnoc(less', last);
      ReplayWithout(front, i, w);
      ApplyAt(ReplayLog(front), ReplayLog(less'), last, w);
    }
  }

  lemma ApplyElsewhere(pages: map<nat, Leaf>, r: Record, w: nat)
    requires w !in r.Pages()
    ensures w in Apply(pages, r) <==> w in pages
    ensures w in pages ==> Apply(pages, r)[w] == pages[w]
  {
    MapRangeKeys(pages, r.virt, r.phys, r.n, r.flags);
  }

  /** Two maps that agree at w agree at w after the same record. */
  lemma ApplyAt(a: map<nat, Leaf>, b: map<nat, Leaf>, r: Record, w: nat)
    requires w in a <==> w in b
    requires w in a ==> a[w] == b[w]
    ensures w in Apply(a, r) <==> w in Apply(b, r)
    ensures w in Apply(a, r) ==> Apply(a, r)[w] == Apply(b, r)[w]
  {
    MapRangeAt(a, b, r.virt, r.phys, r.n, r.flags, w);
  }

  lemma {:induction false} MapRangeAt(a: map<nat, Leaf>, b: map<nat, Leaf>, v: Word, phys: Word, n: nat, flags: Word,
                                      w: nat)
    requires w in a <==> w in b
    requires w in a ==> a[w] == b[w]
    ensures w in MapRange(a, v, phys, n, flags) <==> w in MapRange(b, v, phys, n, flags)
    ensures w in MapRange(a, v, phys, n, flags) ==>
      MapRange(a, v, phys, n, flags)[w] == MapRange(b, v, phys, n, flags)[w]
  {
    hide RangePage, Offset, AlignDown;
    if n > 0 {
      MapRangeAt(a, b, v, phys, n - 1, flags, w);
    }
  }

  // ---------------------------------------------------------------- unmapping a record

  /** Records a and b touch a common 2 MiB region. */
  ghost predicate ShareRegion(a: Record, b: Record) {
    exists w, u :: w in a.Pages() && u in b.Pages() && TableOf(w) == TableOf(u)
  }

  /** Unmapping the whole of recorded range i: the log still reproduces the kernel's pages if
      and only if no other live record touches a 2 MiB region of that range. */
  lemma UnmapReplayExact(log: seq<Record>, i: nat)
    requires i < |log| && FindRecord(log, log[i].virt) == i
    ensures var h := Step(History(ReplayLog(log), log), Unmap(log[i].virt, log[i].n));
      h.pages == ReplayLog(h.log) <==> forall j :: 0 <= j < |log| && j != i ==> !ShareRegion(log[i], log[j])
  {
    var after := UnmapRange(ReplayLog(log), log[i].virt, log[i].n);
    assert Step(History(ReplayLog(log), log), Unmap(log[i].virt, log[i].n)) == History(after, log[..i] + log[i + 1..]);
    hide RangePages, UnmapRange, TableOf, ReplayLog, ShareRegion, Step;
    forall u
      ensures u in after <==> u in ReplayLog(log) && forall w :: w in log[i].Pages() ==> TableOf(w) != TableOf(u)
      ensures u in after ==> after[u] == ReplayLog(log)[u]
    {
      UnmappedRecord(log, i, u);
    }
    if j :| 0 <= j < |log| && j != i && ShareRegion(log[i], log[j]) {
      SomethingShared(log, i, j, after);
    } else {
      NothingShared(log, i, after);
    }
  }

  lemma SomethingShared(log: seq<Record>, i: nat, j: nat, after: map<nat, Leaf>)
    requires i < |log| && j < |log| && j != i && ShareRegion(log[i], log[j])
    requires forall u :: u in after ==> forall w :: w in log[i].Pages() ==> TableOf(w) != TableOf(u)
    ensures after != ReplayLog(log[..i] + log[i + 1..])
  {
    hide RangePages, TableOf, ReplayLog;
    var w, u :| w in log[i].Pages() && u in log[j].Pages() && TableOf(w) == TableOf(u);
    InLess(log, i, j, u);
    assert u !in after;
  }

  lemma NothingShared(log: seq<Record>, i: nat, after: map<nat, Leaf>)
    requires i < |log| && forall j :: 0 <= j < |log| && j != i ==> !ShareRegion(log[i], log[j])
    requires forall u ::
      u in after <==> u in ReplayLog(log) && forall w :: w in log[i].Pages() ==> TableOf(w) != TableOf(u)
    requires forall u :: u in after ==> u in ReplayLog(log) && after[u] == ReplayLog(log)[u]
    ensures after == ReplayLog(log[..i] + log[i + 1..])
  {
    var less := log[..i] + log[i + 1..];
    hide RangePages, TableOf, ReplayLog, ShareRegion;
    forall u
      ensures u in after <==> u in ReplayLog(less)
      ensures u in after ==> after[u] == ReplayLog(less)[u]
    {
      KeptOutside(log, i, u);
    }
  }

  lemma UnmappedRecord(log: seq<Record>, i: nat, u: nat)
    requires i < |log|
    ensures var after := UnmapRange(ReplayLog(log), log[i].virt, log[i].n);
      && (u in after <==> u in ReplayLog(log) && forall w :: w in log[i].Pages() ==> TableOf(w) != TableOf(u))
      && (u in after ==> after[u] == ReplayLog(log)[u])
  {
    hide UnmapRange, TableOf, RangePages, ReplayLog;
    UnmapRangeExact(ReplayLog(log), log[i].virt, log[i].n, u);
    forall w | w in log[i].Pages()
      ensures w in ReplayLog(log)
    {
      ReplayKeys(log, w);
    }
  }

  lemma InLess(log: seq<Record>, i: nat, j: nat, u: nat)
    requires i < |log| && j < |log| && i != j && u in log[j].Pages()
    ensures u in ReplayLog(log[..i] + log[i + 1..])
  {
    var less := log[..i] + log[i + 1..];
    hide RangePages;
    ReplayKeys(less, u);
    assert less[if j < i then j else j - 1] == log[j];
  }

  /** With no shared region, a page is reproduced without record i exactly when it is not in
      a region of record i. */
  lemma KeptOutside(log: seq<Record>, i: nat, u: nat)
    requires i < |log| && forall j :: 0 <= j < |log| && j != i ==> !ShareRegion(log[i], log[j])
    ensures var less := log[..i] + log[i + 1..];
      && (u in ReplayLog(less) <==>
            u in ReplayLog(log) && forall w :: w in log[i].Pages() ==> TableOf(w) != TableOf(u))
      && (u in ReplayLog(less) ==> ReplayLog(less)[u] == ReplayLog(log)[u])
  {
    var less := log[..i] + log[i + 1..];
    hide RangePages, TableOf, ReplayLog;
    if u in ReplayLog(less) {
      ReplayKeys(less, u);
      var j :| 0 <= j < |less| && u in less[j].Pages();
      var j' := if j < i then j else j + 1;
      assert less[j] == log[j'];
      assert !ShareRegion(log[i], log[j']);
    }
    if forall w :: w in log[i].Pages() ==> TableOf(w) != TableOf(u) {
      assert u !in log[i].Pages();
      ReplayWithout(log, i, u);
    }
  }

  // ---------------------------------------------------------------- histories

  /** A step that keeps the log faithful: any vm_map, or a vm_unmap of one whole live record
      that shares no region with another. */
  ghost predicate Faithful(h: History, op: Op) {
    match op
    case Map(_) => true
    case Unmap(v, n) =>
      var i := FindRecord(h.log, v);
      && i < |h.log| && h.log[i].n == n
      && forall j :: 0 <= j < |h.log| && j != i ==> !ShareRegion(h.log[i], h.log[j])
  }

  function Run(ops: seq<Op>): History {
    if ops == [] then History(map[], [])
    else Step(Run(ops[..|ops| - 1]), ops[|ops| - 1])
  }

  ghost predicate AllFaithful(ops: seq<Op>) {
    forall i :: 0 <= i < |ops| ==> Faithful(Run(ops[..i]), ops[i])
  }

  /** Every history of faithful steps from an empty space leaves a log that reproduces the
      kernel's pages. */
  lemma {:induction false} LogReproduces(ops: seq<Op>)
    requires AllFaithful(ops)
    ensures Run(ops).pages == ReplayLog(Run(ops).log)
  {
    if ops != [] {
      var front, last := ops[..|ops| - 1], ops[|ops| - 1];
      assert forall i :: 0 <= i < |front| ==> front[..i] == ops[..i];
      LogReproduces(front);
      var h := Run(front);
      assert Faithful(h, last);
      match last
      case Map(r) => ReplaySnoc(h.log, r);
      case Unmap(v, n) => UnmapReplayExact(h.log, FindRecord(h.log, v));
    }
  }

  /** Two records in one region: after unmapping the first, the log still maps a page that the
      kernel has lost. */
  lemma SharedRegionDiverges()
    ensures var log := [Record(0x1000, 0x8000, VM_DEFAULT, 1), Record(0x2000, 0x9000, VM_DEFAULT, 1)];
      var h := Step(History(ReplayLog(log), log), Unmap(0x1000, 1));
      2 in ReplayLog(h.log) && 2 !in h.pages
  {
    var a, b := Record(0x1000, 0x8000, VM_DEFAULT, 1), Record(0x2000, 0x9000, VM_DEFAULT, 1);
    var log := [a, b];
    RangePageIs(0x1000, 0);
    RangePageIs(0x2000, 0);
    OneRangePage(0x1000);
    OneRangePage(0x2000);
    UnmappedRecord(log, 0, 2);
    assert 1 in a.Pages() && TableOf(1) == TableOf(2);
    InLess(log, 0, 1, 2);
    assert EraseRecord(log, 0x1000) == log[..0] + log[1..];
  }

  lemma OneRangePage(v: Word)
    ensures RangePages(v, 1) == {RangePage(v, 0)}
  {
    assert RangePages(v, 0) == {};
  }
}
