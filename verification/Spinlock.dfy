/** The spinlock of lock.c, one instruction at a time, shared by any number of CPUs. Locked
    instructions are atomic steps in one global order. A CPU calls unlock only from inside its
    own critical section. */
module Spinlock {

  /** RFLAGS: the interrupt flag, the carry flag and all other bits. */
  datatype Flags = Flags(interrupts: bool, carry: bool, rest: nat)

  /** The next instruction of a CPU. Outside and Inside are the caller's own code, before the
      pushfq of a lock call and before the push of an unlock call. */
  datatype Place =
    | Outside
    | AtCli | AtTry | AtJnc
    | AtPause | AtTest | AtLoop | AtRetry | AtAgain
    | AtPop
    | Inside
    | AtRelease | AtPopfq

  /** caller records flags and stack at the CPU's last lock call; no instruction reads it. */
  datatype Cpu = Cpu(at: Place, flags: Flags, stack: seq<Flags>, caller: (Flags, seq<Flags>))

  datatype State = State(lock: bool, rflags: Flags, cpus: seq<Cpu>)

  /** Run executes the next instruction of lock or unlock. Prepare and Work are code outside
      and inside the critical section, which may leave any flags behind. */
  datatype Move = Run(undefined: nat) | Prepare(flags: Flags) | Work(flags: Flags)

  datatype Turn = Turn(cpu: nat, move: Move)

  /** The flags after a bit test: carry is the bit, the bits the manual leaves undefined are
      anything. */
  function Tested(f: Flags, bit: bool, undefined: nat): Flags {
    f.(carry := bit, rest := undefined)
  }

  function Last(stack: seq<Flags>): Flags {
    if stack == [] then Flags(false, false, 0) else stack[|stack| - 1]
  }

  function Popped(stack: seq<Flags>): seq<Flags> {
    if stack == [] then [] else stack[..|stack| - 1]
  }

  /** One instruction: what it does to the lock bit, the saved flags and its CPU. */
  function Execute(lock: bool, rflags: Flags, c: Cpu, undefined: nat): (bool, Flags, Cpu) {
    match c.at
    case Outside => (lock, rflags, Cpu(AtCli, c.flags, c.stack + [c.flags], (c.flags, c.stack)))
    case AtCli => (lock, rflags, c.(at := AtTry, flags := c.flags.(interrupts := false)))
    case AtTry => (true, rflags, c.(at := AtJnc, flags := Tested(c.flags, lock, undefined)))
    case AtJnc => (lock, rflags, c.(at := if c.flags.carry then AtPause else AtPop))
    case AtPause => (lock, rflags, c.(at := AtTest))
    case AtTest => (lock, rflags, c.(at := AtLoop, flags := Tested(c.flags, lock, undefined)))
    case AtLoop => (lock, rflags, c.(at := if c.flags.carry then AtPause else AtRetry))
    case AtRetry => (true, rflags, c.(at := AtAgain, flags := Tested(c.flags, lock, undefined)))
    case AtAgain => (lock, rflags, c.(at := if c.flags.carry then AtPause else AtPop))
    case AtPop => (lock, Last(c.stack), c.(at := Inside, stack := Popped(c.stack)))
    case Inside => (lock, rflags, c.(at := AtRelease, stack := c.stack + [rflags]))
    case AtRelease => (false, rflags, c.(at := AtPopfq, flags := Tested(c.flags, lock, undefined)))
    case AtPopfq => (lock, rflags, c.(at := Outside, flags := Last(c.stack), stack := Popped(c.stack)))
  }

  /** One turn; a turn that does not fit the CPU's place changes nothing. */
  function Step(s: State, t: Turn): (s': State)
    ensures |s'.cpus| == |s.cpus|
  {
    if t.cpu >= |s.cpus| then s
    else
      var c := s.cpus[t.cpu];
      match t.move
      case Run(u) =>
        var (lock, rflags, c') := Execute(s.lock, s.rflags, c, u);
        State(lock, rflags, s.cpus[t.cpu := c'])
      case Prepare(f) => if c.at.Outside? then s.(cpus := s.cpus[t.cpu := c.(flags := f)]) else s
      case Work(f) => if c.at.Inside? then s.(cpus := s.cpus[t.cpu := c.(flags := f)]) else s
  }

  /** The state after the first n turns of a schedule. */
  function After(s: State, schedule: seq<Turn>, n: nat): (s': State)
    requires n <= |schedule|
    ensures |s'.cpus| == |s.cpus|
  {
    if n == 0 then s else Step(After(s, schedule, n - 1), schedule[n - 1])
  }

  /** A lock made by LOCK_NEW, and no CPU in lock or unlock. */
  predicate Start(s: State) {
    !s.lock && forall i :: 0 <= i < |s.cpus| ==> s.cpus[i].at.Outside?
  }

  // ---------------------------------------------------------------- the invariant

  /** The CPU that set the bit, from its successful test until it clears the bit. */
  predicate Holds(c: Cpu) {
    || c.at.AtPop? || c.at.Inside? || c.at.AtRelease?
    || ((c.at.AtJnc? || c.at.AtAgain?) && !c.flags.carry)
  }

  /** Between its pushfq and its entry to the critical section. */
  predicate Acquiring(c: Cpu) {
    !c.at.Outside? && !c.at.Inside? && !c.at.AtRelease? && !c.at.AtPopfq?
  }

  predicate CpuInv(rflags: Flags, c: Cpu) {
    && (Acquiring(c) || c.at.AtRelease? || c.at.AtPopfq? ==> c.stack == c.caller.1 + [c.caller.0])
    && (c.at.Inside? ==> c.stack == c.caller.1 && rflags == c.caller.0)
    && (Acquiring(c) && !c.at.AtCli? ==> !c.flags.interrupts)
  }

  ghost predicate Inv(s: State) {
    && (forall i :: 0 <= i < |s.cpus| ==> CpuInv(s.rflags, s.cpus[i]))
    && (forall i :: 0 <= i < |s.cpus| && Holds(s.cpus[i]) ==> s.lock)
    && (s.lock ==> exists i :: 0 <= i < |s.cpus| && Holds(s.cpus[i]))
    && (forall i, j :: 0 <= i < |s.cpus| && 0 <= j < |s.cpus| && Holds(s.cpus[i]) && Holds(s.cpus[j]) ==> i == j)
  }

  /** What one instruction of a CPU keeps: its own part of the invariant, and the bit. */
  lemma ExecuteKeeps(s: State, i: nat, u: nat)
    requires Inv(s) && i < |s.cpus|
    ensures var (lock, rflags, c) := Execute(s.lock, s.rflags, s.cpus[i], u);
      && CpuInv(rflags, c)
      && (Holds(c) <==> lock && (Holds(s.cpus[i]) || !s.lock))
      && (!lock ==> Holds(s.cpus[i]) || !s.lock)
      && (rflags != s.rflags ==> Holds(s.cpus[i]))
  {
    var c := s.cpus[i];
    assert CpuInv(s.rflags, c);
    assert Holds(c) ==> s.lock;
    var pushed := c.caller.1 + [c.caller.0];
    assert Popped(pushed) == c.caller.1 && Last(pushed) == c.caller.0;
  }

  /** Every instruction of every CPU keeps the invariant. */
  lemma StepKeepsInv(s: State, t: Turn)
    requires Inv(s)
    ensures Inv(Step(s, t))
  {
    if t.cpu < |s.cpus| {
      var s' := Step(s, t);
      if t.move.Run? {
        ExecuteKeeps(s, t.cpu, t.move.undefined);
        hide Execute, Acquiring;
        RunKeepsInv(s, t);
      } else {
        hide Execute;
        assert forall i :: 0 <= i < |s.cpus| ==> (Holds(s'.cpus[i]) <==> Holds(s.cpus[i]));
        assert forall i :: 0 <= i < |s.cpus| ==> CpuInv(s.rflags, s.cpus[i]);
      }
    }
  }

  lemma RunKeepsInv(s: State, t: Turn)
    requires Inv(s) && t.cpu < |s.cpus| && t.move.Run?
    requires var (lock, rflags, c) := Execute(s.lock, s.rflags, s.cpus[t.cpu], t.move.undefined);
      && CpuInv(rflags, c)
      && (Holds(c) <==> lock && (Holds(s.cpus[t.cpu]) || !s.lock))
      && (!lock ==> Holds(s.cpus[t.cpu]) || !s.lock)
      && (rflags != s.rflags ==> Holds(s.cpus[t.cpu]))
    ensures Inv(Step(s, t))
  {
    var s' := Step(s, t);
    var k := t.cpu;
    hide Execute;
    forall i | 0 <= i < |s.cpus|
      ensures CpuInv(s'.rflags, s'.cpus[i])
    {
      if i != k {
        assert s'.cpus[i] == s.cpus[i] && CpuInv(s.rflags, s.cpus[i]);
        if s.cpus[i].at.Inside? {
          assert Holds(s.cpus[i]);
        }
      }
    }
    hide CpuInv, Holds;
    if s'.lock && !Holds(s'.cpus[k]) {
      var j :| 0 <= j < |s.cpus| && Holds(s.cpus[j]);
      assert Holds(s'.cpus[j]);
    }
    forall i | 0 <= i < |s.cpus| && i != k && Holds(s'.cpus[i])
      ensures s'.lock && !Holds(s'.cpus[k])
    {
      assert Holds(s.cpus[i]) && !Holds(s.cpus[k]);
    }
  }

  lemma {:induction false} InvInEveryState(s: State, schedule: seq<Turn>, n: nat)
    requires Start(s) && n <= |schedule|
    ensures Inv(After(s, schedule, n))
  {
    if n > 0 {
      InvInEveryState(s, schedule, n - 1);
      StepKeepsInv(After(s, schedule, n - 1), schedule[n - 1]);
    }
  }

  // ---------------------------------------------------------------- what callers rely on

  /** Whatever the schedule, at most one CPU is in the critical section, and the lock bit says
      whether some CPU holds the lock. */
  lemma MutualExclusion(s: State, schedule: seq<Turn>, n: nat, i: nat, j: nat)
    requires Start(s) && n <= |schedule| && i < |s.cpus| && j < |s.cpus|
    ensures var now := After(s, schedule, n);
      && (now.cpus[i].at.Inside? && now.cpus[j].at.Inside? ==> i == j)
      && (now.lock <==> exists k :: 0 <= k < |now.cpus| && Holds(now.cpus[k]))
  {
    InvInEveryState(s, schedule, n);
  }

  /** The turn executes the pushfq of a lock call. */
  predicate Calls(s: State, t: Turn, i: nat) {
    t.cpu == i < |s.cpus| && t.move.Run? && s.cpus[i].at.Outside?
  }

  /** The turn executes the popfq of an unlock call. */
  predicate Returns(s: State, t: Turn, i: nat) {
    t.cpu == i < |s.cpus| && t.move.Run? && s.cpus[i].at.AtPopfq?
  }

  lemma OnlyCallsRecord(s: State, t: Turn, i: nat)
    requires i < |s.cpus| && !Calls(s, t, i)
    ensures Step(s, t).cpus[i].caller == s.cpus[i].caller
  {
  }

  /** Until the next lock call of CPU i, its record stays that of the call at turn a. */
  lemma {:induction false} CallerStays(s: State, schedule: seq<Turn>, a: nat, n: nat, i: nat)
    requires a < n <= |schedule| && Calls(After(s, schedule, a), schedule[a], i)
    requires forall k :: a < k < n ==> !Calls(After(s, schedule, k), schedule[k], i)
    ensures i < |s.cpus|
    ensures var call := After(s, schedule, a).cpus[i];
      After(s, schedule, n).cpus[i].caller == (call.flags, call.stack)
  {
    var before := After(s, schedule, n - 1);
    assert After(s, schedule, n) == Step(before, schedule[n - 1]);
    hide After;
    if n > a + 1 {
      CallerStays(s, schedule, a, n - 1, i);
      OnlyCallsRecord(before, schedule[n - 1], i);
    }
  }

  /** A CPU that locked at turn a and unlocks at turn b has, after unlocking, exactly the flags
      and the stack it had when it called lock: no matter what the other CPUs stored in the
      shared rflags field in between, or what it did to its own flags inside. */
  lemma UnlockRestoresFlags(s: State, schedule: seq<Turn>, a: nat, b: nat, i: nat)
    requires Start(s) && a < b < |schedule|
    requires Calls(After(s, schedule, a), schedule[a], i) && Returns(After(s, schedule, b), schedule[b], i)
    requires forall k :: a < k < b ==> !Calls(After(s, schedule, k), schedule[k], i)
    ensures var call, done := After(s, schedule, a).cpus[i], After(s, schedule, b + 1).cpus[i];
      done.at.Outside? && done.flags == call.flags && done.stack == call.stack
  {
    var before := After(s, schedule, b);
    CallerStays(s, schedule, a, b, i);
    InvInEveryState(s, schedule, b);
    var c := before.cpus[i];
    assert CpuInv(before.rflags, c);
    assert c.stack == c.caller.1 + [c.caller.0];
    assert After(s, schedule, b + 1) == Step(before, schedule[b]);
  }

  /** The critical sections of a schedule leave interrupts off. */
  predicate Masked(schedule: seq<Turn>) {
    forall k :: 0 <= k < |schedule| ==> schedule[k].move.Work? ==> !schedule[k].move.flags.interrupts
  }

  lemma InterruptsStep(s: State, t: Turn, i: nat)
    requires i < |s.cpus| && (t.move.Work? ==> !t.move.flags.interrupts)
    requires s.cpus[i].flags.interrupts ==> s.cpus[i].at.Outside? || s.cpus[i].at.AtCli?
    ensures var c := Step(s, t).cpus[i];
      c.flags.interrupts ==> c.at.Outside? || c.at.AtCli?
  {
  }

  /** Then no CPU is interruptible from its cli until the popfq of its unlock. */
  lemma {:induction false} InterruptsStayOff(s: State, schedule: seq<Turn>, n: nat, i: nat)
    requires Start(s) && Masked(schedule) && n <= |schedule| && i < |s.cpus|
    ensures var c := After(s, schedule, n).cpus[i];
      c.flags.interrupts ==> c.at.Outside? || c.at.AtCli?
  {
    if n > 0 {
      InterruptsStayOff(s, schedule, n - 1, i);
      InterruptsStep(After(s, schedule, n - 1), schedule[n - 1], i);
    }
  }

  // ---------------------------------------------------------------- progress

  /** n instructions of CPU i alone. */
  function Solo(s: State, i: nat, n: nat): (s': State)
    ensures |s'.cpus| == |s.cpus|
    decreases n
  {
    if n == 0 then s else Solo(Step(s, Turn(i, Run(0))), i, n - 1)
  }

  /** Instructions a CPU still needs to get in when nobody else holds the lock. */
  function ToEnter(c: Cpu): nat {
    match c.at
    case AtCli => 4
    case AtTry => 3
    case AtJnc => if c.flags.carry then 7 else 2
    case AtPause => 6
    case AtTest => 5
    case AtLoop => if c.flags.carry then 7 else 4
    case AtRetry => 3
    case AtAgain => if c.flags.carry then 7 else 2
    case AtPop => 1
    case _ => 0
  }

  /** Left alone with a lock no other CPU holds, an acquiring CPU enters in that many steps. */
  lemma {:induction false} EntersAlone(s: State, i: nat)
    requires Inv(s) && i < |s.cpus| && Acquiring(s.cpus[i])
    requires s.lock ==> Holds(s.cpus[i])
    ensures ToEnter(s.cpus[i]) <= 7
    ensures Solo(s, i, ToEnter(s.cpus[i])).cpus[i].at.Inside?
    decreases ToEnter(s.cpus[i])
  {
    var s' := Step(s, Turn(i, Run(0)));
    StepKeepsInv(s, Turn(i, Run(0)));
    assert ToEnter(s.cpus[i]) == ToEnter(s'.cpus[i]) + 1;
    if Acquiring(s'.cpus[i]) {
      hide Inv;
      EntersAlone(s', i);
    }
  }

  /** While the lock is held, a CPU that failed to get it only reads: pause, the bit test and the
      jump back, with no locked instruction in between. */
  lemma WaitsReading(s: State, i: nat)
    requires s.lock && i < |s.cpus| && s.cpus[i].at.AtPause?
    ensures Solo(s, i, 1).cpus[i].at.AtTest? && Solo(s, i, 2).cpus[i].at.AtLoop? && Solo(s, i, 3).cpus[i].at.AtPause?
    ensures Solo(s, i, 3).lock
  {
    var s1 := Step(s, Turn(i, Run(0)));
    var s2 := Step(s1, Turn(i, Run(0)));
    assert Solo(s, i, 3) == Solo(s1, i, 2) == Solo(s2, i, 1);
    assert Solo(s, i, 2) == Solo(s1, i, 1);
  }

  /** Instructions the holder still needs to clear the bit, once its critical section is over. */
  function ToRelease(c: Cpu): nat {
    match c.at
    case AtJnc => 4
    case AtAgain => 4
    case AtPop => 3
    case Inside => 2
    case AtRelease => 1
    case _ => 0
  }

  lemma HolderStep(s: State, j: nat)
    requires j < |s.cpus| && Holds(s.cpus[j])
    ensures var s' := Step(s, Turn(j, Run(0)));
      && (forall i :: 0 <= i < |s.cpus| && i != j ==> s'.cpus[i] == s.cpus[i])
      && ToRelease(s.cpus[j]) == ToRelease(s'.cpus[j]) + 1
      && if s.cpus[j].at.AtRelease? then !s'.lock else Holds(s'.cpus[j])
  {
  }

  lemma {:induction false} ReleasesAlone(s: State, j: nat)
    requires Inv(s) && j < |s.cpus| && Holds(s.cpus[j])
    ensures var free := Solo(s, j, ToRelease(s.cpus[j]));
      && Inv(free) && !free.lock
      && forall i :: 0 <= i < |s.cpus| && i != j ==> free.cpus[i] == s.cpus[i]
    decreases ToRelease(s.cpus[j])
  {
    var s' := Step(s, Turn(j, Run(0)));
    StepKeepsInv(s, Turn(j, Run(0)));
    HolderStep(s, j);
    assert s.cpus[j].at.AtRelease? ==> ToRelease(s'.cpus[j]) == 0;
    hide Inv, Step, Holds, ToRelease;
    if !s.cpus[j].at.AtRelease? {
      ReleasesAlone(s', j);
    }
  }

  /** No deadlock: from every state of every run, any acquiring CPU can still get in, after at
      most 4 instructions of the CPU that holds the lock and 7 of its own. */
  lemma NoDeadlock(s: State, schedule: seq<Turn>, n: nat, i: nat)
    requires Start(s) && n <= |schedule| && i < |s.cpus|
    requires Acquiring(After(s, schedule, n).cpus[i])
    ensures exists j, k, m :: k <= 4 && m <= 7 && Solo(Solo(After(s, schedule, n), j, k), i, m).cpus[i].at.Inside?
  {
    var now := After(s, schedule, n);
    InvInEveryState(s, schedule, n);
    if now.lock && !Holds(now.cpus[i]) {
      var j :| 0 <= j < |now.cpus| && Holds(now.cpus[j]);
      ReleasesAlone(now, j);
      var free := Solo(now, j, ToRelease(now.cpus[j]));
      assert free.cpus[i] == now.cpus[i];
      EntersAlone(free, i);
      assert Solo(free, i, ToEnter(free.cpus[i])).cpus[i].at.Inside?;
    } else {
      EntersAlone(now, i);
      assert Solo(now, i, 0) == now;
      assert Solo(Solo(now, i, 0), i, ToEnter(now.cpus[i])).cpus[i].at.Inside?;
    }
  }
}
