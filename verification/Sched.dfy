/** The round-robin task switcher (kernel/src/sched/sched.c). A timer tick saves the interrupted state
    in the running thread's context and loads the next thread's. */
module Sched {
  import opened Bits

  /** The code selector of user mode. */
  const USER: nat := 0x43

  /** The interrupt frame: every register it holds, the code selector apart. */
  datatype Frame = Frame(cs: nat, registers: seq<nat>)

  /** What a tick finds and leaves in the processor: the frame on the stack, the FPU image, the `fs` and
      `gs` base registers and the page-table root. */
  datatype Live = Live(frame: Frame, fpu: seq<nat>, fs: nat, gs: nat, cr3: nat)

  /** What is kept of a thread. */
  datatype Saved = Saved(frame: Frame, fpu: seq<nat>, fs: nat, gs: nat, root: nat)

  /** The queue, the index of the running thread or -1, and the processor. */
  datatype State = State(threads: seq<Saved>, cur: int, live: Live)

  ghost predicate StateOk(s: State) {
    -1 <= s.cur < |s.threads|
  }

  /** `save_context`; the base registers are saved only if the context last loaded was in user mode. */
  function Save(th: Saved, live: Live): Saved {
    var bases := if th.frame.cs == USER then th.(fs := live.fs, gs := live.gs) else th;
    bases.(frame := live.frame, fpu := live.fpu)
  }

  /** `switch_context`; the base registers are loaded only if the context is in user mode. */
  function Load(live: Live, th: Saved): Live {
    var bases := if th.frame.cs == USER then live.(fs := th.fs, gs := th.gs) else live;
    bases.(frame := th.frame, fpu := th.fpu, cr3 := th.root)
  }

  /** `switch_task` */
  function Tick(s: State): (s': State)
    requires StateOk(s)
    ensures StateOk(s') && |s'.threads| == |s.threads|
  {
    if s.threads == [] then s
    else if s.cur == -1 then s.(cur := 0, live := Load(s.live, s.threads[0]))
    else
      var threads := s.threads[s.cur := Save(s.threads[s.cur], s.live)];
      var next := if s.cur + 1 < |threads| then s.cur + 1 else 0;
      State(threads, next, Load(s.live, threads[next]))
  }

  // --- The linked queue ------------------------------------------------------------------------

  class Thread {
    var frame: Frame
    var fpu: seq<nat>
    var fs: nat
    var gs: nat
    const root: nat
    var next: Thread?

    constructor (context: Frame, image: seq<nat>, fsBase: nat, gsBase: nat, pml4: nat)
      ensures Snapshot() == Saved(context, image, fsBase, gsBase, pml4) && next == null
    {
      frame, fpu, fs, gs, root, next := context, image, fsBase, gsBase, pml4, null;
    }

    function Snapshot(): Saved
      reads this
    {
      Saved(frame, fpu, fs, gs, root)
    }
  }

  ghost function Snapshots(q: seq<Thread>): (r: seq<Saved>)
    reads q
    ensures |r| == |q| && forall i :: 0 <= i < |q| ==> r[i] == q[i].Snapshot()
  {
    if q == [] then [] else Snapshots(q[..|q| - 1]) + [q[|q| - 1].Snapshot()]
  }

  ghost function NextOf(q: seq<Thread>, i: nat): Thread? {
    if i + 1 < |q| then q[i + 1] else null
  }

  ghost predicate Linked(q: seq<Thread>)
    reads q
  {
    forall i :: 0 <= i < |q| ==> q[i].next == NextOf(q, i)
  }

  class Scheduler {
    var startOfQueue: Thread?
    var current: Thread?
    var live: Live
    ghost var queue: seq<Thread>
    ghost var cur: int

    /** The threads in order, linked from the start of the queue to NULL. */
    ghost predicate Valid()
      reads this, queue
    {
      && (forall i, j :: 0 <= i < j < |queue| ==> queue[i] != queue[j])
      && startOfQueue == (if queue == [] then null else queue[0])
      && Linked(queue)
      && -1 <= cur < |queue| && current == (if cur == -1 then null else queue[cur])
    }

    ghost function Now(): State
      reads this, queue
    {
      State(Snapshots(queue), cur, live)
    }

    constructor (boot: Live)
      ensures Valid() && queue == [] && Now() == State([], -1, boot)
    {
      startOfQueue, current, live, queue, cur := null, null, boot, [], -1;
    }

    /** A new thread goes in front, before the first tick. */
    method AddFirst(th: Thread)
      requires Valid() && cur == -1 && th !in queue
      modifies this, th
      ensures Valid() && queue == [th] + old(queue) && live == old(live) && cur == -1
      ensures Snapshots(queue) == [old(th.Snapshot())] + old(Snapshots(queue))
    {
      th.next := startOfQueue;
      startOfQueue := th;
      queue := [th] + queue;
    }

    /** `save_context`, and the base registers of a user thread. */
    method SaveCurrent()
      requires Valid() && current != null
      modifies current`frame, current`fpu, current`fs, current`gs
      ensures Valid()
      ensures Snapshots(queue) == old(Snapshots(queue))[cur := Save(old(Snapshots(queue))[cur], live)]
    {
      hide Snapshots, Save;
      var th: Thread := current;
      ghost var before := Snapshots(queue);
      Store(th, live);
      assert forall i :: 0 <= i < |queue| && i != cur ==> queue[i] != th;
      hide Linked;
      assert Snapshots(queue) == before[cur := Save(before[cur], live)];
    }

    static method Store(th: Thread, live: Live)
      modifies th`frame, th`fpu, th`fs, th`gs
      ensures th.Snapshot() == Save(old(th.Snapshot()), live)
    {
      if th.frame.cs == USER {
        th.gs := live.gs;
        th.fs := live.fs;
      }
      th.frame := live.frame;
      th.fpu := live.fpu;
    }

    /** `switch_context` to the current thread, its base registers and its page tables. */
    method LoadCurrent()
      requires Valid() && current != null
      modifies this`live
      ensures Valid() && live == Load(old(live), Snapshots(queue)[cur])
    {
      live := live.(frame := current.frame, fpu := current.fpu);
      if current.frame.cs == USER {
        live := live.(gs := current.gs);
        live := live.(fs := current.fs);
      }
      live := live.(cr3 := current.root);
    }

    /** The next thread of the queue, or the first one. */
    method Advance()
      requires Valid() && queue != []
      modifies this`current, this`cur
      ensures Valid() && cur == if old(cur) + 1 < |queue| then old(cur) + 1 else 0
    {
      if current != null && current.next != null {
        current := current.next;
        cur := cur + 1;
      } else {
        current := startOfQueue;
        cur := 0;
      }
    }

    /** `switch_task` */
    method SwitchTask()
      requires Valid()
      modifies this, queue
      ensures Valid() && queue == old(queue) && Now() == Tick(old(Now()))
    {
      hide Snapshots, Linked, Save, Load;
      if current != null {
        SaveCurrent();
        Advance();
        LoadCurrent();
      } else if startOfQueue != null {
        Advance();
        LoadCurrent();
      }
    }
  }

  // --- Runs ------------------------------------------------------------------------------------

  /** The state after `k` ticks. Between ticks the processor state changes arbitrarily: `ins[k]` is what
      tick `k` finds. */
  function After(s: State, ins: seq<Live>, k: nat): (s': State)
    requires StateOk(s) && k <= |ins|
    ensures StateOk(s') && |s'.threads| == |s.threads|
  {
    if k == 0 then s else Tick(After(s, ins, k - 1).(live := ins[k - 1]))
  }

  /** Once dispatching has started the threads take turns. */
  lemma {:induction false} Turns(s: State, ins: seq<Live>, k: nat)
    requires StateOk(s) && s.cur == -1 && s.threads != [] && 0 < k <= |ins|
    ensures After(s, ins, k).cur == (k - 1) % |s.threads|
  {
    hide Tick;
    var n := |s.threads|;
    var before := After(s, ins, k - 1).(live := ins[k - 1]);
    TickTurn(before);
    if k == 1 {
      assert After(s, ins, 0) == s;
      FirstTurn(n);
    } else {
      Turns(s, ins, k - 1);
      NextTurn(k - 2, n);
    }
  }

  lemma FirstTurn(n: nat)
    requires n > 0
    ensures 0 % n == 0
  {}

  lemma TickTurn(s: State)
    requires StateOk(s) && s.threads != []
    ensures Tick(s).cur == if s.cur + 1 < |s.threads| then s.cur + 1 else 0
  {}

  lemma NextTurn(j: nat, n: nat)
    requires n > 0
    ensures (j + 1) % n == if j % n + 1 < n then j % n + 1 else 0
  {
    var q, r := j / n, j % n;
    if r + 1 < n {
      QuotientIs(j + 1, n, q, r + 1);
    } else {
      assert (q + 1) * n == q * n + n;
      QuotientIs(j + 1, n, q + 1, 0);
    }
  }

  lemma SameRemainder(a: nat, b: nat, n: nat)
    requires n > 0 && a <= b < a + n && a % n == b % n
    ensures a == b
  {
    var qa, qb := a / n, b / n;
    assert b - a == (qb - qa) * n;
    if qb > qa {
      MulMono(n, 1, qb - qa);
    }
  }

  /** Fairness: every window of `n` ticks dispatches each of the `n` threads exactly once. */
  lemma Window(s: State, ins: seq<Live>, m: nat, i: nat) returns (tick: nat)
    requires StateOk(s) && s.cur == -1 && i < |s.threads| && 0 < m && m + |s.threads| <= |ins| + 1
    ensures m <= tick < m + |s.threads| && After(s, ins, tick).cur == i
    ensures forall k :: m <= k < m + |s.threads| && k != tick ==> After(s, ins, k).cur != i
  {
    hide After;
    var n := |s.threads|;
    var r := (m - 1) % n;
    tick := if i >= r then m + (i - r) else m + (i - r + n);
    Shift(m - 1, n, i);
    Turns(s, ins, tick);
    forall k | m <= k < m + n && k != tick ensures After(s, ins, k).cur != i {
      Turns(s, ins, k);
      if (k - 1) % n == i {
        if k < tick { SameRemainder(k - 1, tick - 1, n); } else { SameRemainder(tick - 1, k - 1, n); }
      }
    }
  }

  lemma Shift(a: nat, n: nat, i: nat)
    requires i < n
    ensures var r := a % n; (a + if i >= r then i - r else i - r + n) % n == i
  {
    var q, r := a / n, a % n;
    if i >= r {
      QuotientIs(a + (i - r), n, q, i);
    } else {
      assert (q + 1) * n == q * n + n;
      QuotientIs(a + (i - r + n), n, q + 1, i);
    }
  }

  /** A thread that is not running keeps its context. */
  lemma {:induction false} Kept(s: State, ins: seq<Live>, i: nat, a: nat, b: nat)
    requires StateOk(s) && i < |s.threads| && a <= b <= |ins|
    requires forall k :: a <= k < b ==> After(s, ins, k).cur != i
    ensures After(s, ins, b).threads[i] == After(s, ins, a).threads[i]
    decreases b
  {
    if a < b {
      Kept(s, ins, i, a, b - 1);
      hide After;
      KeptOnce(After(s, ins, b - 1).(live := ins[b - 1]), i);
      AfterTick(s, ins, b);
    }
  }

  lemma AfterTick(s: State, ins: seq<Live>, k: nat)
    requires StateOk(s) && 0 < k <= |ins|
    ensures StateOk(After(s, ins, k - 1).(live := ins[k - 1]))
    ensures After(s, ins, k) == Tick(After(s, ins, k - 1).(live := ins[k - 1]))
  {
    hide Tick;
  }

  lemma KeptOnce(s: State, i: nat)
    requires StateOk(s) && i < |s.threads| && s.cur != i
    ensures Tick(s).threads[i] == s.threads[i]
  {}

  /** What a tick does to the thread it interrupts and to the processor. */
  lemma TickParts(s: State)
    requires StateOk(s) && s.cur >= 0
    ensures var t := Tick(s);
            && t.threads == s.threads[s.cur := Save(s.threads[s.cur], s.live)]
            && 0 <= t.cur && t.live == Load(s.live, t.threads[t.cur])
  {}

  lemma AfterParts(s: State, ins: seq<Live>, k: nat)
    requires StateOk(s) && 0 < k <= |ins| && After(s, ins, k - 1).cur >= 0
    ensures var a, b := After(s, ins, k - 1), After(s, ins, k);
            && b.threads == a.threads[a.cur := Save(a.threads[a.cur], ins[k - 1])]
            && 0 <= b.cur && b.live == Load(ins[k - 1], b.threads[b.cur])
  {
    hide After, Tick, Save, Load;
    AfterTick(s, ins, k);
    TickParts(After(s, ins, k - 1).(live := ins[k - 1]));
  }

  /** Between two dispatches of a thread it does not run. */
  lemma Waiting(s: State, ins: seq<Live>, p: nat, i: nat)
    requires StateOk(s) && s.cur == -1 && i < |s.threads| && 0 < p && p + |s.threads| <= |ins| && i == (p - 1) % |s.threads|
    ensures |s.threads| > 1 ==> After(s, ins, p + |s.threads| - 1).threads[i] == After(s, ins, p + 1).threads[i]
    ensures |s.threads| > 1 ==> After(s, ins, p + |s.threads| - 1).cur != i
  {
    hide After;
    var n := |s.threads|;
    if n > 1 {
      forall k | p + 1 <= k < p + n ensures After(s, ins, k).cur != i {
        Turns(s, ins, k);
        if (k - 1) % n == i {
          SameRemainder(p - 1, k - 1, n);
        }
      }
      Kept(s, ins, i, p + 1, p + n - 1);
    }
  }

  /** The state loaded at a redispatch is the one saved at the last preemption. */
  lemma Redispatch(s: State, ins: seq<Live>, m: nat, i: nat)
    requires StateOk(s) && s.cur == -1 && s.threads != [] && |s.threads| < m <= |ins| && i == (m - 1) % |s.threads|
    ensures var p := m - |s.threads|;
            && After(s, ins, m).cur == i == After(s, ins, p).cur
            && After(s, ins, m).live == Load(ins[m - 1], Save(After(s, ins, p).threads[i], ins[p]))
            && After(s, ins, p).threads[i].frame == After(s, ins, p).live.frame
  {
    hide After, Tick, Save, Load;
    var n := |s.threads|;
    var p := m - n;
    SameTurn(m - 1, n);
    Turns(s, ins, p);
    Turns(s, ins, m);
    Turns(s, ins, m - 1);
    Waiting(s, ins, p, i);
    AfterTick(s, ins, p);
    Loaded(After(s, ins, p - 1).(live := ins[p - 1]));
    AfterParts(s, ins, p + 1);
    AfterParts(s, ins, m);
  }

  lemma SameTurn(j: nat, n: nat)
    requires n > 0 && j >= n
    ensures (j - n) % n == j % n
  {
    QuotientIs(j - n, n, j / n - 1, j % n);
  }

  /** The first time a thread is dispatched it finds the frame, the FPU image and the page tables it was
      queued with; and its base registers if its context is in user mode, otherwise those that are there. */
  lemma FirstDispatch(s: State, ins: seq<Live>, k: nat)
    requires StateOk(s) && s.cur == -1 && 0 < k <= |s.threads| && k <= |ins|
    ensures var th, out := s.threads[k - 1], After(s, ins, k).live;
            && out.frame == th.frame && out.fpu == th.fpu && out.cr3 == th.root
            && (if th.frame.cs == USER then out.fs == th.fs && out.gs == th.gs else out.fs == ins[k - 1].fs && out.gs == ins[k - 1].gs)
  {
    var i := k - 1;
    forall j: nat | 0 <= j < k ensures After(s, ins, j).cur == j - 1 {
      if j > 0 {
        Turns(s, ins, j);
        Small(j - 1, |s.threads|);
      }
    }
    Turns(s, ins, k);
    Small(i, |s.threads|);
    Kept(s, ins, i, 0, k - 1);
    AfterTick(s, ins, k);
    var before := After(s, ins, k - 1).(live := ins[k - 1]);
    assert After(s, ins, 0) == s;
    hide After;
    if k > 1 {
      TickParts(before);
    }
  }

  lemma Small(a: nat, n: nat)
    requires a < n
    ensures a % n == a
  {}

  /** Without threads a tick changes nothing. */
  lemma NothingToRun(s: State, ins: seq<Live>, k: nat)
    requires StateOk(s) && s.threads == [] && 0 < k <= |ins|
    ensures After(s, ins, k).live == ins[k - 1] && After(s, ins, k).cur == -1
  {}

  /** The context loaded by a tick is the current thread's. */
  lemma Loaded(s: State)
    requires StateOk(s) && s.threads != []
    ensures Tick(s).cur >= 0 && Tick(s).threads[Tick(s).cur].frame == Tick(s).live.frame
  {}

  /** A redispatched thread finds its frame, its FPU image and its page tables as they were at its last
      preemption, over every run. If it was in user mode both then and when it was dispatched before
      that, it finds its `fs` and `gs` bases too. */
  lemma Restores(s: State, ins: seq<Live>, m: nat)
    requires StateOk(s) && s.cur == -1 && s.threads != [] && |s.threads| < m <= |ins|
    ensures var p := m - |s.threads|;
            var out := After(s, ins, m).live;
            && out.frame == ins[p].frame && out.fpu == ins[p].fpu
            && out.cr3 == After(s, ins, p).live.cr3
            && (ins[p].frame.cs == USER && After(s, ins, p).live.frame.cs == USER ==>
                  out.fs == ins[p].fs && out.gs == ins[p].gs)
  {
    var n := |s.threads|;
    var p := m - n;
    var i := (m - 1) % n;
    Redispatch(s, ins, m, i);
    LoadedRoot(s, ins, p);
    hide After, Tick;
  }

  /** The page tables in use are those of the thread dispatched. */
  lemma LoadedRoot(s: State, ins: seq<Live>, k: nat)
    requires StateOk(s) && s.threads != [] && 0 < k <= |ins|
    ensures After(s, ins, k).cur >= 0
    ensures After(s, ins, k).live.cr3 == After(s, ins, k).threads[After(s, ins, k).cur].root
  {
    AfterTick(s, ins, k);
    RootLoaded(After(s, ins, k - 1).(live := ins[k - 1]));
    hide After, Tick;
  }

  lemma RootLoaded(s: State)
    requires StateOk(s) && s.threads != []
    ensures Tick(s).cur >= 0 && Tick(s).live.cr3 == Tick(s).threads[Tick(s).cur].root
  {}

  /** Where the base registers come from in general: a thread preempted in user mode that had been
      dispatched in kernel mode gets back older ones, and one preempted in kernel mode keeps those of
      the thread that ran last. */
  lemma Bases(s: State, ins: seq<Live>, m: nat)
    requires StateOk(s) && s.cur == -1 && s.threads != [] && |s.threads| < m <= |ins|
    ensures var p := m - |s.threads|;
            var out, before := After(s, ins, m).live, After(s, ins, p);
            && before.cur >= 0
            && (ins[p].frame.cs != USER ==> out.fs == ins[m - 1].fs && out.gs == ins[m - 1].gs)
            && (ins[p].frame.cs == USER && before.live.frame.cs != USER ==>
                  out.fs == before.threads[before.cur].fs && out.gs == before.threads[before.cur].gs)
  {
    Redispatch(s, ins, m, (m - 1) % |s.threads|);
    hide After, Tick;
  }

  /** A run in which a user thread does not get its `fs` base back: it was dispatched in kernel mode and
      set its base on the way to user mode, where it was preempted. */
  lemma StaleBase(s: State, ins: seq<Live>)
    requires s == State([Saved(Frame(0x28, []), [], 1, 1, 0)], -1, Live(Frame(0x28, []), [], 0, 0, 0))
    requires ins == [s.live, Live(Frame(USER, []), [], 2, 2, 0)]
    ensures StateOk(s) && ins[1].frame.cs == USER && After(s, ins, 2).live.fs == 1 != ins[1].fs
  {
    AfterTick(s, ins, 1);
    AfterTick(s, ins, 2);
    assert After(s, ins, 0) == s;
    hide After;
  }

  /** A run in which a thread preempted in kernel mode finds the `fs` base of the other thread. */
  lemma OthersBase(s: State, ins: seq<Live>)
    requires s == State([Saved(Frame(USER, []), [], 1, 1, 0), Saved(Frame(USER, []), [], 9, 9, 0)], -1, Live(Frame(0x28, []), [], 0, 0, 0))
    requires ins == [s.live, Live(Frame(0x28, []), [], 2, 2, 0), Live(Frame(USER, []), [], 9, 9, 0)]
    ensures StateOk(s) && After(s, ins, 3).cur == After(s, ins, 1).cur && After(s, ins, 3).live.fs == 9 != ins[1].fs
  {
    AfterTick(s, ins, 1);
    AfterTick(s, ins, 2);
    AfterTick(s, ins, 3);
    assert After(s, ins, 0) == s;
    hide After;
  }

  lemma {:induction false} SamePast(s: State, ins: seq<Live>, ins': seq<Live>, k: nat)
    requires StateOk(s) && k <= |ins| == |ins'| && forall j :: 0 <= j < k ==> ins'[j] == ins[j]
    ensures After(s, ins', k) == After(s, ins, k)
  {
    if k > 0 {
      SamePast(s, ins, ins', k - 1);
      hide Tick;
    }
  }

  /** The run in which the thread preempted by tick `p + 1` had these base registers. */
  function WithBases(ins: seq<Live>, p: nat, fs: nat, gs: nat): (r: seq<Live>)
    requires p < |ins|
    ensures |r| == |ins|
  {
    ins[p := ins[p].(fs := fs, gs := gs)]
  }

  /** The thread is in user mode both when it is preempted and when it was dispatched before, or it is alone
      and preempted in kernel mode. */
  ghost predicate KeepsBases(s: State, ins: seq<Live>, m: nat)
    requires StateOk(s) && s.threads != [] && |s.threads| < m <= |ins|
  {
    var p := m - |s.threads|;
    if ins[p].frame.cs == USER then After(s, ins, p).live.frame.cs == USER else |s.threads| == 1
  }

  /** With these base registers at its preemption, the thread finds them again. */
  ghost predicate BasesBack(s: State, ins: seq<Live>, m: nat, fs: nat, gs: nat)
    requires StateOk(s) && s.threads != [] && |s.threads| < m <= |ins|
  {
    var out := After(s, WithBases(ins, m - |s.threads|, fs, gs), m).live;
    out.fs == fs && out.gs == gs
  }

  /** Exactly then a thread finds its base registers again whatever it has put there. */
  lemma BasesReturn(s: State, ins: seq<Live>, m: nat)
    requires StateOk(s) && s.cur == -1 && s.threads != [] && |s.threads| < m <= |ins|
    ensures KeepsBases(s, ins, m) <==> forall fs: nat, gs: nat :: BasesBack(s, ins, m, fs, gs)
  {
    if KeepsBases(s, ins, m) {
      forall fs: nat, gs: nat ensures BasesBack(s, ins, m, fs, gs) {
        BasesWith(s, ins, m, fs, gs);
      }
    } else {
      BasesWith(s, ins, m, FsInstead(s, ins, m) + 1, 0);
      assert !BasesBack(s, ins, m, FsInstead(s, ins, m) + 1, 0);
    }
  }

  /** The base a thread finds when it does not get its own. */
  ghost function FsInstead(s: State, ins: seq<Live>, m: nat): nat
    requires StateOk(s) && s.threads != [] && |s.threads| < m <= |ins|
  {
    var p := m - |s.threads|;
    var before := After(s, ins, p);
    if ins[p].frame.cs == USER && before.cur >= 0 then before.threads[before.cur].fs else ins[m - 1].fs
  }

  lemma BasesWith(s: State, ins: seq<Live>, m: nat, fs: nat, gs: nat)
    requires StateOk(s) && s.cur == -1 && s.threads != [] && |s.threads| < m <= |ins|
    ensures var out := After(s, WithBases(ins, m - |s.threads|, fs, gs), m).live;
            if KeepsBases(s, ins, m) then out.fs == fs && out.gs == gs else out.fs == FsInstead(s, ins, m)
  {
    var p := m - |s.threads|;
    var ins' := WithBases(ins, p, fs, gs);
    SamePast(s, ins, ins', p);
    hide After, Tick;
    Restores(s, ins', m);
    Bases(s, ins', m);
  }
}
