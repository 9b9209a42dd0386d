/**
 The concurrent check queue (src/checkqueue.h).

 One master pushes batches of checks and then joins the pool from `Wait`; any
 number of workers run `Loop`.  Everything between taking and releasing the
 mutex is one step, every call of a check is one step, and so is every wake-up,
 so a run is an arbitrary interleaving of these.  Thread 0 is the master.
 */
module CheckQueue {
  import opened Basics

  /** A queued verification; `verdict` is what its operator() returns. */
  datatype Check = Check(id: nat, verdict: bool)

  predicate AllPass(checks: seq<Check>) {
    forall i :: 0 <= i < |checks| ==> checks[i].verdict
  }

  /** The members of the queue object that the mutex protects. */
  datatype Shared = Shared(queue: seq<Check>, nIdle: int, nTotal: int, fAllOk: bool, nTodo: int)

  datatype Config = Config(nBatchSize: nat, fQuit: bool)

  /** Where a thread is inside `Loop`, with the locals that matter there. */
  datatype Thread =
    | Outside
    | Starting                                               // entered Loop, nNow == 0
    | Asleep                                                 // in cond.wait, not notified
    | Awake                                                  // wait is over, wants the mutex
    | Running(nNow: nat, rest: seq<Check>, fOk: bool)        // `rest` of the batch is still to be run

  datatype System = System(sh: Shared, threads: seq<Thread>)

  /** What one critical section does besides updating the shared state. */
  datatype Effect = Effect(sh: Shared, next: Thread, notifyMaster: bool, returned: bool, verdict: bool)

  datatype Action =
    | Add(checks: seq<Check>, chosen: nat)   // `chosen` is whom notify_one picks
    | Enter(t: nat)                          // Thread() or Wait() is called
    | Section(t: nat)                        // from lock to unlock
    | RunCheck(t: nat)                       // one iteration of the batch loop
    | Spurious(t: nat)                       // a wait that returns unasked

  datatype Observation = Added(checks: seq<Check>) | WaitReturned(verdict: bool) | Nothing

  // ---------------------------------------------------------------- one critical section

  lemma {:induction false} TimesAtLeastOne(a: nat, b: nat)
    requires b >= 1
    ensures a * b >= a
  {
    if a > 0 { TimesAtLeastOne(a - 1, b); }
  }

  function Share(work: nat, hands: nat): (n: nat)
    requires hands >= 1
    ensures n <= work
  {
    TimesAtLeastOne(work / hands, hands);
    work / hands
  }

  /** Never empty, never more than is queued, and otherwise capped by the configured size. */
  function BatchSize(sh: Shared, cfg: Config): (n: nat)
    requires sh.queue != [] && sh.nTotal + sh.nIdle + 1 > 0
    ensures 1 <= n <= |sh.queue|
    ensures n > 1 ==> n <= cfg.nBatchSize
  {
    Max(1, Min(cfg.nBatchSize, Share(|sh.queue|, sh.nTotal + sh.nIdle + 1)))
  }

  /** The batch, in the order in which it is popped off the back of the queue. */
  function Popped(queue: seq<Check>, n: nat): (batch: seq<Check>)
    requires n <= |queue|
    ensures |batch| == n
  {
    seq(n, i requires 0 <= i < n => queue[|queue| - 1 - i])
  }

  /** The clean-up at the top of the critical section. */
  function CleanUp(sh: Shared, th: Thread): Shared
    requires th.Starting? || th.Running?
  {
    if th.Running? then sh.(fAllOk := sh.fAllOk && th.fOk, nTodo := sh.nTodo - th.nNow)
    else sh.(nTotal := sh.nTotal + 1)
  }

  /** From the head of the inner while loop to the release of the mutex. */
  function WaitOrTake(sh: Shared, cfg: Config, master: bool, notify: bool): Effect
    requires sh.nTotal + sh.nIdle + 1 > 0
  {
    if sh.queue == [] then
      if (master || cfg.fQuit) && sh.nTodo == 0 then
        var left := sh.(nTotal := sh.nTotal - 1);
        Effect(if master then left.(fAllOk := true) else left, Outside, notify, true, sh.fAllOk)
      else
        Effect(sh.(nIdle := sh.nIdle + 1), Asleep, notify, false, false)
    else
      var n := BatchSize(sh, cfg);
      Effect(sh.(queue := sh.queue[..|sh.queue| - n]),
             Running(n, Popped(sh.queue, n), sh.fAllOk), notify, false, false)
  }

  predicate CanLock(th: Thread) {
    th.Starting? || th.Awake? || (th.Running? && th.rest == [])
  }

  /** The arithmetic of the section is defined: no unsigned underflow, no division by zero. */
  predicate Defined(sh: Shared, th: Thread) {
    match th
    case Awake => sh.nTotal + sh.nIdle > 0
    case Starting => sh.nTotal + sh.nIdle + 2 > 0
    case Running(nNow, _, _) => sh.nTotal + sh.nIdle + 1 > 0 && nNow <= sh.nTodo
    case _ => true
  }

  function CriticalSection(sh: Shared, cfg: Config, master: bool, th: Thread): Effect
    requires CanLock(th) && Defined(sh, th)
  {
    if th.Awake? then
      WaitOrTake(sh.(nIdle := sh.nIdle - 1), cfg, master, false)
    else
      var clean := CleanUp(sh, th);
      WaitOrTake(clean, cfg, master, th.Running? && clean.nTodo == 0 && !master)
  }

  /** One iteration of the loop that runs a batch: after a failure the rest is skipped. */
  function RunOne(th: Thread): Thread
    requires th.Running? && th.rest != []
  {
    Running(th.nNow, th.rest[1..], if th.fOk then th.rest[0].verdict else th.fOk)
  }

  // ---------------------------------------------------------------- the whole system

  function Wake(threads: seq<Thread>, t: nat): (r: seq<Thread>)
    requires t < |threads|
    ensures |r| == |threads|
  {
    if threads[t].Asleep? then threads[t := Awake] else threads
  }

  /** condWorker.notify_all: every sleeping worker, but not the master at 0. */
  function WakeWorkers(threads: seq<Thread>): (r: seq<Thread>)
    ensures |r| == |threads|
  {
    seq(|threads|, i requires 0 <= i < |threads| =>
      if 0 < i && threads[i].Asleep? then Awake else threads[i])
  }

  predicate SomeWorkerAsleep(threads: seq<Thread>) {
    exists i :: 0 < i < |threads| && threads[i].Asleep?
  }

  predicate Enabled(s: System, a: Action)
    requires |s.threads| >= 1
  {
    match a
    case Add(checks, chosen) =>
      && s.threads[0].Outside?
      && (|checks| == 1 && SomeWorkerAsleep(s.threads) ==>
            0 < chosen < |s.threads| && s.threads[chosen].Asleep?)
    case Enter(t) => t < |s.threads| && s.threads[t].Outside?
    case Section(t) => t < |s.threads| && CanLock(s.threads[t])
    case RunCheck(t) => t < |s.threads| && s.threads[t].Running? && s.threads[t].rest != []
    case Spurious(t) => t < |s.threads| && s.threads[t].Asleep?
  }

  /** Which call on the workers' condition variable ends Add. */
  datatype Signal = NotifyNobody | NotifyOne | NotifyAll

  function Delivered(threads: seq<Thread>, signal: Signal, chosen: nat): (r: seq<Thread>)
    requires signal == NotifyOne && SomeWorkerAsleep(threads) ==> 0 < chosen < |threads|
    ensures |r| == |threads|
  {
    match signal
    case NotifyNobody => threads
    case NotifyOne => if SomeWorkerAsleep(threads) then Wake(threads, chosen) else threads
    case NotifyAll => WakeWorkers(threads)
  }

  /** One worker for a single check, all for more. */
  function SignalFor(n: nat): Signal {
    if n == 1 then NotifyOne else if n > 1 then NotifyAll else NotifyNobody
  }

  function Pushed(sh: Shared, checks: seq<Check>): Shared {
    sh.(queue := sh.queue + checks, nTodo := sh.nTodo + |checks|)
  }

  /** The counters of the queue object against what the threads really do. */
  ghost predicate Counts(s: System) {
    && s.sh.nTodo == |s.sh.queue| + Held(s.threads)
    && s.sh.nIdle == Idle(s.threads)
    && s.sh.nTotal == Total(s.threads)
  }

  ghost predicate Inv(s: System) {
    && |s.threads| >= 1
    && Counts(s)
    && (forall t :: 0 <= t < |s.threads| && s.threads[t].Running? ==>
          s.threads[t].nNow >= 1 && |s.threads[t].rest| <= s.threads[t].nNow)
    && (s.threads[0].Asleep? ==> s.sh.nTodo > 0 && s.sh.queue == [])
  }

  /** The system once thread t has left its critical section. */
  function After(s: System, t: nat, e: Effect): System
    requires t < |s.threads|
  {
    var threads := s.threads[t := e.next];
    System(e.sh, if e.notifyMaster then Wake(threads, 0) else threads)
  }

  function Next(s: System, cfg: Config, a: Action): (System, Observation)
    requires |s.threads| >= 1 && Enabled(s, a)
    requires a.Section? ==> Defined(s.sh, s.threads[a.t])
  {
    match a
    case Add(checks, chosen) =>
      (System(Pushed(s.sh, checks), Delivered(s.threads, SignalFor(|checks|), chosen)), Added(checks))
    case Enter(t) =>
      (s.(threads := s.threads[t := Starting]), Nothing)
    case Section(t) =>
      var e := CriticalSection(s.sh, cfg, t == 0, s.threads[t]);
      (After(s, t, e), if e.returned && t == 0 then WaitReturned(e.verdict) else Nothing)
    case RunCheck(t) =>
      (s.(threads := s.threads[t := RunOne(s.threads[t])]), Nothing)
    case Spurious(t) =>
      (s.(threads := Wake(s.threads, t)), Nothing)
  }

  // ---------------------------------------------------------------- counting threads

  function HeldBy(th: Thread): nat { if th.Running? then th.nNow else 0 }

  function IdleIn(th: Thread): nat { if th.Asleep? || th.Awake? then 1 else 0 }

  function TotalIn(th: Thread): nat { if th.Outside? || th.Starting? then 0 else 1 }

  function Held(threads: seq<Thread>): nat {
    if threads == [] then 0 else HeldBy(threads[0]) + Held(threads[1..])
  }

  function Idle(threads: seq<Thread>): nat {
    if threads == [] then 0 else IdleIn(threads[0]) + Idle(threads[1..])
  }

  function Total(threads: seq<Thread>): nat {
    if threads == [] then 0 else TotalIn(threads[0]) + Total(threads[1..])
  }

  /** How far a thread still is from being asleep or gone. */
  function EffortIn(th: Thread): nat {
    match th
    case Outside => 0
    case Starting => 2
    case Asleep => 0
    case Awake => 1
    case Running(_, rest, _) => 2 + |rest|
  }

  function Effort(threads: seq<Thread>): nat {
    if threads == [] then 0 else EffortIn(threads[0]) + Effort(threads[1..])
  }

  /** What the batches that threads hold will still contribute to the result. */
  predicate WillPass(th: Thread) {
    th.Running? ==> th.fOk && AllPass(th.rest)
  }

  predicate AllWillPass(threads: seq<Thread>) {
    forall t :: 0 <= t < |threads| ==> WillPass(threads[t])
  }

  lemma {:induction false} CountAt(threads: seq<Thread>, t: nat)
    requires t < |threads|
    ensures Held(threads) >= HeldBy(threads[t])
    ensures Idle(threads) >= IdleIn(threads[t])
    ensures Total(threads) >= TotalIn(threads[t])
  {
    if t > 0 { CountAt(threads[1..], t - 1); }
  }

  lemma {:induction false} CountUpdate(threads: seq<Thread>, t: nat, th: Thread)
    requires t < |threads|
    ensures var r := threads[t := th];
            && Held(r) == Held(threads) - HeldBy(threads[t]) + HeldBy(th)
            && Idle(r) == Idle(threads) - IdleIn(threads[t]) + IdleIn(th)
            && Total(r) == Total(threads) - TotalIn(threads[t]) + TotalIn(th)
            && Effort(r) == Effort(threads) - EffortIn(threads[t]) + EffortIn(th)
  {
    var r := threads[t := th];
    if t == 0 {
      assert r[1..] == threads[1..];
    } else {
      CountUpdate(threads[1..], t - 1, th);
      assert r[1..] == threads[1..][t - 1 := th];
    }
  }

  lemma {:induction false} CountWakeWorkers(threads: seq<Thread>, r: seq<Thread>)
    requires |threads| == |r|
    requires forall i :: 0 <= i < |r| ==> r[i] == threads[i] || (threads[i].Asleep? && r[i].Awake?)
    ensures Held(r) == Held(threads) && Idle(r) == Idle(threads) && Total(r) == Total(threads)
  {
    if threads != [] { CountWakeWorkers(threads[1..], r[1..]); }
  }

  lemma {:induction false} SomeoneHolds(threads: seq<Thread>) returns (t: nat)
    requires Held(threads) > 0
    ensures t < |threads| && threads[t].Running? && threads[t].nNow > 0
  {
    if HeldBy(threads[0]) > 0 {
      t := 0;
    } else {
      t := SomeoneHolds(threads[1..]);
      t := t + 1;
    }
  }

  // ---------------------------------------------------------------- every step keeps the invariant

  /** A critical section moves work and threads between the counters, and loses none of either. */
  ghost predicate Balanced(sh: Shared, master: bool, th: Thread, e: Effect) {
    && e.sh.nTodo - |e.sh.queue| - HeldBy(e.next) == sh.nTodo - |sh.queue| - HeldBy(th)
    && e.sh.nIdle - IdleIn(e.next) == sh.nIdle - IdleIn(th)
    && e.sh.nTotal - TotalIn(e.next) == sh.nTotal - TotalIn(th)
    && (e.next.Running? ==> e.next.nNow >= 1 && |e.next.rest| == e.next.nNow)
    && (sh.queue == [] ==> e.sh.queue == [])
    && (master && e.next.Asleep? ==> e.sh.queue == [] && e.sh.nTodo != 0)
    && (!master && e.sh.nTodo == 0 && th.Running? ==> e.notifyMaster)
    && (!th.Running? ==> e.sh.nTodo == sh.nTodo)
  }

  lemma BalancedKeepsInv(s: System, t: nat, e: Effect)
    requires Inv(s) && t < |s.threads|
    requires Balanced(s.sh, t == 0, s.threads[t], e)
    ensures Inv(After(s, t, e))
  {
    CountUpdate(s.threads, t, e.next);
    var threads := s.threads[t := e.next];
    if e.notifyMaster && threads[0].Asleep? {
      CountUpdate(threads, 0, Awake);
    }
  }

  /** Where the invariant holds, every step the control flow allows is also well defined. */
  lemma StepsAreDefined(s: System, a: Action)
    requires Inv(s) && Enabled(s, a)
    ensures a.Section? ==> Defined(s.sh, s.threads[a.t])
  {
    if a.Section? { CountAt(s.threads, a.t); }
  }

  lemma SectionKeepsInv(s: System, cfg: Config, t: nat)
    requires Inv(s) && Enabled(s, Section(t)) && Defined(s.sh, s.threads[t])
    ensures Inv(Next(s, cfg, Section(t)).0)
  {
    SectionBalances(s.sh, cfg, t == 0, s.threads[t]);
    hide Balanced, CriticalSection, After, Inv;
    BalancedKeepsInv(s, t, CriticalSection(s.sh, cfg, t == 0, s.threads[t]));
  }

  /** Every critical section balances its own counters. */
  lemma SectionBalances(sh: Shared, cfg: Config, master: bool, th: Thread)
    requires CanLock(th) && Defined(sh, th)
    ensures Balanced(sh, master, th, CriticalSection(sh, cfg, master, th))
  {
    hide BatchSize;
  }

  lemma StepKeepsInv(s: System, cfg: Config, a: Action)
    requires Inv(s) && Enabled(s, a)
    requires a.Section? ==> Defined(s.sh, s.threads[a.t])
    ensures Inv(Next(s, cfg, a).0)
  {
    match a
    case Add(checks, chosen) => AddKeepsInv(s, cfg, checks, chosen);
    case Enter(t) => CountUpdate(s.threads, t, Starting);
    case Section(t) => SectionKeepsInv(s, cfg, t);
    case RunCheck(t) => CountUpdate(s.threads, t, RunOne(s.threads[t]));
    case Spurious(t) => CountUpdate(s.threads, t, Awake);
  }

  lemma AddKeepsInv(s: System, cfg: Config, checks: seq<Check>, chosen: nat)
    requires Inv(s) && Enabled(s, Action.Add(checks, chosen))
    ensures Inv(Next(s, cfg, Action.Add(checks, chosen)).0)
  {
    CountWakeWorkers(s.threads, Delivered(s.threads, SignalFor(|checks|), chosen));
  }

  /** The verdict still to come out of the system is that of the checks of this session. */
  ghost predicate Owes(s: System, session: seq<Check>) {
    AllPass(session) <==> (s.sh.fAllOk && AllPass(s.sh.queue) && AllWillPass(s.threads))
  }

  function SessionAfter(session: seq<Check>, o: Observation): seq<Check> {
    match o
    case Added(checks) => session + checks
    case WaitReturned(_) => []
    case Nothing => session
  }

  lemma PoppedSplits(queue: seq<Check>, n: nat)
    requires n <= |queue|
    ensures AllPass(queue) <==> AllPass(queue[..|queue| - n]) && AllPass(Popped(queue, n))
  {
    var batch := Popped(queue, n);
    if AllPass(queue[..|queue| - n]) && AllPass(batch) {
      forall i | 0 <= i < |queue| ensures queue[i].verdict {
        if i < |queue| - n {
          assert queue[i] == queue[..|queue| - n][i];
        } else {
          assert queue[i] == batch[|queue| - 1 - i];
        }
      }
    }
  }

  lemma WillPassUpdate(threads: seq<Thread>, t: nat, th: Thread)
    requires t < |threads|
    ensures AllWillPass(threads) && WillPass(th) ==> AllWillPass(threads[t := th])
    ensures AllWillPass(threads[t := th]) && WillPass(threads[t]) ==> AllWillPass(threads)
    ensures AllWillPass(threads[t := th]) ==> WillPass(th)
  {
    var r := threads[t := th];
    if AllWillPass(r) {
      assert WillPass(r[t]);
      forall i | 0 <= i < |threads| && i != t ensures WillPass(threads[i]) {
        assert r[i] == threads[i];
      }
    }
  }

  /**
   What a critical section takes out of the queue and the finished batch it
   puts into the next one, unless it is the master's last.
   */
  ghost predicate Discharged(sh: Shared, master: bool, th: Thread, e: Effect) {
    if e.returned && master then
      && sh.queue == [] && e.next.Outside?
      && e.sh.queue == [] && e.sh.fAllOk && e.sh.nTodo == 0
      && e.verdict == (sh.fAllOk && WillPass(th))
    else
      (sh.fAllOk && AllPass(sh.queue) && WillPass(th)) ==
      (e.sh.fAllOk && AllPass(e.sh.queue) && WillPass(e.next))
  }

  lemma SectionDischarges(sh: Shared, cfg: Config, master: bool, th: Thread)
    requires CanLock(th) && Defined(sh, th)
    ensures Discharged(sh, master, th, CriticalSection(sh, cfg, master, th))
  {
    if sh.queue != [] {
      PoppedSplits(sh.queue, CriticalSection(sh, cfg, master, th).next.nNow);
    }
  }

  /** Nothing of the old session is left when `Wait` returns. */
  ghost predicate Quiet(s: System) {
    s.sh.queue == [] && s.sh.fAllOk && forall i :: 0 <= i < |s.threads| ==> !s.threads[i].Running?
  }

  lemma DischargedKeepsDebt(s: System, t: nat, e: Effect, session: seq<Check>)
    requires Inv(s) && Owes(s, session) && t < |s.threads|
    requires Discharged(s.sh, t == 0, s.threads[t], e)
    requires Inv(After(s, t, e))
    ensures if e.returned && t == 0 then e.verdict == AllPass(session) && Quiet(After(s, t, e))
            else Owes(After(s, t, e), session)
  {
    var threads := s.threads[t := e.next];
    WillPassUpdate(s.threads, t, e.next);
    if threads[0].Asleep? { WillPassUpdate(threads, 0, Awake); }
    if e.returned && t == 0 {
      var s' := After(s, t, e);
      forall i | 0 <= i < |s'.threads| ensures !s'.threads[i].Running? {
        CountAt(s'.threads, i);
      }
      assert forall i :: 1 <= i < |threads| ==> threads[i] == s.threads[i] && WillPass(threads[i]);
    }
  }

  lemma SectionKeepsDebt(s: System, cfg: Config, t: nat, session: seq<Check>)
    requires Inv(s) && Enabled(s, Section(t)) && Owes(s, session)
    requires Defined(s.sh, s.threads[t])
    ensures var (s', o) := Next(s, cfg, Section(t));
            && Owes(s', SessionAfter(session, o))
            && (o.WaitReturned? ==> o.verdict == AllPass(session) && Quiet(s'))
  {
    SectionDischarges(s.sh, cfg, t == 0, s.threads[t]);
    SectionKeepsInv(s, cfg, t);
    DischargedKeepsDebt(s, t, CriticalSection(s.sh, cfg, t == 0, s.threads[t]), session);
  }

  lemma StepKeepsDebt(s: System, cfg: Config, a: Action, session: seq<Check>)
    requires Inv(s) && Enabled(s, a) && Owes(s, session)
    requires a.Section? ==> Defined(s.sh, s.threads[a.t])
    ensures var (s', o) := Next(s, cfg, a); Owes(s', SessionAfter(session, o))
    ensures var (s', o) := Next(s, cfg, a); o.WaitReturned? ==> o.verdict == AllPass(session) && Quiet(s')
  {
    match a
    case Add(checks, chosen) => AddKeepsDebt(s, cfg, checks, chosen, session);
    case Enter(t) => WillPassUpdate(s.threads, t, Starting);
    case Section(t) => SectionKeepsDebt(s, cfg, t, session);
    case RunCheck(t) => RunKeepsDebt(s, t);
    case Spurious(t) => WillPassUpdate(s.threads, t, Awake);
  }

  lemma AddKeepsDebt(s: System, cfg: Config, checks: seq<Check>, chosen: nat, session: seq<Check>)
    requires Inv(s) && Enabled(s, Add(checks, chosen)) && Owes(s, session)
    ensures Owes(Next(s, cfg, Add(checks, chosen)).0, session + checks)
  {
    AllPassConcat(session, checks);
    AllPassConcat(s.sh.queue, checks);
    var r := Delivered(s.threads, SignalFor(|checks|), chosen);
    assert forall i :: 0 <= i < |r| ==> (WillPass(r[i]) <==> WillPass(s.threads[i]));
  }

  lemma AllPassConcat(a: seq<Check>, b: seq<Check>)
    ensures AllPass(a + b) <==> AllPass(a) && AllPass(b)
  {
    if AllPass(a + b) {
      forall i | 0 <= i < |a| ensures a[i].verdict { assert a[i] == (a + b)[i]; }
      forall i | 0 <= i < |b| ensures b[i].verdict { assert b[i] == (a + b)[|a| + i]; }
    }
  }

  lemma RunKeepsDebt(s: System, t: nat)
    requires t < |s.threads| && s.threads[t].Running? && s.threads[t].rest != []
    ensures AllWillPass(s.threads) <==> AllWillPass(s.threads[t := RunOne(s.threads[t])])
  {
    var th := s.threads[t];
    AllPassConcat([th.rest[0]], th.rest[1..]);
    assert th.rest == [th.rest[0]] + th.rest[1..];
    assert AllPass([th.rest[0]]) <==> th.rest[0].verdict;
    WillPassUpdate(s.threads, t, RunOne(th));
  }

  // ---------------------------------------------------------------- whole runs

  function Initial(n: nat): System {
    System(Shared([], 0, 0, true, 0), seq(n + 1, _ => Outside))
  }

  lemma {:induction false} CountOutside(threads: seq<Thread>)
    requires forall i :: 0 <= i < |threads| ==> threads[i].Outside?
    ensures Held(threads) == 0 && Idle(threads) == 0 && Total(threads) == 0
  {
    if threads != [] { CountOutside(threads[1..]); }
  }

  /** States and observations of a run from the empty queue with n workers. */
  datatype Trace = Trace(final: System, seen: seq<Observation>)

  predicate Possible(s: System, a: Action) {
    |s.threads| >= 1 && Enabled(s, a) && (a.Section? ==> Defined(s.sh, s.threads[a.t]))
  }

  ghost predicate IsRun(n: nat, cfg: Config, actions: seq<Action>, tr: Trace)
    decreases |actions|
  {
    if actions == [] then
      tr == Trace(Initial(n), [])
    else
      var last := |actions| - 1;
      exists mid: Trace ::
        && IsRun(n, cfg, actions[..last], mid)
        && Possible(mid.final, actions[last])
        && var (s, o) := Next(mid.final, cfg, actions[last]);
           tr == Trace(s, mid.seen + [o])
  }

  /** The checks added since `Wait` last returned. */
  function SessionOf(seen: seq<Observation>): seq<Check> {
    if seen == [] then [] else SessionAfter(SessionOf(seen[..|seen| - 1]), seen[|seen| - 1])
  }

  /** Every `Wait` in the run returned the conjunction of its own session. */
  ghost predicate WaitsAreExact(seen: seq<Observation>) {
    forall i :: 0 <= i < |seen| && seen[i].WaitReturned? ==>
      seen[i].verdict == AllPass(SessionOf(seen[..i]))
  }

  lemma {:induction false} RunsAreExact(n: nat, cfg: Config, actions: seq<Action>, tr: Trace)
    requires IsRun(n, cfg, actions, tr)
    ensures Inv(tr.final)
    ensures Owes(tr.final, SessionOf(tr.seen))
    ensures WaitsAreExact(tr.seen)
    ensures tr.seen != [] && tr.seen[|tr.seen| - 1].WaitReturned? ==> Quiet(tr.final)
    decreases |actions|
  {
    if actions == [] {
      CountOutside(Initial(n).threads);
    } else {
      var last := |actions| - 1;
      var mid: Trace :| IsRun(n, cfg, actions[..last], mid)
        && Possible(mid.final, actions[last])
        && tr == Trace(Next(mid.final, cfg, actions[last]).0, mid.seen + [Next(mid.final, cfg, actions[last]).1]);
      hide Inv, Owes, Next, WaitsAreExact, Quiet;
      RunsAreExact(n, cfg, actions[..last], mid);
      StepKeepsInv(mid.final, cfg, actions[last]);
      StepKeepsDebt(mid.final, cfg, actions[last], SessionOf(mid.seen));
      assert tr.seen[..|tr.seen| - 1] == mid.seen;
      WaitsExtend(mid.seen, Next(mid.final, cfg, actions[last]).1);
    }
  }

  lemma WaitsExtend(seen: seq<Observation>, o: Observation)
    requires WaitsAreExact(seen) && (o.WaitReturned? ==> o.verdict == AllPass(SessionOf(seen)))
    ensures WaitsAreExact(seen + [o])
  {
    hide SessionOf, AllPass;
    var more := seen + [o];
    forall i | 0 <= i < |more| && more[i].WaitReturned?
      ensures more[i].verdict == AllPass(SessionOf(more[..i]))
    {
      if i < |seen| {
        assert more[..i] == seen[..i] && more[i] == seen[i];
      } else {
        assert more[..i] == seen;
      }
    }
  }

  /** No run ever meets undefined arithmetic: whatever the control flow allows next extends it. */
  lemma RunExtends(n: nat, cfg: Config, actions: seq<Action>, tr: Trace, a: Action)
    requires IsRun(n, cfg, actions, tr)
    requires |tr.final.threads| >= 1 && Enabled(tr.final, a)
    ensures Possible(tr.final, a)
    ensures var (s, o) := Next(tr.final, cfg, a);
            IsRun(n, cfg, actions + [a], Trace(s, tr.seen + [o]))
  {
    RunsAreExact(n, cfg, actions, tr);
    StepsAreDefined(tr.final, a);
    var more := actions + [a];
    assert more[..|more| - 1] == actions && more[|more| - 1] == a;
    assert IsRun(n, cfg, more[..|more| - 1], tr);
  }

  /** While the master is inside `Wait`, some thread that nobody has to wake can move. */
  lemma WaitIsNeverStuck(s: System)
    requires Inv(s) && !s.threads[0].Outside?
    ensures exists t :: Enabled(s, Section(t)) || Enabled(s, RunCheck(t))
  {
    if s.threads[0].Asleep? {
      var t := SomeoneHolds(s.threads);
      assert Enabled(s, Section(t)) || Enabled(s, RunCheck(t));
    } else {
      assert Enabled(s, Section(0)) || Enabled(s, RunCheck(0));
    }
  }

  /** Work left: strictly smaller after every step that is not a call into the queue or a spurious wake-up. */
  function WorkLeft(s: System): nat {
    4 * |s.sh.queue| + Effort(s.threads)
  }

  lemma WorkShrinks(s: System, cfg: Config, a: Action)
    requires Inv(s) && Enabled(s, a) && (a.Section? || a.RunCheck?)
    requires a.Section? ==> Defined(s.sh, s.threads[a.t])
    ensures WorkLeft(Next(s, cfg, a).0) < WorkLeft(s)
  {
    if a.RunCheck? {
      CountUpdate(s.threads, a.t, RunOne(s.threads[a.t]));
    } else {
      var e := CriticalSection(s.sh, cfg, a.t == 0, s.threads[a.t]);
      SectionWorks(s.sh, cfg, a.t == 0, s.threads[a.t]);
      hide CriticalSection, Inv;
      CountUpdate(s.threads, a.t, e.next);
      var threads := s.threads[a.t := e.next];
      if threads[0].Asleep? { CountUpdate(threads, 0, Awake); }
    }
  }

  /** A section takes effort off the queue and its thread, with one step to spare for the master it may wake. */
  lemma SectionWorks(sh: Shared, cfg: Config, master: bool, th: Thread)
    requires CanLock(th) && Defined(sh, th)
    ensures var e := CriticalSection(sh, cfg, master, th);
            4 * |e.sh.queue| + EffortIn(e.next) + (if e.notifyMaster then 1 else 0) < 4 * |sh.queue| + EffortIn(th)
  {
    hide BatchSize;
  }

  /** A stretch of a run in which nobody calls into the queue and nobody wakes unasked. */
  ghost predicate Works(s: System, cfg: Config, actions: seq<Action>, s': System)
    decreases |actions|
  {
    if actions == [] then s' == s
    else
      && (actions[0].Section? || actions[0].RunCheck?)
      && Possible(s, actions[0])
      && Works(Next(s, cfg, actions[0]).0, cfg, actions[1..], s')
  }

  /** Such a stretch is no longer than the work left, and where it cannot go on the master is back from `Wait`. */
  lemma {:induction false} WaitReturnsInTime(s: System, cfg: Config, actions: seq<Action>, s': System)
    requires Inv(s) && Works(s, cfg, actions, s')
    ensures Inv(s') && |actions| + WorkLeft(s') <= WorkLeft(s)
    ensures (forall t :: !Enabled(s', Section(t)) && !Enabled(s', RunCheck(t))) ==> s'.threads[0].Outside?
    decreases |actions|
  {
    hide Inv, WorkLeft, Next;
    if actions != [] {
      StepKeepsInv(s, cfg, actions[0]);
      WorkShrinks(s, cfg, actions[0]);
      WaitReturnsInTime(Next(s, cfg, actions[0]).0, cfg, actions[1..], s');
    } else {
      InvHasMaster(s);
      if !s.threads[0].Outside? { WaitIsNeverStuck(s); }
    }
  }

  lemma InvHasMaster(s: System)
    requires Inv(s)
    ensures |s.threads| >= 1
  {}

  // ---------------------------------------------------------------- the code of the queue object

  /** The batch loop runs checks until the first failure; its result is the conjunction. */
  method RunBatch(vChecks: seq<Check>, fAllOk: bool) returns (fOk: bool)
    ensures fOk == (fAllOk && AllPass(vChecks))
  {
    fOk := fAllOk;
    for i := 0 to |vChecks|
      invariant fOk == (fAllOk && AllPass(vChecks[..i]))
    {
      assert vChecks[..i + 1] == vChecks[..i] + [vChecks[i]];
      AllPassConcat(vChecks[..i], [vChecks[i]]);
      assert AllPass([vChecks[i]]) <==> vChecks[i].verdict;
      if fOk {
        fOk := vChecks[i].verdict;
      }
    }
    assert vChecks[..|vChecks|] == vChecks;
  }

  class Queue {
    var queue: seq<Check>
    var nIdle: int
    var nTotal: int
    var fAllOk: bool
    var nTodo: int
    const fQuit: bool
    const nBatchSize: nat

    ghost function Abs(): Shared
      reads this
    {
      Shared(queue, nIdle, nTotal, fAllOk, nTodo)
    }

    ghost function Cfg(): Config { Config(nBatchSize, fQuit) }

    constructor (nBatchSizeIn: nat)
      ensures Abs() == Initial(0).sh && nBatchSize == nBatchSizeIn && !fQuit
    {
      queue, nIdle, nTotal, fAllOk, nTodo := [], 0, 0, true, 0;
      fQuit, nBatchSize := false, nBatchSizeIn;
    }

    method Add(vChecks: seq<Check>, ghost threads: seq<Thread>, ghost chosen: nat) returns (signal: Signal)
      requires |threads| >= 1 && Enabled(System(Abs(), threads), Action.Add(vChecks, chosen))
      modifies this
      ensures Abs() == Pushed(old(Abs()), vChecks)
      ensures signal == SignalFor(|vChecks|)
      ensures (System(Abs(), Delivered(threads, signal, chosen)), Added(vChecks)) ==
              Next(System(old(Abs()), threads), Cfg(), Action.Add(vChecks, chosen))
    {
      var i := 0;
      while i < |vChecks|
        invariant 0 <= i <= |vChecks|
        invariant Abs() == old(Abs()).(queue := old(queue) + vChecks[..i])
      {
        queue := queue + [vChecks[i]];
        i := i + 1;
      }
      assert vChecks[..|vChecks|] == vChecks;
      nTodo := nTodo + |vChecks|;
      signal := if |vChecks| == 1 then NotifyOne else if |vChecks| > 1 then NotifyAll else NotifyNobody;
    }

    /** Moves nNow checks from the back of the queue to a local batch. */
    method TakeBatch(nNow: nat) returns (vChecks: seq<Check>)
      requires nNow <= |queue|
      modifies `queue
      ensures vChecks == Popped(old(queue), nNow)
      ensures queue == old(queue)[..|old(queue)| - nNow]
    {
      vChecks := [];
      while |vChecks| < nNow
        invariant |vChecks| <= nNow
        invariant vChecks == Popped(old(queue), |vChecks|)
        invariant queue == old(queue)[..|old(queue)| - |vChecks|]
      {
        vChecks := vChecks + [queue[|queue| - 1]];
        queue := queue[..|queue| - 1];
      }
    }

    /** One pass from taking the mutex to giving it up, for a thread that is about to take it. */
    method LockedSection(fMaster: bool, th: Thread)
      returns (next: Thread, notifyMaster: bool, returned: bool, verdict: bool)
      requires CanLock(th) && Defined(Abs(), th)
      modifies this
      ensures Effect(Abs(), next, notifyMaster, returned, verdict) == CriticalSection(old(Abs()), Cfg(), fMaster, th)
    {
      hide BatchSize, WaitOrTake;
      notifyMaster := false;
      if th.Awake? {
        nIdle := nIdle - 1;
      } else if th.Running? {
        fAllOk := fAllOk && th.fOk;
        nTodo := nTodo - th.nNow;
        notifyMaster := nTodo == 0 && !fMaster;
      } else {
        nTotal := nTotal + 1;
      }
      next, returned, verdict := SleepOrTake(fMaster, notifyMaster);
    }

    /** The inner while loop and the batch at its end. */
    method SleepOrTake(fMaster: bool, ghost notify: bool) returns (next: Thread, returned: bool, verdict: bool)
      requires nTotal + nIdle + 1 > 0
      modifies this
      ensures Effect(Abs(), next, notify, returned, verdict) == WaitOrTake(old(Abs()), Cfg(), fMaster, notify)
    {
      hide BatchSize;
      next, returned, verdict := Outside, false, false;
      if queue == [] {
        if (fMaster || fQuit) && nTodo == 0 {
          nTotal := nTotal - 1;
          verdict, returned := fAllOk, true;
          if fMaster {
            fAllOk := true;
          }
        } else {
          nIdle := nIdle + 1;
          next := Asleep;
        }
      } else {
        var nNow := BatchSize(Shared(queue, nIdle, nTotal, fAllOk, nTodo), Config(nBatchSize, fQuit));
        var vChecks := TakeBatch(nNow);
        next := Running(nNow, vChecks, fAllOk);
      }
    }
  }
}
