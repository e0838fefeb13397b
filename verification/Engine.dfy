/** The worker engine's slot allocator (engine/engine.go): one loop goroutine that
    admits tasks, task goroutines that hand their slot back, and a retry timer.

    `Step` is the interleaving semantics: one event is one atomic action of one
    goroutine, of the clock, or of the caller of Close. An event that is not enabled
    changes nothing, so a run is any sequence of events. */
module EngineLoop {

  /** A stopped timer, one that will fire, and one whose channel holds its tick. */
  datatype Timer = Stopped | Armed | Fired

  /** Running until the executor returns; Abandoned is the return that skips the
      release because the context was cancelled. */
  datatype Phase = Running | Ended | Abandoned

  /** `sent` is the sync.Once of the goroutine's releaseWorker. */
  datatype TaskRun = TaskRun(sent: bool, phase: Phase)

  /** Where the loop goroutine is: before the shutdown poll, at the main select,
      inside tryPopTask, or returned. */
  datatype Pc = Head | Select | Popping | Returned

  datatype State = State(
    workers: nat,
    ready: nat,       // tokens in the ready channel (capacity 1)
    released: nat,    // tokens in the released channel (capacity workers)
    active: int,
    timer: Timer,
    runs: seq<TaskRun>,
    closing: bool,
    pc: Pc)

  datatype Event =
    | Poll                   // select on shutdown with a default
    | Quit                   // main select: shutdown
    | TakeReady              // main select: ready token; stop and drain the timer
    | Popped(found: bool)    // tryPopTask returned
    | TakeTick               // main select: timer channel
    | TakeReleased           // main select: released channel
    | Fire                   // the timer expires
    | Release(i: nat)        // task i calls releaseWorker
    | Return(i: nat)         // task i ends after its release
    | Abandon(i: nat)        // task i ends on cancellation, without releasing
    | Close                  // shutdown is closed

  predicate InSelect(e: Event) { e.Quit? || e.TakeReady? || e.TakeTick? || e.TakeReleased? }

  predicate Enabled(s: State, e: Event) {
    match e
    case Poll => s.pc == Head
    case Quit => s.pc == Select && s.closing
    case TakeReady => s.pc == Select && s.ready > 0
    case Popped(_) => s.pc == Popping
    case TakeTick => s.pc == Select && s.timer == Fired
    case TakeReleased => s.pc == Select && s.released > 0
    case Fire => s.timer == Armed
    case Release(i) => i < |s.runs| && s.runs[i].phase == Running
    case Return(i) => i < |s.runs| && s.runs[i] == TaskRun(true, Running)
    case Abandon(i) => i < |s.runs| && s.runs[i].phase == Running
    case Close => !s.closing
  }

  function Init(workers: nat): State { State(workers, 1, 0, 0, Stopped, [], false, Head) }

  function Step(s: State, e: Event): State {
    if !Enabled(s, e) then s else
    match e
    case Poll => s.(pc := if s.closing then Returned else Select)
    case Quit => s.(pc := Returned)
    case TakeReady => s.(ready := s.ready - 1, timer := Stopped, pc := Popping)
    case Popped(found) =>
      if found then
        s.(active := s.active + 1, runs := s.runs + [TaskRun(false, Running)],
           ready := if s.active + 1 < s.workers then s.ready + 1 else s.ready, pc := Head)
      else s.(timer := Armed, pc := Head)
    case TakeTick => s.(timer := Stopped, ready := if s.ready == 0 then 1 else s.ready, pc := Head)
    case TakeReleased =>
      s.(released := s.released - 1, active := s.active - 1, ready := if s.ready == 0 then 1 else s.ready, pc := Head)
    case Fire => s.(timer := Fired)
    case Release(i) =>
      if s.runs[i].sent then s
      else s.(runs := s.runs[i := TaskRun(true, Running)], released := s.released + 1)
    case Return(i) => s.(runs := s.runs[i := TaskRun(true, Ended)])
    case Abandon(i) => s.(runs := s.runs[i := s.runs[i].(phase := Abandoned)])
    case Close => s.(closing := true)
  }

  function Run(s: State, es: seq<Event>): State {
    if es == [] then s else Step(Run(s, es[..|es| - 1]), es[|es| - 1])
  }

  /** How many task goroutines satisfy p. */
  function Count(runs: seq<TaskRun>, p: TaskRun -> bool): nat {
    if runs == [] then 0 else Count(runs[..|runs| - 1], p) + if p(runs[|runs| - 1]) then 1 else 0
  }

  predicate Unsent(r: TaskRun) { !r.sent }

  predicate Leaked(r: TaskRun) { !r.sent && r.phase == Abandoned }

  predicate Working(r: TaskRun) { !r.sent && r.phase == Running }

  /** What every reachable state satisfies. The fourth line is the admission rule:
      outside tryPopTask, a slot is free exactly when something will offer it. */
  predicate Inv(s: State) {
    && s.workers >= 1
    && s.active == Count(s.runs, Unsent) + s.released
    && s.active <= s.workers
    && (if s.pc == Popping then s.active < s.workers && s.ready == 0 && s.timer == Stopped
        else s.active < s.workers <==> s.ready == 1 || s.timer != Stopped)
    && s.ready <= 1
    && (forall i | 0 <= i < |s.runs| :: s.runs[i].phase == Ended ==> s.runs[i].sent)
  }

  lemma {:induction false} CountUpdate(runs: seq<TaskRun>, i: nat, r: TaskRun, p: TaskRun -> bool)
    requires i < |runs|
    ensures Count(runs[i := r], p) + (if p(runs[i]) then 1 else 0) == Count(runs, p) + (if p(r) then 1 else 0)
  {
    var n := |runs| - 1;
    if i < n {
      CountUpdate(runs[..n], i, r, p);
      assert runs[i := r][..n] == runs[..n][i := r];
    } else {
      assert runs[i := r][..n] == runs[..n];
    }
  }

  lemma CountAppend(runs: seq<TaskRun>, r: TaskRun, p: TaskRun -> bool)
    ensures Count(runs + [r], p) == Count(runs, p) + if p(r) then 1 else 0
  {
  }

  lemma StepKeepsInv(s: State, e: Event)
    requires Inv(s)
    ensures Inv(Step(s, e))
  {
    hide Count;
    match e
    case Popped(found) => CountAppend(s.runs, TaskRun(false, Running), Unsent);
    case Release(i) => if Enabled(s, e) { CountUpdate(s.runs, i, TaskRun(true, Running), Unsent); }
    case Return(i) => if Enabled(s, e) { CountUpdate(s.runs, i, TaskRun(true, Ended), Unsent); }
    case Abandon(i) => if Enabled(s, e) { CountUpdate(s.runs, i, s.runs[i].(phase := Abandoned), Unsent); }
    case _ =>
  }

  /** The slot accounting holds in every interleaving of the loop, the task
      goroutines, the timer and Close, including after the loop has returned. */
  lemma {:induction false} SlotsInEveryRun(workers: nat, es: seq<Event>)
    requires workers >= 1
    ensures Inv(Run(Init(workers), es)) && Run(Init(workers), es).workers == workers
  {
    if es != [] {
      SlotsInEveryRun(workers, es[..|es| - 1]);
      StepKeepsInv(Run(Init(workers), es[..|es| - 1]), es[|es| - 1]);
    }
  }

  lemma {:induction false} CountPositive(runs: seq<TaskRun>, i: nat, p: TaskRun -> bool)
    requires i < |runs| && p(runs[i])
    ensures Count(runs, p) >= 1
  {
    if i < |runs| - 1 { CountPositive(runs[..|runs| - 1], i, p); }
  }

  /** No send can block: a task that has not released finds room in `released`,
      whether or not the loop is still there to receive, and the loop's own
      unconditional send on `ready` finds that channel empty. */
  lemma SendsNeverBlock(workers: nat, es: seq<Event>, i: nat)
    requires workers >= 1
    ensures var s := Run(Init(workers), es);
      && (i < |s.runs| && !s.runs[i].sent ==> s.released < workers)
      && (s.pc == Popping ==> s.ready == 0)
  {
    SlotsInEveryRun(workers, es);
    var s := Run(Init(workers), es);
    if i < |s.runs| && !s.runs[i].sent {
      CountPositive(s.runs, i, Unsent);
    }
  }

  lemma {:induction false} SplitUnsent(runs: seq<TaskRun>)
    requires forall i | 0 <= i < |runs| :: runs[i].phase == Ended ==> runs[i].sent
    ensures Count(runs, Unsent) == Count(runs, Leaked) + Count(runs, Working)
  {
    if runs != [] {
      SplitUnsent(runs[..|runs| - 1]);
      assert runs[|runs| - 1].phase == Ended ==> runs[|runs| - 1].sent;
    }
  }

  lemma {:induction false} NoneWorking(runs: seq<TaskRun>)
    ensures Count(runs, Working) == 0 <==> forall i | 0 <= i < |runs| :: !Working(runs[i])
  {
    if runs != [] {
      NoneWorking(runs[..|runs| - 1]);
      assert runs == runs[..|runs| - 1] + [runs[|runs| - 1]];
    }
  }

  /** Nothing in the process can ever move the loop again, short of Close: no arm of the
      select is ready, the timer will not fire, and no running task still holds a slot. */
  ghost predicate Wedged(s: State) {
    && s.pc == Select
    && (forall e: Event | InSelect(e) :: !Enabled(s, e))
    && !Enabled(s, Fire)
    && (forall i | 0 <= i < |s.runs| :: !Working(s.runs[i]))
  }

  /** The loop never wedges while fewer than `workers` tasks were abandoned on
      cancellation before the shutdown, and wedges exactly when that many were:
      such a task returns without giving its slot back. */
  lemma WedgedIffAllSlotsAbandoned(workers: nat, es: seq<Event>)
    requires workers >= 1
    ensures var s := Run(Init(workers), es);
      s.pc == Select && !s.closing ==> (Wedged(s) <==> Count(s.runs, Leaked) == workers)
  {
    SlotsInEveryRun(workers, es);
    var s := Run(Init(workers), es);
    SplitUnsent(s.runs);
    NoneWorking(s.runs);
    if s.pc == Select && !s.closing && Count(s.runs, Leaked) == workers {
      assert s.active == workers && s.released == 0;
    }
    if Wedged(s) {
      assert !Enabled(s, TakeReady) && !Enabled(s, TakeTick) && !Enabled(s, TakeReleased);
      assert InSelect(TakeReady) && InSelect(TakeTick) && InSelect(TakeReleased);
    }
  }

  /** A free slot is always offered again: from the main select, the timer and the
      loop alone reach the next tryPopTask within four events. */
  lemma FreeSlotReachesPop(s: State) returns (es: seq<Event>)
    requires Inv(s) && s.pc == Select && !s.closing && s.active < s.workers
    ensures |es| <= 4 && Run(s, es).pc == Popping
    ensures forall e | e in es :: e in [Fire, TakeTick, Poll, TakeReady]
  {
    if s.ready == 1 {
      es := [TakeReady];
      assert es[..0] == [] && Run(s, []) == s;
    } else {
      var fire := if s.timer == Armed then [Fire] else [];
      var s1 := Step(s, Fire);
      assert Run(s, []) == s;
      assert fire == [Fire] ==> fire[..0] == [];
      assert Run(s, fire) == s1;
      var es2, es3 := fire + [TakeTick], fire + [TakeTick, Poll];
      es := fire + [TakeTick, Poll, TakeReady];
      assert es2[..|es2| - 1] == fire && es3[..|es3| - 1] == es2 && es[..|es| - 1] == es3;
      var s2 := Step(s1, TakeTick);
      assert Run(s, es2) == s2;
      assert Run(s, es3) == Step(s2, Poll);
    }
  }

  /** Main-select arms executed along a run, the quit itself aside. */
  function Arms(s: State, es: seq<Event>): nat {
    if es == [] then 0 else
      var before := Run(s, es[..|es| - 1]);
      var e := es[|es| - 1];
      Arms(s, es[..|es| - 1]) + if InSelect(e) && !e.Quit? && Enabled(before, e) then 1 else 0
  }

  /** Once shutdown is closed, the loop runs at most one more arm before it returns. */
  lemma {:induction false} OneArmAfterClose(s: State, es: seq<Event>)
    requires s.closing
    ensures Run(s, es).closing
    ensures Arms(s, es) <= if s.pc == Select then 1 else 0
    ensures Arms(s, es) + (if Run(s, es).pc == Select then 1 else 0) <= if s.pc == Select then 1 else 0
  {
    if es != [] {
      OneArmAfterClose(s, es[..|es| - 1]);
    }
  }

  /** Wherever the loop is when shutdown is closed, it can return without any task, timer or
      further token: from tryPopTask once that has returned, otherwise at once. */
  lemma ClosedLoopReturns(s: State, found: bool) returns (es: seq<Event>)
    requires s.closing
    ensures Run(s, es).pc == Returned
    ensures es <= [Popped(found), Poll] || es in [[Poll], [Quit]]
  {
    es := match s.pc
      case Popping => [Popped(found), Poll]
      case Head => [Poll]
      case Select => [Quit]
      case Returned => [];
    assert Run(s, []) == s;
    assert s.pc == Popping ==> es[..1] == [Popped(found)] && es[..1][..0] == [];
  }

  /** Returning is for good, and the loop takes nothing from its channels afterwards. */
  lemma {:induction false} ReturnedForGood(s: State, es: seq<Event>)
    requires s.pc == Returned
    ensures var s' := Run(s, es);
      s'.pc == Returned && s'.active == s.active && s'.ready == s.ready && s'.released >= s.released
  {
    if es != [] { ReturnedForGood(s, es[..|es| - 1]); }
  }

  // ---------- When the loop pops ----------

  /** How many events of a run satisfy p and were enabled. */
  function Happened(s: State, es: seq<Event>, p: Event -> bool): nat {
    if es == [] then 0
    else
      var before, e := es[..|es| - 1], es[|es| - 1];
      Happened(s, before, p) + if p(e) && Enabled(Run(s, before), e) then 1 else 0
  }

  predicate Pops(e: Event) { e.TakeReady? }

  predicate Ticks(e: Event) { e.TakeTick? }

  predicate Fires(e: Event) { e.Fire? }

  /** What gives the loop a reason to pop: it admitted a task, the timer fired, a slot came back. */
  predicate Prompts(e: Event) { e == Popped(true) || e.Fire? || e.TakeReleased? }

  function Offers(s: State): nat { s.ready + if s.timer == Fired then 1 else 0 }

  lemma OfferStep(s: State, e: Event)
    ensures Offers(Step(s, e)) + (if Pops(e) && Enabled(s, e) then 1 else 0) <=
      Offers(s) + if Prompts(e) && Enabled(s, e) then 1 else 0
    ensures (if Step(s, e).timer == Fired then 1 else 0) + (if Ticks(e) && Enabled(s, e) then 1 else 0) <=
      (if s.timer == Fired then 1 else 0) + if Fires(e) && Enabled(s, e) then 1 else 0
  {
  }

  /** The loop never polls the controller on its own: over any run it pops at most once more
      than it had a reason to, so after an empty pop it waits for the timer or for a slot; and
      each firing of the timer is taken at most once. */
  lemma {:induction false} EveryPopHasAReason(workers: nat, es: seq<Event>)
    ensures var s := Init(workers);
      && Happened(s, es, Pops) + Offers(Run(s, es)) <= 1 + Happened(s, es, Prompts)
      && Happened(s, es, Ticks) + (if Run(s, es).timer == Fired then 1 else 0) <= Happened(s, es, Fires)
  {
    hide Step, Enabled, Offers, Pops, Prompts, Ticks, Fires;
    if es == [] {
      InitOffers(workers);
    } else {
      EveryPopHasAReason(workers, es[..|es| - 1]);
      OfferStep(Run(Init(workers), es[..|es| - 1]), es[|es| - 1]);
    }
  }

  lemma InitOffers(workers: nat)
    ensures Offers(Init(workers)) == 1
  {
  }

  /** After a task was admitted while another slot is free, the loop goes on to pop without the
      timer; after an empty pop it has armed the timer and offers nothing. */
  lemma AfterPop(s: State)
    requires Inv(s) && s.pc == Popping
    ensures var full := Step(s, Popped(true));
      && full.timer == Stopped
      && (s.active + 1 < s.workers && !s.closing ==> Enabled(Step(full, Poll), TakeReady))
    ensures var empty := Step(s, Popped(false));
      && empty.timer == Armed
      && !Enabled(Step(empty, Poll), TakeReady) && !Enabled(Step(empty, Poll), TakeTick)
  {
  }

  // ---------- One release per task ----------

  /** The event puts a token of task i into `released`. */
  predicate Hands(s: State, e: Event, i: nat) { e == Release(i) && Step(s, e).released == s.released + 1 }

  /** How many tokens task i puts there along a run. */
  function Tokens(s: State, es: seq<Event>, i: nat): nat {
    if es == [] then 0
    else
      var before, e := es[..|es| - 1], es[|es| - 1];
      Tokens(s, before, i) + if Hands(Run(s, before), e, i) then 1 else 0
  }

  predicate Sent(s: State, i: nat) { i < |s.runs| && s.runs[i].sent }

  /** Over any run a task hands back its slot at most once: exactly once if it has released,
      and not at all otherwise. */
  lemma {:induction false} OneTokenPerTask(workers: nat, es: seq<Event>, i: nat)
    ensures Tokens(Init(workers), es, i) == if Sent(Run(Init(workers), es), i) then 1 else 0
  {
    if es != [] {
      OneTokenPerTask(workers, es[..|es| - 1], i);
      SentStep(Run(Init(workers), es[..|es| - 1]), es[|es| - 1], i);
    }
  }

  lemma SentStep(s: State, e: Event, i: nat)
    ensures Sent(Step(s, e), i) <==> Sent(s, i) || Hands(s, e, i)
    ensures Hands(s, e, i) ==> !Sent(s, i)
  {
  }

  /** The variables of the loop and of its goroutines, and what each action does to them. The
      schedule says who moves next and what the environment answered. */
  class TaskLoop {
    const workers: nat
    var ready: nat
    var released: nat
    var active: int
    var timer: Timer
    var runs: seq<TaskRun>
    var closing: bool
    var pc: Pc

    function View(): State
      reads this
    {
      State(workers, ready, released, active, timer, runs, closing, pc)
    }

    constructor (workers: nat)
      requires workers >= 1
      ensures View() == Init(workers)
    {
      this.workers := workers;
      timer := Stopped;
      ready := 1;
      released, active := 0, 0;
      runs := [];
      closing, pc := false, Head;
    }

    /** `ready <- struct{}{}`: the caller must show that it does not block. */
    method SendReady()
      requires ready < 1
      modifies this`ready
      ensures ready == old(ready) + 1
    {
      ready := ready + 1;
    }

    /** The same send under a select with a default. */
    method TrySendReady()
      modifies this`ready
      ensures ready == if old(ready) == 0 then 1 else old(ready)
    {
      if ready < 1 { ready := ready + 1; }
    }

    /** sync.Once around `released <- struct{}{}`: again the send must not block. */
    method ReleaseWorker(i: nat)
      requires i < |runs| && runs[i].phase == Running
      requires !runs[i].sent ==> released < workers
      modifies this`runs, this`released
      ensures View() == Step(old(View()), Release(i))
      ensures runs[i].sent && released == old(released) + if old(runs)[i].sent then 0 else 1
      ensures old(runs)[i].sent ==> View() == old(View())
    {
      if !runs[i].sent {
        runs := runs[i := TaskRun(true, Running)];
        released := released + 1;
      }
    }

    /** One pass through the main select, for the arm the schedule picked. */
    method SelectArm(e: Event)
      requires Inv(View()) && InSelect(e) && Enabled(View(), e)
      modifies this
      ensures View() == Step(old(View()), e)
    {
      match e
      case Quit => pc := Returned;
      case TakeReady =>
        ready := ready - 1;
        if timer == Armed {
          timer := Stopped;  // Stop succeeded
        } else if timer == Fired {
          timer := Stopped;  // too late to stop: drain the channel
        }
        pc := Popping;
      case TakeTick =>
        timer := Stopped;
        TrySendReady();
        pc := Head;
      case TakeReleased =>
        released := released - 1;
        active := active - 1;
        TrySendReady();
        pc := Head;
    }

    method FinishPop(found: bool)
      requires Inv(View()) && pc == Popping
      modifies this
      ensures View() == Step(old(View()), Popped(found))
    {
      if found {
        active := active + 1;
        runs := runs + [TaskRun(false, Running)];
        if active < workers { SendReady(); }
      } else {
        timer := Armed;
      }
      pc := Head;
    }

    /** One event: an arm of the loop, or a move of a goroutine, the timer or Close. */
    method Act(e: Event)
      requires Inv(View()) && Enabled(View(), e)
      modifies this
      ensures View() == Step(old(View()), e)
    {
      match e
      case Poll => pc := if closing then Returned else Select;
      case Quit => SelectArm(e);
      case TakeReady => SelectArm(e);
      case TakeTick => SelectArm(e);
      case TakeReleased => SelectArm(e);
      case Popped(found) => FinishPop(found);
      case Fire => timer := Fired;
      case Release(i) =>
        if !runs[i].sent { CountPositive(runs, i, Unsent); }
        ReleaseWorker(i);
      case Return(i) => runs := runs[i := TaskRun(true, Ended)];
      case Abandon(i) => runs := runs[i := runs[i].(phase := Abandoned)];
      case Close => closing := true;
    }

    /** The engine under an arbitrary schedule, one action at a time. */
    method Loop(schedule: seq<Event>)
      requires Inv(View())
      modifies this
      ensures View() == Run(old(View()), schedule) && Inv(View())
    {
      ghost var start := View();
      for k := 0 to |schedule|
        invariant View() == Run(start, schedule[..k]) && Inv(View())
      {
        ghost var before := View();
        StepKeepsInv(before, schedule[k]);
        assert schedule[..k + 1][..k] == schedule[..k];
        if Enabled(View(), schedule[k]) {
          Act(schedule[k]);
        }
        assert View() == Step(before, schedule[k]);
      }
      assert schedule[..|schedule|] == schedule;
    }
  }
}
