/**
 * Registering and unregistering a tracepoint from any number of threads. All of them share one
 * write index, which each operation swaps to BUSY, and swaps again when it is done. Every atomic
 * operation and every system call is one step; steps of different threads interleave freely.
 */
module RegistrationProtocol {
  type u32 = x: int | 0 <= x < 0x1_0000_0000

  const UNREGISTERED: u32 := 0xFFFF_FFFF
  const BUSY: u32 := 0xFFFF_FFFE
  const HIGHEST_VALID: u32 := 0xFFFF_FFFD

  const EBUSY: int := 16
  const EALREADY: int := 116

  type Thread = nat

  /** Where a thread is: the values are those its local variables hold. */
  datatype Phase =
    | Idle
    | Registering                       // drew UNREGISTERED, about to call the kernel
    | Publishing(index: u32)            // about to swap in the new index, or UNREGISTERED
    | Unregistering(index: u32)         // drew an index, about to call the kernel
    | Restoring(error: int)             // about to swap in UNREGISTERED and return `error`
    | Panicked                          // `register` found the tracepoint active
    | Writing(index: u32)               // loaded an index, about to write an event under it

  /** Successful or not, what has been asked of the kernel; `Register` only where it succeeded. */
  datatype Call = Register(index: u32) | Unregister(index: u32) | Write(index: u32)

  /** `calls` is history: the calls made so far. */
  datatype State = State(writeIndex: u32, phases: map<Thread, Phase>, calls: seq<Call>)

  datatype Action =
    | RegisterSwap
    | RegisterFails
    | RegisterSucceeds(index: u32)
    | PublishSwap
    | UnregisterSwap
    | UnregisterCall(error: int)
    | RestoreSwap
    | LoadIndex
    | WriteCall

  function PhaseOf(s: State, t: Thread): Phase { if t in s.phases then s.phases[t] else Idle }

  const INITIAL := State(UNREGISTERED, map[], [])

  predicate Enabled(s: State, t: Thread, a: Action) {
    match a
    case RegisterSwap => PhaseOf(s, t) == Idle
    case RegisterFails => PhaseOf(s, t) == Registering
    case RegisterSucceeds(index) => PhaseOf(s, t) == Registering && index <= HIGHEST_VALID
    case PublishSwap => PhaseOf(s, t).Publishing?
    case UnregisterSwap => PhaseOf(s, t) == Idle
    case UnregisterCall(_) => PhaseOf(s, t).Unregistering?
    case RestoreSwap => PhaseOf(s, t).Restoring?
    case LoadIndex => PhaseOf(s, t) == Idle
    case WriteCall => PhaseOf(s, t).Writing?
  }

  function Goto(s: State, t: Thread, p: Phase): State { s.(phases := s.phases[t := p]) }

  function Next(s: State, t: Thread, a: Action): State
    requires Enabled(s, t, a)
  {
    match a
    case RegisterSwap =>
      if s.writeIndex == UNREGISTERED then Goto(s, t, Registering).(writeIndex := BUSY)
      else Goto(s, t, Panicked).(writeIndex := BUSY)
    case RegisterFails => Goto(s, t, Publishing(UNREGISTERED))
    case RegisterSucceeds(index) => Goto(s, t, Publishing(index)).(calls := s.calls + [Register(index)])
    case PublishSwap => Goto(s, t, Idle).(writeIndex := PhaseOf(s, t).index)
    case UnregisterSwap =>
      if s.writeIndex == BUSY then s
      else if s.writeIndex == UNREGISTERED then Goto(s, t, Restoring(EALREADY)).(writeIndex := BUSY)
      else Goto(s, t, Unregistering(s.writeIndex)).(writeIndex := BUSY)
    case UnregisterCall(error) =>
      Goto(s, t, Restoring(error)).(calls := s.calls + [Unregister(PhaseOf(s, t).index)])
    case RestoreSwap => Goto(s, t, Idle).(writeIndex := UNREGISTERED)
    case LoadIndex => if s.writeIndex > HIGHEST_VALID then s else Goto(s, t, Writing(s.writeIndex))
    case WriteCall => Goto(s, t, Idle).(calls := s.calls + [Write(PhaseOf(s, t).index)])
  }

  // ---- what a run must keep ----

  /** Between its two swaps, having drawn a value other than BUSY. */
  predicate Owns(p: Phase) { p.Registering? || p.Publishing? || p.Unregistering? || p.Restoring? }

  datatype Registration = NotRegistered | RegisteredAs(index: u32)

  /** The registration that the kernel has made and has not been asked to undo. */
  function Held(calls: seq<Call>): Registration {
    if calls == [] then NotRegistered
    else
      match calls[|calls| - 1]
      case Register(index) => RegisteredAs(index)
      case Unregister(_) => NotRegistered
      case Write(_) => Held(calls[..|calls| - 1])
  }

  /**
   * The kernel is never asked to register what it has not been asked to undo, nor to undo what it has
   * not registered; each is asked for with the index it was given, and events carry only indexes given out.
   */
  predicate Alternates(calls: seq<Call>) {
    if calls == [] then true
    else
      var before := calls[..|calls| - 1];
      && Alternates(before)
      && match calls[|calls| - 1]
         case Register(_) => Held(before) == NotRegistered
         case Unregister(index) => Held(before) == RegisteredAs(index)
         case Write(index) => Register(index) in before
  }

  /** The registration that the shared word and its owner account for. */
  function Accounted(s: State, owner: Registered): Registration {
    if s.writeIndex <= HIGHEST_VALID then RegisteredAs(s.writeIndex)
    else
      match owner
      case Nobody => NotRegistered
      case Owner(t) =>
        match PhaseOf(s, t)
        case Publishing(index) => if index <= HIGHEST_VALID then RegisteredAs(index) else NotRegistered
        case Unregistering(index) => RegisteredAs(index)
        case _ => NotRegistered
  }

  /** The one thread that owns the tracepoint, if any. */
  datatype Registered = Nobody | Owner(thread: Thread)

  /** BUSY, and no thread to change that. */
  predicate Stranded(s: State, owner: Registered) { s.writeIndex == BUSY && owner == Nobody }

  /** The invariant, given who owns the tracepoint. */
  ghost predicate OwnedBy(s: State, owner: Registered) {
    && (forall t :: Owns(PhaseOf(s, t)) <==> owner == Owner(t))
    && (owner.Owner? ==> s.writeIndex == BUSY)
    && Alternates(s.calls)
    && (if Stranded(s, owner) then Held(s.calls).RegisteredAs? else Held(s.calls) == Accounted(s, owner))
    && (forall t :: PhaseOf(s, t).Publishing? ==>
          PhaseOf(s, t).index <= HIGHEST_VALID || PhaseOf(s, t).index == UNREGISTERED)
    && (forall t :: PhaseOf(s, t).Unregistering? ==> PhaseOf(s, t).index <= HIGHEST_VALID)
    && (forall t :: PhaseOf(s, t).Writing? ==> Register(PhaseOf(s, t).index) in s.calls)
  }

  ghost predicate Inv(s: State) { exists owner :: OwnedBy(s, owner) }

  lemma {:induction false} HeldWasRegistered(calls: seq<Call>)
    requires Held(calls).RegisteredAs?
    ensures Register(Held(calls).index) in calls
  {
    if calls[|calls| - 1].Write? {
      HeldWasRegistered(calls[..|calls| - 1]);
    }
  }

  lemma CallsAppend(calls: seq<Call>, c: Call)
    ensures (calls + [c])[..|calls + [c]| - 1] == calls && (calls + [c])[|calls + [c]| - 1] == c
  {
  }

  function OwnerAfter(s: State, t: Thread, a: Action, owner: Registered): Registered
    requires Enabled(s, t, a)
  {
    match a
    case RegisterSwap => if s.writeIndex == UNREGISTERED then Owner(t) else owner
    case UnregisterSwap => if s.writeIndex != BUSY then Owner(t) else owner
    case PublishSwap => Nobody
    case RestoreSwap => Nobody
    case _ => owner
  }

  lemma OtherPhases(s: State, t: Thread, a: Action)
    requires Enabled(s, t, a)
    ensures forall u :: u != t ==> PhaseOf(Next(s, t, a), u) == PhaseOf(s, u)
  {
  }

  lemma FirstSwapKeeps(s: State, t: Thread, a: Action, owner: Registered)
    requires OwnedBy(s, owner) && Enabled(s, t, a) && (a.RegisterSwap? || a.UnregisterSwap?)
    ensures OwnedBy(Next(s, t, a), OwnerAfter(s, t, a, owner))
  {
    hide Held, Alternates;
    OtherPhases(s, t, a);
  }

  lemma SecondSwapKeeps(s: State, t: Thread, a: Action, owner: Registered)
    requires OwnedBy(s, owner) && Enabled(s, t, a) && (a.PublishSwap? || a.RestoreSwap?)
    ensures OwnedBy(Next(s, t, a), OwnerAfter(s, t, a, owner))
  {
    hide Held, Alternates;
    assert Owns(PhaseOf(s, t));
    OtherPhases(s, t, a);
  }

  lemma KernelCallKeeps(s: State, t: Thread, a: Action, owner: Registered)
    requires OwnedBy(s, owner) && Enabled(s, t, a)
    requires a.RegisterFails? || a.RegisterSucceeds? || a.UnregisterCall?
    ensures OwnedBy(Next(s, t, a), OwnerAfter(s, t, a, owner))
  {
    assert Owns(PhaseOf(s, t));
    OtherPhases(s, t, a);
    if a.RegisterSucceeds? {
      CallsAppend(s.calls, Register(a.index));
    } else if a.UnregisterCall? {
      CallsAppend(s.calls, Unregister(PhaseOf(s, t).index));
    }
  }

  lemma WriterKeeps(s: State, t: Thread, a: Action, owner: Registered)
    requires OwnedBy(s, owner) && Enabled(s, t, a) && (a.LoadIndex? || a.WriteCall?)
    ensures OwnedBy(Next(s, t, a), OwnerAfter(s, t, a, owner))
  {
    OtherPhases(s, t, a);
    if a.WriteCall? {
      CallsAppend(s.calls, Write(PhaseOf(s, t).index));
    } else if s.writeIndex <= HIGHEST_VALID {
      HeldWasRegistered(s.calls);
    }
  }

  /** Every step of every thread keeps the invariant. */
  lemma StepKeeps(s: State, t: Thread, a: Action, owner: Registered)
    requires OwnedBy(s, owner) && Enabled(s, t, a)
    ensures OwnedBy(Next(s, t, a), OwnerAfter(s, t, a, owner))
  {
    hide OwnedBy, Next, OwnerAfter;
    if a.RegisterSwap? || a.UnregisterSwap? {
      FirstSwapKeeps(s, t, a, owner);
    } else if a.PublishSwap? || a.RestoreSwap? {
      SecondSwapKeeps(s, t, a, owner);
    } else if a.LoadIndex? || a.WriteCall? {
      WriterKeeps(s, t, a, owner);
    } else {
      KernelCallKeeps(s, t, a, owner);
    }
  }

  // ---- runs ----

  datatype Step = Step(thread: Thread, action: Action)

  /** The state after some steps, each of which must have been possible when it was taken. */
  function After(steps: seq<Step>): State
    requires Possible(steps)
    decreases |steps|, 1
  {
    if steps == [] then INITIAL
    else
      var last := steps[|steps| - 1];
      Next(After(steps[..|steps| - 1]), last.thread, last.action)
  }

  predicate Possible(steps: seq<Step>)
    decreases |steps|, 0
  {
    steps == [] ||
    (Possible(steps[..|steps| - 1])
     && Enabled(After(steps[..|steps| - 1]), steps[|steps| - 1].thread, steps[|steps| - 1].action))
  }

  lemma {:induction false} RunKeeps(steps: seq<Step>) returns (owner: Registered)
    requires Possible(steps)
    ensures OwnedBy(After(steps), owner)
  {
    if steps == [] {
      owner := Nobody;
    } else {
      hide OwnedBy;
      var before := steps[..|steps| - 1];
      var last := steps[|steps| - 1];
      owner := RunKeeps(before);
      StepKeeps(After(before), last.thread, last.action, owner);
      owner := OwnerAfter(After(before), last.thread, last.action, owner);
    }
  }

  lemma {:induction false} PrefixPossible(steps: seq<Step>, k: nat)
    requires Possible(steps) && k <= |steps|
    ensures Possible(steps[..k])
  {
    hide After;
    if k == |steps| {
      assert steps[..k] == steps;
    } else {
      PrefixPossible(steps[..|steps| - 1], k);
      assert steps[..|steps| - 1][..k] == steps[..k];
    }
  }

  /** The shared word before step `k`. */
  function IndexBefore(steps: seq<Step>, k: nat): u32
    requires Possible(steps) && k <= |steps|
  {
    PrefixPossible(steps, k);
    After(steps[..k]).writeIndex
  }

  /** `register` on a registered tracepoint, which its contract forbids. */
  predicate MisusedAt(steps: seq<Step>, k: nat)
    requires Possible(steps) && k < |steps|
  {
    steps[k].action == RegisterSwap && IndexBefore(steps, k) <= HIGHEST_VALID
  }

  ghost predicate Misused(steps: seq<Step>)
    requires Possible(steps)
  {
    exists k :: 0 <= k < |steps| && MisusedAt(steps, k)
  }

  lemma StepStrands(s: State, t: Thread, a: Action, owner: Registered)
    requires OwnedBy(s, owner) && Enabled(s, t, a)
    ensures Stranded(Next(s, t, a), OwnerAfter(s, t, a, owner))
            <==> Stranded(s, owner) || (a == RegisterSwap && s.writeIndex <= HIGHEST_VALID)
  {
    hide Held, Alternates;
    assert Owns(PhaseOf(s, t)) <==> owner == Owner(t);
  }

  lemma MisusedBefore(steps: seq<Step>)
    requires Possible(steps) && steps != []
    ensures var n := |steps| - 1;
            && Possible(steps[..n])
            && (Misused(steps) <==> Misused(steps[..n]) || MisusedAt(steps, n))
            && IndexBefore(steps, n) == After(steps[..n]).writeIndex
  {
    hide After;
    var n := |steps| - 1;
    PrefixPossible(steps, n);
    forall k | 0 <= k < n ensures MisusedAt(steps, k) <==> MisusedAt(steps[..n], k) {
      assert steps[..n][..k] == steps[..k];
    }
    if Misused(steps[..n]) {
      var k :| 0 <= k < n && MisusedAt(steps[..n], k);
      assert MisusedAt(steps, k);
    }
  }

  lemma {:induction false} StrandedIsMisused(steps: seq<Step>) returns (owner: Registered)
    requires Possible(steps)
    ensures OwnedBy(After(steps), owner)
    ensures Stranded(After(steps), owner) <==> Misused(steps)
  {
    if steps == [] {
      owner := Nobody;
    } else {
      hide OwnedBy, Misused, MisusedAt, IndexBefore;
      var before := steps[..|steps| - 1];
      var last := steps[|steps| - 1];
      owner := StrandedIsMisused(before);
      MisusedBefore(steps);
      StepKeeps(After(before), last.thread, last.action, owner);
      StepStrands(After(before), last.thread, last.action, owner);
      owner := OwnerAfter(After(before), last.thread, last.action, owner);
      MisusedAtIs(steps);
    }
  }

  lemma MisusedAtIs(steps: seq<Step>)
    requires Possible(steps) && steps != []
    ensures var n := |steps| - 1;
            MisusedAt(steps, n) <==> steps[n].action == RegisterSwap && After(steps[..n]).writeIndex <= HIGHEST_VALID
  {
  }

  /**
   * In every interleaving of any number of threads: at most one is between two swaps having drawn
   * anything but BUSY, its second swap will draw BUSY, and the calls made to the kernel alternate.
   */
  lemma Ownership(steps: seq<Step>)
    requires Possible(steps)
    ensures var s := After(steps);
            && (forall t, u :: Owns(PhaseOf(s, t)) && Owns(PhaseOf(s, u)) ==> t == u)
            && (forall t :: Owns(PhaseOf(s, t)) ==> s.writeIndex == BUSY)
            && Alternates(s.calls)
  {
    hide After, Possible, Alternates;
    var owner := RunKeeps(steps);
  }

  function Registers(calls: seq<Call>): nat {
    if calls == [] then 0
    else Registers(calls[..|calls| - 1]) + if calls[|calls| - 1].Register? then 1 else 0
  }

  function Unregisters(calls: seq<Call>): nat {
    if calls == [] then 0
    else Unregisters(calls[..|calls| - 1]) + if calls[|calls| - 1].Unregister? then 1 else 0
  }

  lemma {:induction false} AlternatingBalance(calls: seq<Call>)
    requires Alternates(calls)
    ensures Registers(calls) == Unregisters(calls) + if Held(calls).RegisteredAs? then 1 else 0
  {
    if calls != [] {
      AlternatingBalance(calls[..|calls| - 1]);
    }
  }

  /**
   * At every moment of every run, the kernel has been asked to undo each registration but the current one
   * once. (Whether it did is not in the thread's hands: `unregister` gives up the index in any case.)
   */
  lemma Balanced(steps: seq<Step>)
    requires Possible(steps)
    ensures var calls := After(steps).calls;
            Registers(calls) == Unregisters(calls) + if Held(calls).RegisteredAs? then 1 else 0
  {
    Ownership(steps);
    AlternatingBalance(After(steps).calls);
  }

  /**
   * When no thread is between its swaps, the word is BUSY exactly if `register` was once called on a
   * registered tracepoint. Nothing else leaves BUSY behind; a `register` that finds BUSY does not.
   */
  lemma StrandedOnlyByMisuse(steps: seq<Step>)
    requires Possible(steps) && forall t :: !Owns(PhaseOf(After(steps), t))
    ensures After(steps).writeIndex == BUSY <==> Misused(steps)
  {
    hide After, Possible, Misused;
    var owner := StrandedIsMisused(steps);
    if owner.Owner? {
      assert Owns(PhaseOf(After(steps), owner.thread));
    }
  }

  lemma StrandedStays(s: State, t: Thread, a: Action)
    requires OwnedBy(s, Nobody) && s.writeIndex == BUSY && Enabled(s, t, a)
    ensures var s' := Next(s, t, a);
            && OwnedBy(s', Nobody) && s'.writeIndex == BUSY
            && Held(s'.calls) == Held(s.calls) && Unregisters(s'.calls) == Unregisters(s.calls)
            && (a == UnregisterSwap ==> s' == s)
            && (a == RegisterSwap ==> PhaseOf(s', t) == Panicked)
  {
    StepKeeps(s, t, a, Nobody);
    assert !Owns(PhaseOf(s, t));
    hide OwnedBy, Alternates;
    if a == WriteCall {
      CallsAppend(s.calls, Write(PhaseOf(s, t).index));
    }
  }

  /**
   * A run in which `register` was called on a registered tracepoint can go on in any way: the word stays
   * BUSY, the kernel is never asked to undo the registration, and no thread will ever own the tracepoint.
   */
  lemma StrandedForGood(steps: seq<Step>, more: seq<Step>)
    requires Possible(steps) && Possible(steps + more) && Misused(steps)
    ensures var s, s' := After(steps), After(steps + more);
            && s'.writeIndex == BUSY && (forall t :: !Owns(PhaseOf(s', t)))
            && Held(s'.calls) == Held(s.calls) && Held(s'.calls).RegisteredAs?
            && Unregisters(s'.calls) == Unregisters(s.calls)
  {
    hide Misused, Held;
    var owner := StrandedIsMisused(steps);
    StrandedExtends(steps, more);
  }

  lemma {:induction false} StrandedExtends(steps: seq<Step>, more: seq<Step>)
    requires Possible(steps) && Possible(steps + more)
    requires OwnedBy(After(steps), Nobody) && After(steps).writeIndex == BUSY
    ensures var s, s' := After(steps), After(steps + more);
            && OwnedBy(s', Nobody) && s'.writeIndex == BUSY
            && Held(s'.calls) == Held(s.calls) && Unregisters(s'.calls) == Unregisters(s.calls)
    decreases |more|
  {
    hide OwnedBy, Held, Unregisters, Next, Enabled;
    if more == [] {
      assert steps + more == steps;
    } else {
      var n := |more| - 1;
      assert (steps + more)[..|steps + more| - 1] == steps + more[..n];
      assert (steps + more)[|steps + more| - 1] == more[n];
      StrandedExtends(steps, more[..n]);
      StrandedStays(After(steps + more[..n]), more[n].thread, more[n].action);
    }
  }

  lemma Then(steps: seq<Step>, t: Thread, a: Action)
    requires Possible(steps) && Enabled(After(steps), t, a)
    ensures Possible(steps + [Step(t, a)])
    ensures After(steps + [Step(t, a)]) == Next(After(steps), t, a)
  {
    assert (steps + [Step(t, a)])[..|steps|] == steps;
  }

  /** It happens: one thread registers the tracepoint, and another registers it once more. */
  lemma RegisteringTwiceStrands() returns (steps: seq<Step>)
    ensures Possible(steps) && Misused(steps)
    ensures After(steps) == State(BUSY, map[0 := Idle, 1 := Panicked], [Register(7)])
    ensures forall t :: !Owns(PhaseOf(After(steps), t))
  {
    steps := [];
    assert Possible(steps) && After(steps) == INITIAL;
    hide After, Possible, Misused;
    Then(steps, 0, RegisterSwap);
    steps := steps + [Step(0, RegisterSwap)];
    Then(steps, 0, RegisterSucceeds(7));
    steps := steps + [Step(0, RegisterSucceeds(7))];
    Then(steps, 0, PublishSwap);
    steps := steps + [Step(0, PublishSwap)];
    Then(steps, 1, RegisterSwap);
    steps := steps + [Step(1, RegisterSwap)];
    StrandedOnlyByMisuse(steps);
  }

  // ---- the operations ----

  /** What a step of thread `u` leaves alone in the eyes of thread `t`. */
  ghost predicate Untouched(s: State, s': State, t: Thread) {
    Inv(s') && PhaseOf(s', t) == PhaseOf(s, t)
  }

  lemma OtherStepsLeaveUntouched(s: State, t: Thread, u: Thread, a: Action)
    requires Inv(s) && u != t && Enabled(s, u, a)
    ensures Untouched(s, Next(s, u, a), t)
  {
    var owner :| OwnedBy(s, owner);
    StepKeeps(s, u, a, owner);
    OtherPhases(s, u, a);
  }

  lemma OwnStepKeeps(s: State, t: Thread, a: Action)
    requires Inv(s) && Enabled(s, t, a)
    ensures Inv(Next(s, t, a))
  {
    var owner :| OwnedBy(s, owner);
    StepKeeps(s, t, a, owner);
  }

  lemma OwnerSeesBusy(s: State, t: Thread)
    requires Inv(s) && Owns(PhaseOf(s, t))
    ensures s.writeIndex == BUSY
  {
  }

  datatype RegisterOutcome = Panic | Returned(error: int)

  /** `register` and `unregister` as written, with any steps of other threads between their own. */
  class TracepointState {
    var writeIndex: u32
    // What other threads are doing, and the history.
    var phases: map<Thread, Phase>
    var calls: seq<Call>

    function View(): State
      reads this
    {
      State(writeIndex, phases, calls)
    }

    constructor ()
      ensures View() == INITIAL && Inv(View())
    {
      writeIndex, phases, calls := UNREGISTERED, map[], [];
      new;
      assert OwnedBy(View(), Nobody);
    }

    /** Any number of steps of any other threads. */
    method Others(t: Thread)
      requires Inv(View())
      modifies this
      ensures Untouched(old(View()), View(), t)
    {
      hide OwnedBy, Next, Enabled;
      var steps: nat := *;
      while steps > 0
        invariant Untouched(old(View()), View(), t)
      {
        var u: Thread := *;
        var a: Action := *;
        if u != t && Enabled(View(), u, a) {
          OtherStepsLeaveUntouched(View(), t, u, a);
          var s := Next(View(), u, a);
          writeIndex, phases, calls := s.writeIndex, s.phases, s.calls;
        }
        steps := steps - 1;
      }
    }

    method Swap(value: u32) returns (before: u32)
      modifies `writeIndex
      ensures writeIndex == value && before == old(writeIndex)
    {
      before := writeIndex;
      writeIndex := value;
    }

    /** `ioctlError` is the kernel's answer to the unregister call, if it comes to that. */
    method Unregister(t: Thread, ioctlError: int) returns (error: int)
      requires Inv(View()) && PhaseOf(View(), t) == Idle
      modifies this
      ensures Inv(View()) && PhaseOf(View(), t) == Idle
      ensures error == EBUSY || error == EALREADY || error == ioctlError
      ensures writeIndex == UNREGISTERED || (error == EBUSY && writeIndex == BUSY)
    {
      hide OwnedBy;
      Others(t);
      ghost var s := View();
      var drawn := Swap(BUSY);
      OwnStepKeeps(s, t, UnregisterSwap);
      if drawn == BUSY {
        error := EBUSY;
        return;
      } else if drawn == UNREGISTERED {
        error := EALREADY;
        phases := phases[t := Restoring(EALREADY)];
      } else {
        phases := phases[t := Unregistering(drawn)];
        Others(t);
        s := View();
        error := ioctlError;
        calls := calls + [Call.Unregister(drawn)];
        phases := phases[t := Restoring(ioctlError)];
        OwnStepKeeps(s, t, UnregisterCall(ioctlError));
      }
      Others(t);
      s := View();
      OwnerSeesBusy(s, t);
      drawn := Swap(UNREGISTERED);
      phases := phases[t := Idle];
      OwnStepKeeps(s, t, RestoreSwap);
      assert drawn == BUSY;
    }

    /** `file` is the result of `get`; `given` the kernel's index, above the valid range if it fails. */
    method Register(t: Thread, file: int, given: u32, ioctlError: int) returns (r: RegisterOutcome)
      requires Inv(View()) && PhaseOf(View(), t) == Idle
      modifies this
      ensures Inv(View())
      ensures r.Panic? ==> writeIndex == BUSY && PhaseOf(View(), t) == Panicked
      ensures r.Returned? ==> PhaseOf(View(), t) == Idle
      ensures r.Returned? ==>
                if file < 0 then r.error == -file && writeIndex == UNREGISTERED
                else if given > HIGHEST_VALID then r.error == ioctlError && writeIndex == UNREGISTERED
                else r.error == 0 && writeIndex == given && Held(calls) == RegisteredAs(given)
    {
      hide OwnedBy, Held;
      Others(t);
      ghost var s := View();
      OwnStepKeeps(s, t, RegisterSwap);
      var drawn := Swap(BUSY);
      if drawn != UNREGISTERED {
        phases := phases[t := Panicked];
        return Panic;
      }
      phases := phases[t := Registering];
      Others(t);
      s := View();
      var error := 0;
      var index: u32 := UNREGISTERED;
      if file < 0 {
        error := -file;
        OwnStepKeeps(s, t, RegisterFails);
      } else if given > HIGHEST_VALID {
        error := ioctlError;
        OwnStepKeeps(s, t, RegisterFails);
      } else {
        index := given;
        calls := calls + [Call.Register(index)];
        OwnStepKeeps(s, t, RegisterSucceeds(index));
      }
      phases := phases[t := Publishing(index)];
      Others(t);
      s := View();
      OwnerSeesBusy(s, t);
      OwnStepKeeps(s, t, PublishSwap);
      drawn := Swap(index);
      phases := phases[t := Idle];
      assert drawn == BUSY;
      HeldIsPublished(View());
      r := Returned(error);
    }
  }

  lemma HeldIsPublished(s: State)
    requires Inv(s)
    ensures s.writeIndex <= HIGHEST_VALID ==> Held(s.calls) == RegisteredAs(s.writeIndex)
  {
  }
}
