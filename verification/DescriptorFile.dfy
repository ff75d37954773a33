/**
 * `UserEventsDataFile`: one shared word that holds a file descriptor or a negative error. Any thread
 * may find it at EAGAIN, open the file, and install what it got with a compare-and-exchange loop;
 * any thread may close it. Each atomic operation and each system call is one step.
 */
module DescriptorFile {
  const EAGAIN_ERROR: int := -11

  type Thread = nat

  datatype Phase =
    | Idle
    | Opening                                          // found EAGAIN, about to open the file
    | Installing(file: int, expected: int, failures: nat, closes: nat)
    | Discarding(file: int)                          // lost the race, about to close its own descriptor
    | Closing(taken: int)                              // swapped out a descriptor, about to close it

  /**
   * `open` holds the descriptors opened and not yet closed. In a phase, `failures` counts the failed
   * exchanges of this `update`, and `closes` the swaps by `close` since it began to exchange.
   */
  datatype State = State(word: int, phases: map<Thread, Phase>, open: set<int>)

  datatype Action =
    | Load
    | Open(result: int)
    | CompareExchange
    | Discard
    | CloseSwap
    | CloseCall

  const INITIAL := State(EAGAIN_ERROR, map[], {})

  function PhaseOf(s: State, t: Thread): Phase { if t in s.phases then s.phases[t] else Idle }

  function Goto(s: State, t: Thread, p: Phase): State { s.(phases := s.phases[t := p]) }

  /** The kernel hands out only descriptors that are not in use. */
  predicate Enabled(s: State, t: Thread, a: Action) {
    match a
    case Load => PhaseOf(s, t) == Idle
    case Open(result) => PhaseOf(s, t) == Opening && result !in s.open
    case CompareExchange => PhaseOf(s, t).Installing?
    case Discard => PhaseOf(s, t).Discarding?
    case CloseSwap => PhaseOf(s, t) == Idle
    case CloseCall => PhaseOf(s, t).Closing?
  }

  /** The phase of a thread while others call `close` so many times. */
  function WithCloses(p: Phase, closes: nat): Phase {
    if p.Installing? then p.(closes := p.closes + closes) else p
  }

  function Next(s: State, t: Thread, a: Action): State
    requires Enabled(s, t, a)
  {
    match a
    case Load => if s.word == EAGAIN_ERROR then Goto(s, t, Opening) else s
    case Open(result) =>
      Goto(s, t, Installing(result, EAGAIN_ERROR, 0, 0)).(open := if result >= 0 then s.open + {result} else s.open)
    case CompareExchange =>
      var p := PhaseOf(s, t);
      if s.word == p.expected then Goto(s, t, Idle).(word := p.file)
      else if s.word >= 0 || p.file < 0 then Goto(s, t, if p.file >= 0 then Discarding(p.file) else Idle)
      else Goto(s, t, p.(expected := s.word, failures := p.failures + 1))
    case Discard => Goto(s, t, Idle).(open := s.open - {PhaseOf(s, t).file})
    case CloseSwap =>
      var phases := map u | u in s.phases :: WithCloses(s.phases[u], 1);
      State(EAGAIN_ERROR, phases[t := if s.word >= 0 then Closing(s.word) else Idle], s.open)
    case CloseCall => Goto(s, t, Idle).(open := s.open - {PhaseOf(s, t).taken})
  }

  // ---- who answers for a descriptor ----

  /** The descriptor a thread must still install or close, or a negative number. */
  function Burden(p: Phase): int {
    match p
    case Installing(file, _, _, _) => file
    case Discarding(file) => file
    case Closing(taken) => taken
    case _ => -1
  }

  /** An open descriptor is installed, or some thread answers for it. */
  ghost predicate Placed(s: State, fd: int) {
    fd >= 0 && (s.word == fd || exists t :: Burden(PhaseOf(s, t)) == fd)
  }

  /** The word and the threads hold open descriptors, no two of them the same one. */
  ghost predicate Disjoint(s: State) {
    && (s.word >= 0 ==> s.word in s.open)
    && (forall t :: Burden(PhaseOf(s, t)) >= 0 ==> Burden(PhaseOf(s, t)) in s.open && Burden(PhaseOf(s, t)) != s.word)
    && (forall t, u :: t != u && Burden(PhaseOf(s, t)) >= 0 ==> Burden(PhaseOf(s, t)) != Burden(PhaseOf(s, u)))
    && (forall t :: PhaseOf(s, t).Discarding? || PhaseOf(s, t).Closing? ==> Burden(PhaseOf(s, t)) >= 0)
  }

  /** Every open descriptor is in exactly one place, the word or one thread, and nothing else is there. */
  ghost predicate Conserved(s: State) {
    Disjoint(s) && forall fd :: fd in s.open ==> Placed(s, fd)
  }

  /** How many exchanges of an `update` can still fail, without a `close`, before it ends. */
  function Left(word: int, expected: int): nat {
    if word >= 0 then 0
    else if word == expected then (if word == EAGAIN_ERROR then 1 else 0)
    else if word == EAGAIN_ERROR then 2
    else 1
  }

  /** What an `update` knows: an error other than EAGAIN is replaced only by a descriptor or by a `close`. */
  ghost predicate Retrying(s: State, p: Phase) {
    p.Installing? ==>
      && p.expected < 0
      && (p.failures == 0 ==> p.expected == EAGAIN_ERROR)
      && (p.failures > 0 ==> p.file >= 0)
      && p.failures + Left(s.word, p.expected) <= 1 + 2 * p.closes
  }

  ghost predicate Inv(s: State) {
    Conserved(s) && forall t :: Retrying(s, PhaseOf(s, t))
  }

  lemma OtherPhases(s: State, t: Thread, a: Action)
    requires Enabled(s, t, a)
    ensures forall u :: u != t ==>
              PhaseOf(Next(s, t, a), u) == WithCloses(PhaseOf(s, u), if a == CloseSwap then 1 else 0)
    ensures forall u :: u != t ==> Burden(PhaseOf(Next(s, t, a), u)) == Burden(PhaseOf(s, u))
  {
  }

  lemma StepDisjoint(s: State, t: Thread, a: Action)
    requires Inv(s) && Enabled(s, t, a)
    ensures Disjoint(Next(s, t, a))
  {
    hide Placed;
    assert Retrying(s, PhaseOf(s, t));
    hide Retrying;
    OtherPhases(s, t, a);
  }

  lemma StepPlaces(s: State, t: Thread, a: Action, fd: int)
    requires Inv(s) && Enabled(s, t, a) && fd in Next(s, t, a).open
    ensures Placed(Next(s, t, a), fd)
  {
    assert Retrying(s, PhaseOf(s, t));
    OtherPhases(s, t, a);
    var s' := Next(s, t, a);
    if fd in s.open && s.word != fd {
      assert Placed(s, fd);
      var u :| Burden(PhaseOf(s, u)) == fd;
      assert u != t ==> Burden(PhaseOf(s', u)) == fd;
    }
    assert s'.word == fd || Burden(PhaseOf(s', t)) == fd || fd in s.open;
  }

  lemma StepConserves(s: State, t: Thread, a: Action)
    requires Inv(s) && Enabled(s, t, a)
    ensures Conserved(Next(s, t, a))
  {
    hide Next, Inv, Placed, Disjoint;
    StepDisjoint(s, t, a);
    forall fd | fd in Next(s, t, a).open ensures Placed(Next(s, t, a), fd) {
      StepPlaces(s, t, a, fd);
    }
  }

  lemma StepRetries(s: State, t: Thread, a: Action)
    requires Inv(s) && Enabled(s, t, a)
    ensures forall u :: Retrying(Next(s, t, a), PhaseOf(Next(s, t, a), u))
  {
    hide Conserved, Burden;
    OtherPhases(s, t, a);
    var s' := Next(s, t, a);
    assert Retrying(s, PhaseOf(s, t));
    forall u ensures Retrying(s', PhaseOf(s', u)) {
      assert Retrying(s, PhaseOf(s, u));
    }
  }

  /** Every step of every thread keeps the invariant. */
  lemma StepKeeps(s: State, t: Thread, a: Action)
    requires Inv(s) && Enabled(s, t, a)
    ensures Inv(Next(s, t, a))
  {
    hide Conserved, Retrying, Next;
    StepConserves(s, t, a);
    StepRetries(s, t, a);
  }

  /** An installed descriptor stays until a `close`; an error gives way only to what comes after it. */
  lemma WordMoves(s: State, t: Thread, a: Action)
    requires Inv(s) && Enabled(s, t, a) && a != CloseSwap
    ensures var s' := Next(s, t, a);
            && (s.word >= 0 ==> s'.word == s.word)
            && (s.word < 0 && s.word != EAGAIN_ERROR ==> s'.word == s.word || s'.word >= 0)
  {
    hide Conserved;
    assert Retrying(s, PhaseOf(s, t));
  }

  /**
   * With so many `close` calls beside it, an `update` fails its exchange once, and at most twice more for
   * each of them, before the exchange that ends it; without any, a second failure is the end.
   */
  lemma FailuresBound(s: State, t: Thread)
    requires Inv(s) && PhaseOf(s, t).Installing?
    ensures var p := PhaseOf(s, t);
            && p.failures <= 1 + 2 * p.closes
            && (p.failures == 1 + 2 * p.closes && s.word != p.expected ==>
                  !PhaseOf(Next(s, t, CompareExchange), t).Installing?)
  {
    assert Retrying(s, PhaseOf(s, t));
  }

  /** When no thread is in the middle of anything, the only descriptor open is the one installed. */
  lemma QuietMeansClosed(s: State)
    requires Inv(s) && forall t :: PhaseOf(s, t) == Idle
    ensures s.open == if s.word >= 0 then {s.word} else {}
  {
    hide Retrying;
    assert forall t :: Burden(PhaseOf(s, t)) == -1;
    assert forall fd :: fd in s.open ==> fd == s.word >= 0;
  }

  // ---- runs ----

  datatype Step = Step(thread: Thread, action: Action)

  function After(s: State, steps: seq<Step>): State
    requires Possible(s, steps)
    decreases |steps|, 1
  {
    if steps == [] then s
    else
      var last := steps[|steps| - 1];
      Next(After(s, steps[..|steps| - 1]), last.thread, last.action)
  }

  predicate Possible(s: State, steps: seq<Step>)
    decreases |steps|, 0
  {
    steps == [] ||
    (Possible(s, steps[..|steps| - 1])
     && Enabled(After(s, steps[..|steps| - 1]), steps[|steps| - 1].thread, steps[|steps| - 1].action))
  }

  lemma {:induction false} RunKeeps(s: State, steps: seq<Step>)
    requires Inv(s) && Possible(s, steps)
    ensures Inv(After(s, steps))
    decreases |steps|
  {
    hide Inv;
    if steps != [] {
      RunKeeps(s, steps[..|steps| - 1]);
      StepKeeps(After(s, steps[..|steps| - 1]), steps[|steps| - 1].thread, steps[|steps| - 1].action);
    }
  }

  /** In every run, a descriptor that is installed stays installed until some thread calls `close`. */
  lemma {:induction false} InstalledStays(s: State, steps: seq<Step>)
    requires Inv(s) && Possible(s, steps) && s.word >= 0
    requires forall i :: 0 <= i < |steps| ==> steps[i].action != CloseSwap
    ensures After(s, steps).word == s.word
    decreases |steps|
  {
    hide Inv;
    if steps != [] {
      var before := steps[..|steps| - 1];
      InstalledStays(s, before);
      RunKeeps(s, before);
      WordMoves(After(s, before), steps[|steps| - 1].thread, steps[|steps| - 1].action);
    }
  }

  function Opens(steps: seq<Step>, fd: int): nat {
    if steps == [] then 0
    else Opens(steps[..|steps| - 1], fd) + if steps[|steps| - 1].action == Open(fd) then 1 else 0
  }

  /** How often `fd` has been closed by the kernel calls of a run. */
  function Closes(s: State, steps: seq<Step>, fd: int): nat
    requires Possible(s, steps)
    decreases |steps|
  {
    if steps == [] then 0
    else
      var before := steps[..|steps| - 1];
      var last := steps[|steps| - 1];
      Closes(s, before, fd)
      + if (last.action == Discard || last.action == CloseCall) && Burden(PhaseOf(After(s, before), last.thread)) == fd
        then 1 else 0
  }

  /**
   * In every run each descriptor opened is closed exactly once, except that one still open is in the
   * word or in the hands of one thread that has yet to install or close it.
   */
  lemma {:induction false} OpenedOnceClosedOnce(steps: seq<Step>, fd: int)
    requires Possible(INITIAL, steps) && fd >= 0
    ensures Inv(After(INITIAL, steps))
    ensures Opens(steps, fd) == Closes(INITIAL, steps, fd) + if fd in After(INITIAL, steps).open then 1 else 0
    decreases |steps|
  {
    hide Inv;
    InitialInv();
    RunKeeps(INITIAL, steps);
    if steps != [] {
      var before := steps[..|steps| - 1];
      OpenedOnceClosedOnce(before, fd);
      OpenChanges(After(INITIAL, before), steps[|steps| - 1].thread, steps[|steps| - 1].action, fd);
    }
  }

  lemma InitialInv()
    ensures Inv(INITIAL)
  {
  }

  lemma OpenChanges(s: State, t: Thread, a: Action, fd: int)
    requires Inv(s) && Enabled(s, t, a) && fd >= 0
    ensures a == Open(fd) ==> fd !in s.open && fd in Next(s, t, a).open
    ensures (a == Discard || a == CloseCall) && Burden(PhaseOf(s, t)) == fd
            ==> fd in s.open && fd !in Next(s, t, a).open
    ensures a != Open(fd) && !((a == Discard || a == CloseCall) && Burden(PhaseOf(s, t)) == fd) ==>
              (fd in Next(s, t, a).open <==> fd in s.open)
  {
    hide Retrying;
  }

  lemma Then(steps: seq<Step>, t: Thread, a: Action)
    requires Possible(INITIAL, steps) && Enabled(After(INITIAL, steps), t, a)
    ensures Possible(INITIAL, steps + [Step(t, a)])
    ensures After(INITIAL, steps + [Step(t, a)]) == Next(After(INITIAL, steps), t, a)
  {
    assert (steps + [Step(t, a)])[..|steps|] == steps;
  }

  function CloseCount(steps: seq<Step>): nat {
    if steps == [] then 0
    else CloseCount(steps[..|steps| - 1]) + if steps[|steps| - 1].action == CloseSwap then 1 else 0
  }

  /** In every run no `update` has failed more than once and twice for each `close` of the run. */
  lemma {:induction false} FailuresOfRun(steps: seq<Step>, t: Thread)
    requires Possible(INITIAL, steps)
    ensures var p := PhaseOf(After(INITIAL, steps), t);
            p.Installing? ==> p.closes <= CloseCount(steps) && p.failures <= 1 + 2 * CloseCount(steps)
    decreases |steps|
  {
    hide Inv;
    InitialInv();
    RunKeeps(INITIAL, steps);
    if steps != [] {
      var before := steps[..|steps| - 1];
      var last := steps[|steps| - 1];
      FailuresOfRun(before, t);
      OtherPhases(After(INITIAL, before), last.thread, last.action);
    }
    if PhaseOf(After(INITIAL, steps), t).Installing? {
      FailuresBound(After(INITIAL, steps), t);
    }
  }

  /** Thread 0 has failed this often to install descriptor 5, the word being an error; threads 1 and 2 are idle. */
  predicate Failing(s: State, failures: nat, closes: nat) {
    && s.word == -2 && s.open == {5}
    && PhaseOf(s, 0) == Installing(5, -2, failures, closes)
    && PhaseOf(s, 1) == PhaseOf(s, 2) == Idle
  }

  lemma OneFailure() returns (steps: seq<Step>)
    ensures Possible(INITIAL, steps) && Failing(After(INITIAL, steps), 1, 0)
  {
    steps := [];
    assert Possible(INITIAL, steps) && After(INITIAL, steps) == INITIAL;
    hide After, Possible;
    Then(steps, 0, Load);
    steps := steps + [Step(0, Load)];
    Then(steps, 1, Load);
    steps := steps + [Step(1, Load)];
    Then(steps, 0, Open(5));
    steps := steps + [Step(0, Open(5))];
    Then(steps, 1, Open(-2));
    steps := steps + [Step(1, Open(-2))];
    Then(steps, 1, CompareExchange);
    steps := steps + [Step(1, CompareExchange)];
    Then(steps, 0, CompareExchange);
    steps := steps + [Step(0, CompareExchange)];
    assert {} + {5} == {5};
  }

  /** A `close` and another thread's failing attempt make it fail twice more. */
  lemma TwoMoreFailures(before: seq<Step>, failures: nat, closes: nat) returns (steps: seq<Step>)
    requires Possible(INITIAL, before) && Failing(After(INITIAL, before), failures, closes)
    ensures Possible(INITIAL, steps) && Failing(After(INITIAL, steps), failures + 2, closes + 1)
  {
    hide After, Possible;
    steps := before;
    Then(steps, 2, CloseSwap);
    steps := steps + [Step(2, CloseSwap)];
    Then(steps, 0, CompareExchange);
    steps := steps + [Step(0, CompareExchange)];
    Then(steps, 1, Load);
    steps := steps + [Step(1, Load)];
    Then(steps, 1, Open(-2));
    steps := steps + [Step(1, Open(-2))];
    Then(steps, 1, CompareExchange);
    steps := steps + [Step(1, CompareExchange)];
    Then(steps, 0, CompareExchange);
    steps := steps + [Step(0, CompareExchange)];
  }

  /** The bound is met: for every number of `close` calls a run in which an `update` fails as often as it can. */
  lemma {:induction false} BoundIsTight(closes: nat) returns (steps: seq<Step>)
    ensures Possible(INITIAL, steps) && Failing(After(INITIAL, steps), 1 + 2 * closes, closes)
  {
    hide After, Possible;
    if closes == 0 {
      steps := OneFailure();
    } else {
      var before := BoundIsTight(closes - 1);
      steps := TwoMoreFailures(before, 1 + 2 * (closes - 1), closes - 1);
    }
  }

  // ---- the operations ----

  /** What steps of threads other than `t`, so many of them a `close`, leave alone. */
  ghost predicate Untouched(s: State, s': State, t: Thread, closes: nat) {
    && Inv(s')
    && PhaseOf(s', t) == WithCloses(PhaseOf(s, t), closes)
    && (closes == 0 && s.word >= 0 ==> s'.word == s.word)
  }

  lemma OtherStepsLeaveUntouched(s: State, s': State, t: Thread, closes: nat, u: Thread, a: Action)
    requires Untouched(s, s', t, closes) && u != t && Enabled(s', u, a)
    ensures Untouched(s, Next(s', u, a), t, closes + if a == CloseSwap then 1 else 0)
  {
    hide Inv, Enabled, Next;
    StepKeeps(s', u, a);
    OtherPhases(s', u, a);
    if a != CloseSwap {
      WordMoves(s', u, a);
    }
  }

  /** `get`, `update` and `close` as written, with any steps of other threads between their own. */
  class UserEventsDataFile {
    var fileOrError: int
    // What other threads are doing, and the kernel's open descriptors.
    var phases: map<Thread, Phase>
    var open: set<int>

    function View(): State
      reads this
    {
      State(fileOrError, phases, open)
    }

    constructor ()
      ensures View() == INITIAL && Inv(View())
    {
      fileOrError, phases, open := EAGAIN_ERROR, map[], {};
      new;
      InitialInv();
    }

    /** Any number of steps of any other threads; `closes` of them, no more than `most`, are the swap of a `close`. */
    method Others(t: Thread, most: nat) returns (closes: nat)
      requires Inv(View())
      modifies this
      ensures closes <= most && Untouched(old(View()), View(), t, closes)
    {
      hide Inv, Enabled, Next;
      closes := 0;
      var steps: nat := *;
      while steps > 0
        invariant closes <= most && Untouched(old(View()), View(), t, closes)
      {
        var u: Thread := *;
        var a: Action := *;
        if u != t && (a == CloseSwap ==> closes < most) && Enabled(View(), u, a) {
          OtherStepsLeaveUntouched(old(View()), View(), t, closes, u, a);
          var s := Next(View(), u, a);
          fileOrError, phases, open := s.word, s.phases, s.open;
          closes := if a == CloseSwap then closes + 1 else closes;
        }
        steps := steps - 1;
      }
    }

    /** The atomic operation: what was there before it, and the new value if that was `expected`. */
    method CompareExchangeWord(expected: int, value: int) returns (ok: bool, current: int)
      modifies `fileOrError
      ensures current == old(fileOrError) && ok == (current == expected)
      ensures fileOrError == if ok then value else old(fileOrError)
    {
      current := fileOrError;
      ok := current == expected;
      if ok {
        fileOrError := value;
      }
    }

    /**
     * The exchange loop of `update`, `attempt` being what the attempt to open the file gave. Whatever other
     * threads do, if no more than `most` times a `close` among it, the loop ends with the word's value, after
     * at most two failures and two more for each `close`; a descriptor that lost the race is closed.
     */
    method Update(t: Thread, attempt: int, most: nat) returns (r: int, failures: nat)
      requires Inv(View()) && PhaseOf(View(), t) == Opening && attempt !in open
      modifies this
      ensures Inv(View()) && PhaseOf(View(), t) == Idle
      ensures failures <= 2 + 2 * most
      ensures r == fileOrError
      ensures attempt >= 0 ==> r >= 0
      ensures attempt >= 0 && r != attempt ==> attempt !in open
    {
      hide Inv, Conserved;
      StepKeeps(View(), t, Open(attempt));
      phases := phases[t := Installing(attempt, EAGAIN_ERROR, 0, 0)];
      open := if attempt >= 0 then open + {attempt} else open;
      var expected := EAGAIN_ERROR;
      var closes: nat := 0;
      failures := 0;
      while true
        invariant Inv(View()) && closes <= most && failures <= 1 + 2 * closes && expected < 0
        invariant PhaseOf(View(), t) == Installing(attempt, expected, failures, closes)
        decreases 1 + 2 * most - failures
      {
        var more := Others(t, most - closes);
        closes := closes + more;
        ghost var s := View();
        UpdateKnows(s, t);
        StepKeeps(s, t, CompareExchange);
        var ok, current := CompareExchangeWord(expected, attempt);
        if ok {
          phases := phases[t := Idle];
          return attempt, failures;
        }
        failures := failures + 1;
        if current >= 0 || attempt < 0 {
          if attempt >= 0 {
            phases := phases[t := Discarding(attempt)];
            r := CloseLost(t, current);
          } else {
            phases := phases[t := Idle];
            r := current;
          }
          return r, failures;
        }
        expected := current;
        phases := phases[t := Installing(attempt, current, failures, closes)];
      }
    }

    /** The kernel's answer: an error, or a descriptor that is not in use. */
    method OpenFile() returns (r: int)
      requires Inv(View())
      ensures r !in open
    {
      r := *;
      if r in open {
        r := EAGAIN_ERROR;
        assert r in View().open ==> Placed(View(), r);
      }
    }

    /** The installed descriptor, or the error of the attempt to open one, made if nobody made it yet. */
    method Get(t: Thread, most: nat) returns (r: int)
      requires Inv(View()) && PhaseOf(View(), t) == Idle
      modifies this
      ensures Inv(View()) && PhaseOf(View(), t) == Idle
      ensures r == fileOrError
      ensures most == 0 && old(fileOrError) >= 0 ==> r == old(fileOrError)
    {
      hide Inv;
      var closes := Others(t, most);
      StepKeeps(View(), t, Load);
      r := fileOrError;
      if r == EAGAIN_ERROR {
        phases := phases[t := Opening];
        var more := Others(t, most - closes);
        var attempt := OpenFile();
        var failures;
        r, failures := Update(t, attempt, most - closes - more);
      }
    }

    /** Empties the word; a descriptor that was in it, `taken`, is closed, and not in the word meanwhile. */
    method Close(t: Thread, most: nat) returns (taken: int)
      requires Inv(View()) && PhaseOf(View(), t) == Idle
      modifies this
      ensures Inv(View()) && PhaseOf(View(), t) == Idle
      ensures most == 0 && old(fileOrError) >= 0 ==> taken == old(fileOrError)
      ensures taken < 0 ==> fileOrError == EAGAIN_ERROR
      ensures taken >= 0 ==> taken !in open && fileOrError != taken
    {
      hide Inv;
      var closes := Others(t, most);
      var s := View();
      StepKeeps(s, t, CloseSwap);
      taken := fileOrError;
      fileOrError := EAGAIN_ERROR;
      phases := Next(s, t, CloseSwap).phases;
      if taken >= 0 {
        var more := Others(t, most - closes);
        StepKeeps(View(), t, CloseCall);
        TakenIsOpen(View(), t);
        open := open - {taken};
        phases := phases[t := Idle];
      }
    }

    method CloseLost(t: Thread, current: int) returns (r: int)
      requires Inv(View()) && PhaseOf(View(), t).Discarding? && fileOrError == current >= 0
      modifies `phases, `open
      ensures Inv(View()) && PhaseOf(View(), t) == Idle && r == current
      ensures old(PhaseOf(View(), t)).file !in open
    {
      hide Inv;
      var s := View();
      StepKeeps(s, t, Discard);
      open := open - {PhaseOf(s, t).file};
      phases := phases[t := Idle];
      r := current;
    }
  }

  /** The descriptor a `close` took out is open until it closes it, and not in the word. */
  lemma TakenIsOpen(s: State, t: Thread)
    requires Inv(s) && PhaseOf(s, t).Closing?
    ensures PhaseOf(s, t).taken in s.open && PhaseOf(s, t).taken != s.word
  {
    assert Burden(PhaseOf(s, t)) == PhaseOf(s, t).taken;
  }

  lemma UpdateKnows(s: State, t: Thread)
    requires Inv(s) && PhaseOf(s, t).Installing?
    ensures Retrying(s, PhaseOf(s, t))
  {
  }
}
