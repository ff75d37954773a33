/**
 * The list of tracepoints that the linker assembles for a provider, and its fix-up: sorted,
 * deduplicated and null-filled in place before each tracepoint is registered.
 */
module ProviderList {
  /** The address of a tracepoint; 0 is the null pointer. */
  type pointer = nat

  const NULL: pointer := 0

  predicate Descending(s: seq<pointer>) {
    forall i, j :: 0 <= i < j < |s| ==> s[i] >= s[j]
  }

  predicate StrictlyDescending(s: seq<pointer>) {
    forall i, j :: 0 <= i < j < |s| ==> s[i] > s[j]
  }

  // ---- sorting ----

  function Insert(x: pointer, s: seq<pointer>): (r: seq<pointer>)
    ensures |r| == |s| + 1
  {
    if s == [] || x >= s[0] then [x] + s else [s[0]] + Insert(x, s[1..])
  }

  /** What `sort_unstable_by` with the reversed order leaves; for pointers every sort leaves the same. */
  function Sorted(s: seq<pointer>): (r: seq<pointer>)
    ensures |r| == |s|
  {
    if s == [] then [] else Insert(s[0], Sorted(s[1..]))
  }

  lemma DescendingFrom(x: pointer, s: seq<pointer>)
    requires Descending(s) && forall y :: y in s ==> y <= x
    ensures Descending([x] + s)
  {
    forall i, j | 0 <= i < j < |s| + 1 ensures ([x] + s)[i] >= ([x] + s)[j] {
      assert ([x] + s)[j] == s[j - 1] && s[j - 1] in s;
    }
  }

  lemma {:induction false} InsertSorts(x: pointer, s: seq<pointer>)
    requires Descending(s)
    ensures Descending(Insert(x, s))
    ensures multiset(Insert(x, s)) == multiset(s) + multiset{x}
  {
    if s == [] || x >= s[0] {
      DescendingFrom(x, s);
    } else {
      InsertSorts(x, s[1..]);
      InsertMembers(x, s[1..]);
      assert s == [s[0]] + s[1..];
      forall y | y in Insert(x, s[1..]) ensures y <= s[0] {
        assert y in s[1..] || y == x;
      }
      DescendingFrom(s[0], Insert(x, s[1..]));
    }
  }

  lemma {:induction false} InsertMembers(x: pointer, s: seq<pointer>)
    ensures forall y :: y in Insert(x, s) <==> y == x || y in s
  {
    if s != [] && x < s[0] {
      InsertMembers(x, s[1..]);
      assert s == [s[0]] + s[1..];
    }
  }

  lemma {:induction false} SortSorts(s: seq<pointer>)
    ensures Descending(Sorted(s)) && multiset(Sorted(s)) == multiset(s)
  {
    if s != [] {
      SortSorts(s[1..]);
      InsertSorts(s[0], Sorted(s[1..]));
      assert s == [s[0]] + s[1..];
    }
  }

  ghost predicate SameMembers(s: seq<pointer>, t: seq<pointer>) {
    forall x :: x in s <==> x in t
  }

  lemma SameElements(s: seq<pointer>, t: seq<pointer>)
    requires multiset(s) == multiset(t)
    ensures SameMembers(s, t)
  {
    forall x ensures x in s <==> x in t {
      assert x in multiset(s) <==> x in multiset(t);
    }
  }

  // ---- the fixed-up list ----

  /** How many entries come before the first null. */
  function Live(s: seq<pointer>): (n: nat)
    ensures n <= |s| && (n < |s| ==> s[n] == NULL)
    ensures forall i :: 0 <= i < n ==> s[i] != NULL
  {
    if s == [] || s[0] == NULL then 0 else 1 + Live(s[1..])
  }

  /** Distinct tracepoints in descending order, then only nulls. */
  predicate Tidy(s: seq<pointer>) {
    StrictlyDescending(s[..Live(s)]) && forall i :: Live(s) <= i < |s| ==> s[i] == NULL
  }

  /** The same tracepoints, nulls and repetitions aside. */
  ghost predicate SameTracepoints(s: seq<pointer>, t: seq<pointer>) {
    forall x :: x != NULL ==> (x in s <==> x in t)
  }

  /** The fixed-up list is the only tidy list of its length with the given tracepoints. */
  lemma {:induction false} TidyIsUnique(s: seq<pointer>, t: seq<pointer>)
    requires Tidy(s) && Tidy(t) && |s| == |t| && SameTracepoints(s, t)
    ensures s == t
  {
    if s != [] {
      if s[0] != NULL {
        TidyHead(s, t);
      }
      if t[0] != NULL {
        TidyHead(t, s);
      }
      assert s[0] == t[0];
      TidyTail(s);
      TidyTail(t);
      TailsSame(s, t);
      TidyIsUnique(s[1..], t[1..]);
    }
  }

  lemma TidyHead(s: seq<pointer>, t: seq<pointer>)
    requires Tidy(s) && Tidy(t) && |s| == |t| > 0 && SameTracepoints(s, t) && s[0] != NULL
    ensures t[0] != NULL && t[0] >= s[0]
  {
    assert s[0] in t;
    var i :| 0 <= i < |t| && t[i] == s[0];
    assert i < Live(t);
    assert t[..Live(t)][i] == t[i] && t[..Live(t)][0] == t[0];
  }

  lemma TidyTail(s: seq<pointer>)
    requires Tidy(s) && s != []
    ensures Tidy(s[1..])
    ensures s[0] != NULL ==> s[0] !in s[1..]
  {
    if s[0] != NULL {
      assert Live(s) == 1 + Live(s[1..]);
      forall i, j | 0 <= i < j < Live(s[1..]) ensures s[1..][i] > s[1..][j] {
        assert s[..Live(s)][i + 1] > s[..Live(s)][j + 1];
      }
      forall i | 0 <= i < |s[1..]| ensures s[1..][i] != s[0] {
        if i < Live(s[1..]) {
          assert s[..Live(s)][0] > s[..Live(s)][i + 1];
        }
      }
    } else {
      assert forall i :: 0 <= i < |s| ==> s[i] == NULL;
      assert s[1..] == [] || s[1..][0] == NULL;
    }
  }

  lemma TailsSame(s: seq<pointer>, t: seq<pointer>)
    requires |s| == |t| > 0 && s[0] == t[0] && SameTracepoints(s, t)
    requires s[0] != NULL ==> s[0] !in s[1..] && t[0] !in t[1..]
    ensures SameTracepoints(s[1..], t[1..])
  {
    assert s == [s[0]] + s[1..] && t == [t[0]] + t[1..];
    forall x | x != NULL ensures x in s[1..] <==> x in t[1..] {
      assert x in s <==> x in t;
      assert x in s <==> x == s[0] || x in s[1..];
      assert x in t <==> x == t[0] || x in t[1..];
    }
  }

  // ---- the provider ----

  class Provider {
    const events: array<pointer>
    var busy: bool

    constructor (events: array<pointer>)
      ensures this.events == events && !busy
    {
      this.events := events;
      busy := false;
    }

    method Sort()
      modifies events
      ensures events[..] == Sorted(old(events[..]))
    {
      var sorted := Sorted(events[..]);
      forall i | 0 <= i < events.Length {
        events[i] := sorted[i];
      }
    }

    /** Overwrites repetitions: the entries up to the returned one are distinct and complete. */
    method RemoveAdjacentRepeats() returns (goodPos: nat)
      requires events.Length > 0 && Descending(events[..])
      modifies events
      ensures goodPos < events.Length
      ensures StrictlyDescending(events[..goodPos + 1])
      ensures SameMembers(events[..goodPos + 1], old(events[..]))
    {
      var end := events.Length;
      goodPos := 0;
      while goodPos != end - 1
        invariant 0 <= goodPos <= end - 1
        invariant events[..] == old(events[..])
        invariant StrictlyDescending(events[..goodPos + 1])
      {
        if events[goodPos] == events[goodPos + 1] {
          goodPos := CompactFrom(goodPos);
          return;
        }
        goodPos := goodPos + 1;
      }
      assert events[..goodPos + 1] == events[..];
    }

    /** The first repetition is at `start`: later entries are moved down over the gap. */
    method CompactFrom(start: nat) returns (goodPos: nat)
      requires start + 1 < events.Length && Descending(events[..])
      requires StrictlyDescending(events[..start + 1]) && events[start] == events[start + 1]
      modifies events
      ensures goodPos < events.Length
      ensures StrictlyDescending(events[..goodPos + 1])
      ensures SameMembers(events[..goodPos + 1], old(events[..]))
    {
      ghost var before := events[..];
      var end := events.Length;
      goodPos := start;
      var nextPos := goodPos + 2;
      CompactedAtFirst(before, start);
      while nextPos != end
        invariant Compacted(before, events[..], goodPos, nextPos)
        decreases end - nextPos
      {
        CompactedStep(before, events[..], goodPos, nextPos);
        if events[goodPos] != events[nextPos] {
          goodPos := goodPos + 1;
          events[goodPos] := events[nextPos];
        }
        nextPos := nextPos + 1;
      }
      assert before[..end] == before;
    }

    method FillWithNull(goodPos: nat)
      requires goodPos < events.Length
      modifies events
      ensures events[..goodPos + 1] == old(events[..goodPos + 1])
      ensures forall i :: goodPos < i < events.Length ==> events[i] == NULL
    {
      var nextPos := goodPos + 1;
      while nextPos != events.Length
        invariant goodPos < nextPos <= events.Length
        invariant events[..goodPos + 1] == old(events[..goodPos + 1])
        invariant forall i :: goodPos < i < nextPos ==> events[i] == NULL
        decreases events.Length - nextPos
      {
        events[nextPos] := NULL;
        nextPos := nextPos + 1;
      }
    }

    /** The fix-up: any list becomes the tidy list of the same tracepoints, in place. */
    method FixUp()
      requires events.Length > 0
      modifies events
      ensures Tidy(events[..]) && SameTracepoints(events[..], old(events[..]))
    {
      SortSorts(events[..]);
      SameElements(Sorted(events[..]), events[..]);
      Sort();
      var goodPos := RemoveAdjacentRepeats();
      FillWithNull(goodPos);
      NullFilledIsTidy(events[..], goodPos + 1);
    }

    /**
     * Registers each distinct tracepoint once, in the order of the list; the first error is kept. `answer`
     * is what registering a tracepoint does, and `touched` lists those of which the registration returned.
     * A panic, of this call beside another or of a tracepoint that is registered already, leaves the
     * provider busy.
     */
    method Register(answer: pointer -> Answer) returns (panicked: bool, result: int, touched: seq<pointer>)
      modifies this, events
      ensures old(busy) ==> panicked && events[..] == old(events[..]) && touched == []
      ensures !old(busy) ==> Tidy(events[..]) && SameTracepoints(events[..], old(events[..]))
      ensures !old(busy) ==>
                var live := events[..Live(events[..])];
                touched == live[..Returning(answer, live)] && (panicked <==> touched != live)
      ensures !panicked ==> result == FirstError(answer, touched)
      ensures busy == panicked
    {
      result, touched := 0, [];
      panicked := busy;
      busy := true;
      if panicked {
        return;
      }
      if events.Length > 0 {
        FixUp();
        panicked, result, touched := Visit(answer);
        if panicked {
          return;
        }
      }
      busy := false;
    }

    /** Unregisters the tracepoints that `Register` registered, which never panics; nothing beside another call. */
    method Unregister(answer: pointer -> Answer) returns (result: int, touched: seq<pointer>)
      requires forall p :: answer(p).Returned?
      modifies this
      ensures busy == old(busy) && events[..] == old(events[..])
      ensures old(busy) ==> result == 0 && touched == []
      ensures !old(busy) ==> touched == events[..Live(events[..])] && result == FirstError(answer, touched)
    {
      result, touched := 0, [];
      var wasBusy := busy;
      busy := true;
      if !wasBusy {
        var panicked;
        panicked, result, touched := Visit(answer);
        AllReturn(answer, events[..Live(events[..])]);
        busy := false;
      }
    }

    /** The loop both operations end in: up to the first null, or to a panic. */
    method Visit(answer: pointer -> Answer) returns (panicked: bool, result: int, touched: seq<pointer>)
      ensures var live := events[..Live(events[..])];
              touched == live[..Returning(answer, live)] && (panicked <==> touched != live)
      ensures result == FirstError(answer, touched)
    {
      panicked, result, touched := false, 0, [];
      var i := 0;
      while i < events.Length && events[i] != NULL
        invariant 0 <= i <= events.Length && touched == events[..i]
        invariant forall k :: 0 <= k < i ==> events[k] != NULL && answer(events[k]).Returned?
        invariant result == FirstError(answer, touched)
      {
        var outcome := answer(events[i]);
        if outcome.Panics? {
          ReturningIs(answer, events[..], i);
          return true, result, touched;
        }
        ErrorAppend(answer, touched, events[i]);
        touched := touched + [events[i]];
        if result == 0 {
          result := outcome.error;
        }
        i := i + 1;
      }
      ReturningIs(answer, events[..], i);
    }
  }

  /** What an operation on one tracepoint does. */
  datatype Answer = Returned(error: int) | Panics

  /** How many of the first answers return. */
  function Returning(answer: pointer -> Answer, s: seq<pointer>): (n: nat)
    ensures n <= |s| && (n < |s| ==> answer(s[n]).Panics?)
    ensures forall i :: 0 <= i < n ==> answer(s[i]).Returned?
  {
    if s == [] || answer(s[0]).Panics? then 0 else 1 + Returning(answer, s[1..])
  }

  lemma ReturningIs(answer: pointer -> Answer, s: seq<pointer>, n: nat)
    requires n <= |s| && forall k :: 0 <= k < n ==> s[k] != NULL && answer(s[k]).Returned?
    requires n < |s| ==> s[n] == NULL || answer(s[n]).Panics?
    ensures n <= Live(s) && Returning(answer, s[..Live(s)]) == n
    ensures n == Live(s) <==> n == |s| || s[n] == NULL
  {
  }

  lemma AllReturn(answer: pointer -> Answer, s: seq<pointer>)
    requires forall p :: answer(p).Returned?
    ensures s[..Returning(answer, s)] == s
  {
  }

  function FirstError(answer: pointer -> Answer, touched: seq<pointer>): int
    requires forall i :: 0 <= i < |touched| ==> answer(touched[i]).Returned?
  {
    if touched == [] then 0
    else if answer(touched[0]).error != 0 then answer(touched[0]).error
    else FirstError(answer, touched[1..])
  }

  lemma {:induction false} ErrorAppend(answer: pointer -> Answer, touched: seq<pointer>, x: pointer)
    requires (forall i :: 0 <= i < |touched| ==> answer(touched[i]).Returned?) && answer(x).Returned?
    ensures FirstError(answer, touched + [x])
         == if FirstError(answer, touched) == 0 then answer(x).error else FirstError(answer, touched)
  {
    if touched != [] {
      ErrorAppend(answer, touched[1..], x);
      assert (touched + [x])[1..] == touched[1..] + [x];
    }
  }

  lemma {:induction false} LiveIs(s: seq<pointer>, n: nat)
    requires n <= |s| && (forall k :: 0 <= k < n ==> s[k] != NULL) && (n < |s| ==> s[n] == NULL)
    ensures Live(s) == n
  {
    if n > 0 {
      LiveIs(s[1..], n - 1);
    }
  }

  /** Of the list `before`, the entries before `next` have been compacted to `cur[..good + 1]`. */
  ghost predicate Compacted(before: seq<pointer>, cur: seq<pointer>, good: nat, next: nat) {
    && |cur| == |before| && Descending(before)
    && good + 2 <= next <= |cur|
    && cur[next..] == before[next..]
    && StrictlyDescending(cur[..good + 1])
    && cur[good] == before[next - 1]
    && SameMembers(cur[..good + 1], before[..next])
  }

  lemma CompactedAtFirst(s: seq<pointer>, start: nat)
    requires start + 1 < |s| && Descending(s) && StrictlyDescending(s[..start + 1]) && s[start] == s[start + 1]
    ensures Compacted(s, s, start, start + 2)
  {
    assert s[..start + 2] == s[..start + 1] + [s[start + 1]];
    assert s[start] == s[..start + 1][start];
  }

  lemma CompactedStep(before: seq<pointer>, cur: seq<pointer>, good: nat, next: nat)
    requires Compacted(before, cur, good, next) && next < |cur|
    ensures if cur[good] != cur[next] then Compacted(before, cur[good + 1 := cur[next]], good + 1, next + 1)
            else Compacted(before, cur, good, next + 1)
  {
    assert cur[next] == cur[next..][0] == before[next..][0] == before[next];
    assert before[..next + 1] == before[..next] + [before[next]];
    if cur[good] != cur[next] {
      var cur' := cur[good + 1 := cur[next]];
      AddSmaller(cur[..good + 1], cur[next]);
      assert cur'[..good + 2] == cur[..good + 1] + [cur[next]];
      assert cur'[next + 1..] == before[next + 1..];
    } else {
      assert cur[good] == cur[..good + 1][good];
      assert cur[next + 1..] == before[next + 1..];
    }
  }

  lemma AddSmaller(s: seq<pointer>, x: pointer)
    requires StrictlyDescending(s) && s != [] && x < s[|s| - 1]
    ensures StrictlyDescending(s + [x])
  {
  }

  lemma NullFilledIsTidy(s: seq<pointer>, n: nat)
    requires 0 < n <= |s| && StrictlyDescending(s[..n]) && forall i :: n <= i < |s| ==> s[i] == NULL
    ensures Tidy(s)
    ensures SameTracepoints(s, s[..n])
  {
    forall i | 0 <= i < n - 1 ensures s[i] != NULL {
      assert s[..n][i] > s[..n][n - 1];
    }
    var live := if s[n - 1] == NULL then n - 1 else n;
    LiveIs(s, live);
    assert s[..live] == s[..n][..live];
    forall x | x != NULL && x in s ensures x in s[..n] {
      var i :| 0 <= i < |s| && s[i] == x;
      assert s[..n][i] == x;
    }
  }

  /** In a tidy list the tracepoints visited are distinct and are all there are. */
  lemma EachOnce(s: seq<pointer>)
    requires Tidy(s)
    ensures var touched := s[..Live(s)];
            && (forall i, j :: 0 <= i < j < |touched| ==> touched[i] != touched[j])
            && (forall x :: x in touched <==> x in s && x != NULL)
  {
    var touched := s[..Live(s)];
    forall x | x in s && x != NULL ensures x in touched {
      var i :| 0 <= i < |s| && s[i] == x;
      assert touched[i] == x;
    }
  }
}
