/** Runs of the decoder: the states visited by repeated `move_next` from before the first item. */
module EnumeratorRuns {
  import opened EnumeratorModel

  function Last(run: seq<Core>): Core
    requires |run| > 0
  {
    run[|run| - 1]
  }

  /** Each state but the first is where `move_next` leads from the state before it. */
  ghost predicate IsRun(ev: Event, run: seq<Core>) {
    && |run| > 0 && Inv(ev, Last(run))
    && if |run| == 1 then Last(run).sub == BeforeFirstItem
       else
         var before := run[..|run| - 1];
         IsRun(ev, before) && CanMoveNext(Last(before).sub) && Last(run) == Step(ev, Last(before))
  }

  /** The same from any state. */
  ghost predicate IsPath(ev: Event, path: seq<Core>) {
    && |path| > 0 && Inv(ev, Last(path))
    && (|path| > 1 ==>
         var before := path[..|path| - 1];
         IsPath(ev, before) && CanMoveNext(Last(before).sub) && Last(path) == Step(ev, Last(before)))
  }

  lemma {:induction false} PathIsRun(ev: Event, path: seq<Core>)
    requires IsPath(ev, path) && path[0].sub == BeforeFirstItem
    ensures IsRun(ev, path)
    decreases |path|
  {
    hide Inv, Step;
    if |path| > 1 {
      PathIsRun(ev, path[..|path| - 1]);
    }
  }

  lemma PathGrows(ev: Event, path: seq<Core>)
    requires IsPath(ev, path) && CanMoveNext(Last(path).sub)
    ensures Inv(ev, Last(path)) && IsPath(ev, path + [Step(ev, Last(path))])
  {
    hide Inv, Step;
    StepInv(ev, Last(path));
    assert (path + [Step(ev, Last(path))])[..|path|] == path;
  }
}
