/**
 * The vocabulary shared by the two prototypes of the file state machine
 * (src/tests/tests.cpp and tests.cpp): callbacks held in `std::function`
 * fields, the steps a started operation runs, and the facts their plan
 * tables state about a plan.
 */
module Plans {

  /** A `std::function` value: empty, or holding the target numbered `id`. */
  datatype Callback = NoTarget | Target(id: nat)

  /**
   * One step of a started operation: `requestStopUpdate` on the last state,
   * a wait for the last state's operation, or a call of a callback with a
   * file name and a connection (`connection` identifies the object).
   */
  datatype Step<Name> = RequestStopUpdate | WaitPrevious | Call(callback: Callback, name: Name, connection: int)

  /** The callback calls of a plan, in order. */
  function Calls<Name>(plan: seq<Step<Name>>): (calls: seq<Step<Name>>)
    ensures forall i :: 0 <= i < |calls| ==> calls[i].Call?
  {
    if plan == [] then []
    else if plan[0].Call? then [plan[0]] + Calls(plan[1..])
    else Calls(plan[1..])
  }

  predicate Waits<Name>(plan: seq<Step<Name>>) {
    exists i :: 0 <= i < |plan| && plan[i].WaitPrevious?
  }

  predicate RequestsStop<Name>(plan: seq<Step<Name>>) {
    exists i :: 0 <= i < |plan| && plan[i].RequestStopUpdate?
  }

  /** Every callback call of the plan comes after a wait for the last operation. */
  predicate CallsAfterWait<Name>(plan: seq<Step<Name>>) {
    forall i :: 0 <= i < |plan| && plan[i].Call? ==> exists j :: 0 <= j < i && plan[j].WaitPrevious?
  }

  /**
   * The facts a plan table states about one plan: its calls, whether it
   * waits (at most once), whether it first requests a stop, and whether its
   * calls all follow the wait.
   */
  ghost predicate Fits<Name>(plan: seq<Step<Name>>, calls: seq<Step<Name>>, waits: bool, stops: bool, ordered: bool) {
    Calls(plan) == calls &&
    (Waits(plan) <==> waits) &&
    (forall i, j :: 0 <= i < j < |plan| && plan[i].WaitPrevious? ==> !plan[j].WaitPrevious?) &&
    (RequestsStop(plan) <==> stops) && (stops ==> |plan| > 0 && plan[0].RequestStopUpdate?) &&
    (CallsAfterWait(plan) <==> ordered)
  }

  /** The calls of two plans run one after the other are the first plan's, then the second's. */
  lemma {:induction false} CallsKeepOrder<Name>(first: seq<Step<Name>>, second: seq<Step<Name>>)
    ensures Calls(first + second) == Calls(first) + Calls(second)
  {
    if first != [] {
      assert (first + second)[1..] == first[1..] + second;
      CallsKeepOrder(first[1..], second);
    } else {
      assert first + second == second;
    }
  }

  /** A plan whose calls are not empty holds the first of them. */
  lemma CallIsInPlan<Name>(plan: seq<Step<Name>>)
    requires Calls(plan) != []
    ensures exists i :: 0 <= i < |plan| && plan[i] == Calls(plan)[0]
  {
    if plan[0].Call? {
      assert plan[0] == Calls(plan)[0];
    } else {
      CallIsInPlan(plan[1..]);
      var i :| 0 <= i < |plan[1..]| && plan[1..][i] == Calls(plan[1..])[0];
      assert plan[i + 1] == Calls(plan)[0];
    }
  }

  /** Every call of a plan is one of its calls. */
  lemma CallsCoverPlan<Name>(plan: seq<Step<Name>>, i: nat)
    requires i < |plan| && plan[i].Call?
    ensures plan[i] in Calls(plan)
  {
    if i > 0 {
      CallsCoverPlan(plan[1..], i - 1);
    }
  }

  // The shapes a plan takes, with the facts each gives.

  lemma CallOnly<Name>(plan: seq<Step<Name>>, call: Step<Name>)
    requires call.Call? && plan == [call]
    ensures Fits(plan, [call], false, false, false)
  {
    assert Calls(plan) == [call] + Calls(plan[1..]);
    assert plan[0].Call?;
  }

  lemma WaitThenCall<Name>(plan: seq<Step<Name>>, call: Step<Name>)
    requires call.Call? && plan == [WaitPrevious, call]
    ensures Fits(plan, [call], true, false, true)
  {
    assert Calls(plan) == [call] + Calls(plan[2..]) by { assert plan[1..] == [call]; }
    assert plan[0].WaitPrevious?;
  }

  lemma StopWaitThenCall<Name>(plan: seq<Step<Name>>, call: Step<Name>)
    requires call.Call? && plan == [RequestStopUpdate, WaitPrevious, call]
    ensures Fits(plan, [call], true, true, true)
  {
    assert Calls(plan) == Calls(plan[1..]) == Calls(plan[2..]) by { assert plan[1..][1..] == plan[2..] == [call]; }
    assert Calls(plan[2..]) == [call] + Calls(plan[3..]);
    assert plan[1].WaitPrevious? && plan[0].RequestStopUpdate?;
  }

  lemma CallThenWait<Name>(plan: seq<Step<Name>>, call: Step<Name>)
    requires call.Call? && plan == [call, WaitPrevious]
    ensures Fits(plan, [call], true, false, false)
  {
    assert Calls(plan) == [call] + Calls(plan[1..]);
    assert Calls(plan[1..]) == Calls(plan[2..]) by { assert plan[1..] == [WaitPrevious]; }
    assert plan[0].Call? && plan[1].WaitPrevious?;
  }

  lemma WaitOnly<Name>(plan: seq<Step<Name>>)
    requires plan == [WaitPrevious]
    ensures Fits(plan, [], true, false, true)
  {
    assert Calls(plan) == Calls(plan[1..]);
    assert plan[0].WaitPrevious?;
  }

  lemma Nothing<Name>(plan: seq<Step<Name>>)
    requires plan == []
    ensures Fits(plan, [], false, false, true)
  {
  }
}
