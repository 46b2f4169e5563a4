/** Concrete runs of the engine on small definitions: the walk-through of a
    three-state review workflow, a duplicate state id, a disabled action and
    an unknown action. */
module Scenarios {
  import opened Models
  import opened Engine
  import opened DuplicateDetection
  import Validator
  import ValidatorProperties

  function ReviewFlow(): WorkflowDefinition
  {
    WorkflowDefinition("review-flow",
      Some([State("start", true, false), State("review", false, false), State("done", false, true)]),
      Some([Action("submit", true, ["start"], "review"), Action("approve", true, ["review"], "done")]))
  }

  function ReviewDefs(): map<string, WorkflowDefinition>
  {
    map[ReviewFlow().id := ReviewFlow()]
  }

  /** The review workflow passes every check of CreateDefinition. */
  lemma ReviewFlowAccepted()
    ensures CreateOutcome(map[], ReviewFlow()) == Ok(ReviewFlow())
  {
    var d := ReviewFlow();
    assert !IsWhiteSpace(d.id[0]);
    assert StateIds(d.states.value) == ["start", "review", "done"];
    assert ActionIds(d.actions.value) == ["submit", "approve"];
    CreateOkIff(map[], d);
  }

  /** A new instance stands in "start" with no history. */
  lemma ReviewFlowStarts()
    ensures StartOutcome(ReviewDefs(), "review-flow") == Ok(InstanceRecord("review-flow", "start", []))
  {
  }

  /** "submit" moves the instance from "start" to "review" and records it. */
  lemma ReviewFlowSubmit(g: Guid, t1: Timestamp)
    requires g != EmptyGuid
    ensures Execute(ReviewDefs(), map[g := InstanceRecord("review-flow", "start", [])], g, "submit", t1)
            == Ok(InstanceRecord("review-flow", "review", [Change(t1, "submit", "start", "review")]))
  {
    var d := ReviewFlow();
    assert !IsWhiteSpace("submit"[0]);
    assert FindState(d.states.value, "start") == Some(d.states.value[0]);
    assert FindAction(d.actions.value, "submit") == Some(d.actions.value[0]);
    assert StateIds(d.states.value)[1] == "review";
    assert Transition(d, "start", "submit") == Ok(d.actions.value[0]);
    var before: seq<Change> := [];
    assert before + [Change(t1, "submit", "start", "review")] == [Change(t1, "submit", "start", "review")];
  }

  /** "approve" then moves it to "done": two history entries. */
  lemma ReviewFlowApprove(g: Guid, t1: Timestamp, t2: Timestamp)
    requires g != EmptyGuid
    ensures var i1 := InstanceRecord("review-flow", "review", [Change(t1, "submit", "start", "review")]);
            Execute(ReviewDefs(), map[g := i1], g, "approve", t2)
            == Ok(InstanceRecord("review-flow", "done",
                    [Change(t1, "submit", "start", "review"), Change(t2, "approve", "review", "done")]))
  {
    var d := ReviewFlow();
    assert !IsWhiteSpace("approve"[0]);
    assert FindState(d.states.value, "review") == Some(d.states.value[1]);
    assert FindAction(d.actions.value, "approve") == Some(d.actions.value[1]);
    assert StateIds(d.states.value)[2] == "done";
    assert Transition(d, "review", "approve") == Ok(d.actions.value[1]);
    assert [Change(t1, "submit", "start", "review")] + [Change(t2, "approve", "review", "done")]
        == [Change(t1, "submit", "start", "review"), Change(t2, "approve", "review", "done")];
  }

  /** In "done" every further call with an action id fails with TerminalState. */
  lemma ReviewFlowDone(g: Guid, history: seq<Change>, actionId: string, t: Timestamp)
    requires g != EmptyGuid && !IsBlank(actionId)
    ensures Execute(ReviewDefs(), map[g := InstanceRecord("review-flow", "done", history)], g, actionId, t)
            == Err(TerminalState("done"))
  {
    var d := ReviewFlow();
    assert StateIds(d.states.value) == ["start", "review", "done"];
    FinalStateAbsorbing(ReviewDefs(), map[g := InstanceRecord("review-flow", "done", history)], g, actionId, t,
                        State("done", false, true));
  }

  function DuplicateStates(): WorkflowDefinition
  {
    WorkflowDefinition("dup",
      Some([State("s1", true, false), State("s1", false, true)]),
      Some([Action("go", true, ["s1"], "s1")]))
  }

  /** A state id used twice: the validator reports it exactly once. */
  lemma DuplicateStateReported()
    ensures multiset(Validator.ValidationErrors(DuplicateStates()))[Validator.DuplicateStateId("s1")] == 1
  {
    var d := DuplicateStates();
    assert !IsWhiteSpace("s1"[0]);
    var ids := StateIds(d.states.value);
    assert ids == ["s1", "s1"];
    assert multiset(ids)["s1"] == 2;
    ValidatorProperties.ValidationStateIdCounts(d, "s1");
  }

  /** CreateDefinition rejects the same definition, naming the id. */
  lemma DuplicateStateRejected()
    ensures CreateOutcome(map[], DuplicateStates()) == Err(DuplicateStateIds(["s1"]))
  {
    var d := DuplicateStates();
    assert !IsWhiteSpace("dup"[0]);
    var ids := StateIds(d.states.value);
    assert ids == ["s1", "s1"];
    assert InitialCount(d.states.value) == 1;
    assert ids[..1] == ["s1"] && ["s1"][..0] == [];
    assert DuplicateIds(["s1"]) == [];
    assert DuplicateIds(ids) == ["s1"];
  }

  /** A disabled action from the current state fails with ActionDisabled
      and the instance stays where it is. */
  lemma DisabledActionRun(g: Guid, t: Timestamp)
    requires g != EmptyGuid
    ensures var d := WorkflowDefinition("off",
                       Some([State("a", true, false), State("b", false, true)]),
                       Some([Action("x", false, ["a"], "b")]));
            Execute(map[d.id := d], map[g := InstanceRecord(d.id, "a", [])], g, "x", t) == Err(ActionDisabled("x"))
  {
    assert !IsWhiteSpace("x"[0]);
  }

  /** An action id the definition does not declare fails with ActionNotFound. */
  lemma UnknownActionRun(g: Guid, t: Timestamp)
    requires g != EmptyGuid
    ensures var d := ReviewFlow();
            Execute(map[d.id := d], map[g := InstanceRecord(d.id, "start", [])], g, "reject", t) == Err(ActionNotFound("reject"))
  {
    assert !IsWhiteSpace("reject"[0]);
  }
}
