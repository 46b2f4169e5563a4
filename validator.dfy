/** WorkflowDefinitionValidator (Validator/WorkflowDefinitionValidator.cs):
    an error-accumulating check of a definition. The StringBuilder it appends
    lines to is a sequence of error values; the empty sequence means valid. */
module Validator {
  import opened Models

  /** One line of the validator's output, with the ids it mentions. */
  datatype ValidationError =
    | BlankDefinitionId
    | MissingStatesOrActions
    | NoStates
    | InitialStateCountNotOne
    | BlankStateId
    | DuplicateStateId(stateId: string)
    | NoActions
    | BlankActionId
    | DuplicateActionId(actionId: string)
    | UnknownToState(actionId: string, toState: string)
    | NoFromStates(actionId: string)
    | UnknownFromState(actionId: string, fromState: string)

  // ---------------------------------------------------------------------
  // What each check appends
  // ---------------------------------------------------------------------

  /** The error for a state id, given the ids of the states before it: blank
      ids are never entered in the set of seen ids, so they are never
      duplicates. */
  function StateIdError(priorIds: seq<string>, id: string): seq<ValidationError>
  {
    if IsBlank(id) then [BlankStateId]
    else if id in priorIds then [DuplicateStateId(id)]
    else []
  }

  /** The errors of the state-id loop, state by state. */
  function StateIdErrors(states: seq<State>): seq<ValidationError>
  {
    if states == [] then []
    else
      var prior := states[..|states| - 1];
      StateIdErrors(prior) + StateIdError(StateIds(prior), states[|states| - 1].id)
  }

  /** ValidateStates: no states stops the state checks; otherwise the
      initial-state count is checked and then every id. */
  function StateErrors(states: seq<State>): seq<ValidationError>
  {
    if states == [] then [NoStates]
    else (if InitialCount(states) != 1 then [InitialStateCountNotOne] else []) + StateIdErrors(states)
  }

  /** The set of declared state ids, blank ones included. */
  function DeclaredStates(states: seq<State>): set<string>
  {
    set id | id in StateIds(states)
  }

  function ActionIdError(priorIds: seq<string>, id: string): seq<ValidationError>
  {
    if IsBlank(id) then [BlankActionId]
    else if id in priorIds then [DuplicateActionId(id)]
    else []
  }

  /** One error per occurrence of an undeclared from-state. */
  function UnknownFromStates(declared: set<string>, actionId: string, fromStates: seq<string>): seq<ValidationError>
  {
    if fromStates == [] then []
    else
      var f := fromStates[|fromStates| - 1];
      UnknownFromStates(declared, actionId, fromStates[..|fromStates| - 1])
        + (if f in declared then [] else [UnknownFromState(actionId, f)])
  }

  function ToStateError(declared: set<string>, action: Action): seq<ValidationError>
  {
    if action.toState in declared then [] else [UnknownToState(action.id, action.toState)]
  }

  /** An empty from-state list is one error; otherwise each entry is checked. */
  function FromStatesErrors(declared: set<string>, action: Action): seq<ValidationError>
  {
    if action.fromStates == [] then [NoFromStates(action.id)]
    else UnknownFromStates(declared, action.id, action.fromStates)
  }

  /** The errors of one action: its id, its toState, its fromStates. */
  function SingleActionErrors(declared: set<string>, priorIds: seq<string>, action: Action): seq<ValidationError>
  {
    ActionIdError(priorIds, action.id) + ToStateError(declared, action) + FromStatesErrors(declared, action)
  }

  /** The errors of the action loop, action by action. */
  function ActionLoopErrors(declared: set<string>, actions: seq<Action>): seq<ValidationError>
  {
    if actions == [] then []
    else
      var prior := actions[..|actions| - 1];
      ActionLoopErrors(declared, prior) + SingleActionErrors(declared, ActionIds(prior), actions[|actions| - 1])
  }

  /** ValidateActions: no actions stops the action checks. */
  function ActionErrors(states: seq<State>, actions: seq<Action>): seq<ValidationError>
  {
    if actions == [] then [NoActions]
    else ActionLoopErrors(DeclaredStates(states), actions)
  }

  /** Validate: a blank id is reported and checking goes on; missing lists
      stop it. */
  function ValidationErrors(d: WorkflowDefinition): seq<ValidationError>
  {
    (if IsBlank(d.id) then [BlankDefinitionId] else [])
    + if d.states.None? || d.actions.None? then [MissingStatesOrActions]
      else StateErrors(d.states.value) + ActionErrors(d.states.value, d.actions.value)
  }

  /** The non-blank ids among `ids`: what the HashSet of seen ids holds. */
  function NonBlank(ids: seq<string>): set<string>
  {
    set x | x in ids && !IsBlank(x)
  }

  lemma NonBlankStep(ids: seq<string>, y: string)
    ensures NonBlank(ids + [y]) == if IsBlank(y) then NonBlank(ids) else NonBlank(ids) + {y}
  {
  }

  lemma AppendAssoc(a: seq<ValidationError>, b: seq<ValidationError>, c: seq<ValidationError>)
    ensures (a + b) + c == a + (b + c)
  {
  }

  lemma StateLoopStep(states: seq<State>, i: nat)
    requires i < |states|
    ensures StateIds(states[..i + 1]) == StateIds(states[..i]) + [states[i].id]
    ensures StateIdErrors(states[..i + 1]) == StateIdErrors(states[..i]) + StateIdError(StateIds(states[..i]), states[i].id)
  {
    assert states[..i + 1][..i] == states[..i];
  }

  lemma ActionLoopStep(declared: set<string>, actions: seq<Action>, i: nat)
    requires i < |actions|
    ensures ActionIds(actions[..i + 1]) == ActionIds(actions[..i]) + [actions[i].id]
    ensures ActionLoopErrors(declared, actions[..i + 1])
            == ActionLoopErrors(declared, actions[..i]) + SingleActionErrors(declared, ActionIds(actions[..i]), actions[i])
  {
    assert actions[..i + 1][..i] == actions[..i];
  }

  lemma FromLoopStep(declared: set<string>, actionId: string, fromStates: seq<string>, j: nat)
    requires j < |fromStates|
    ensures UnknownFromStates(declared, actionId, fromStates[..j + 1])
            == UnknownFromStates(declared, actionId, fromStates[..j])
               + (if fromStates[j] in declared then [] else [UnknownFromState(actionId, fromStates[j])])
  {
    assert fromStates[..j + 1][..j] == fromStates[..j];
  }

  // ---------------------------------------------------------------------
  // The validator's methods (WorkflowDefinitionValidator.cs:9-99)
  // ---------------------------------------------------------------------

  /** Validate (WorkflowDefinitionValidator.cs:9-28). The definition is a
      value: validation cannot change it. */
  method Validate(definition: WorkflowDefinition) returns (errors: seq<ValidationError>)
    ensures errors == ValidationErrors(definition)
  {
    errors := [];
    if IsBlank(definition.id) {
      errors := errors + [BlankDefinitionId];
    }
    if definition.states.None? || definition.actions.None? {
      errors := errors + [MissingStatesOrActions];
      return;
    }
    ghost var head := errors;
    errors := ValidateStates(definition.states.value, errors);
    errors := ValidateActions(definition.states.value, definition.actions.value, errors);
    AppendAssoc(head, StateErrors(definition.states.value), ActionErrors(definition.states.value, definition.actions.value));
  }

  /** ValidateStates (WorkflowDefinitionValidator.cs:30-56), appending to `errors`. */
  method ValidateStates(states: seq<State>, errors: seq<ValidationError>) returns (out: seq<ValidationError>)
    ensures out == errors + StateErrors(states)
  {
    out := errors;
    if |states| == 0 {
      out := out + [NoStates];
      return;
    }
    if InitialCount(states) != 1 {
      out := out + [InitialStateCountNotOne];
    }
    ghost var head := out;
    ghost var initialError := if InitialCount(states) != 1 then [InitialStateCountNotOne] else [];
    assert head == errors + initialError;
    var stateIds: set<string> := {};
    for i := 0 to |states|
      invariant out == head + StateIdErrors(states[..i])
      invariant stateIds == NonBlank(StateIds(states[..i]))
    {
      var state := states[i];
      StateLoopStep(states, i);
      NonBlankStep(StateIds(states[..i]), state.id);
      AppendAssoc(head, StateIdErrors(states[..i]), StateIdError(StateIds(states[..i]), state.id));
      if IsBlank(state.id) {
        out := out + [BlankStateId];
      } else if state.id in stateIds {
        out := out + [DuplicateStateId(state.id)];
      } else {
        stateIds := stateIds + {state.id};
      }
    }
    assert states[..|states|] == states;
    AppendAssoc(errors, initialError, StateIdErrors(states));
  }

  /** ValidateActions (WorkflowDefinitionValidator.cs:58-99), appending to `errors`. */
  method ValidateActions(states: seq<State>, actions: seq<Action>, errors: seq<ValidationError>)
    returns (out: seq<ValidationError>)
    ensures out == errors + ActionErrors(states, actions)
  {
    out := errors;
    if |actions| == 0 {
      out := out + [NoActions];
      return;
    }
    var stateIds := DeclaredStates(states);
    var actionIds: set<string> := {};
    ghost var head := out;
    for i := 0 to |actions|
      invariant out == head + ActionLoopErrors(stateIds, actions[..i])
      invariant actionIds == NonBlank(ActionIds(actions[..i]))
    {
      ActionLoopStep(stateIds, actions, i);
      NonBlankStep(ActionIds(actions[..i]), actions[i].id);
      actionIds, out := ValidateAction(stateIds, actionIds, actions[i], out, ActionIds(actions[..i]));
      AppendAssoc(head, ActionLoopErrors(stateIds, actions[..i]), SingleActionErrors(stateIds, ActionIds(actions[..i]), actions[i]));
    }
    assert actions[..|actions|] == actions;
  }

  /** The body of the foreach over the actions (WorkflowDefinitionValidator.cs:70-97):
      the id check against the ids seen so far (`actionIds`, the non-blank ids
      of the earlier actions `priorIds`), then the toState and the fromStates
      checks against the declared state ids. */
  method ValidateAction(stateIds: set<string>, actionIds: set<string>, action: Action,
                        errors: seq<ValidationError>, ghost priorIds: seq<string>)
    returns (seen: set<string>, out: seq<ValidationError>)
    requires actionIds == NonBlank(priorIds)
    ensures seen == if IsBlank(action.id) then actionIds else actionIds + {action.id}
    ensures out == errors + SingleActionErrors(stateIds, priorIds, action)
  {
    out := errors;
    seen := actionIds;
    ghost var idError := ActionIdError(priorIds, action.id);
    ghost var toError := ToStateError(stateIds, action);
    ghost var fromErrors := FromStatesErrors(stateIds, action);
    if IsBlank(action.id) {
      out := out + [BlankActionId];
    } else if action.id in seen {
      out := out + [DuplicateActionId(action.id)];
    } else {
      seen := seen + {action.id};
    }
    assert out == errors + idError;
    if action.toState !in stateIds {
      out := out + [UnknownToState(action.id, action.toState)];
    }
    assert out == (errors + idError) + toError;
    ghost var beforeFrom := out;
    if |action.fromStates| == 0 {
      out := out + [NoFromStates(action.id)];
    } else {
      for j := 0 to |action.fromStates|
        invariant out == beforeFrom + UnknownFromStates(stateIds, action.id, action.fromStates[..j])
      {
        FromLoopStep(stateIds, action.id, action.fromStates, j);
        AppendAssoc(beforeFrom, UnknownFromStates(stateIds, action.id, action.fromStates[..j]),
                    if action.fromStates[j] in stateIds then [] else [UnknownFromState(action.id, action.fromStates[j])]);
        if action.fromStates[j] !in stateIds {
          out := out + [UnknownFromState(action.id, action.fromStates[j])];
        }
      }
      assert action.fromStates[..|action.fromStates|] == action.fromStates;
    }
    assert out == beforeFrom + fromErrors;
    AppendAssoc(errors, idError, toError);
    AppendAssoc(errors, idError + toError, fromErrors);
  }
}
