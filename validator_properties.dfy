/** What the validator's output means: which errors it reports for which
    inputs, how often, and that an empty report characterises exactly the
    well-formed definitions. */
module ValidatorProperties {
  import opened Models
  import opened Validator
  import Engine

  /** The errors only ValidateStates appends. */
  predicate IsStateError(e: ValidationError)
  {
    e.NoStates? || e.InitialStateCountNotOne? || e.BlankStateId? || e.DuplicateStateId?
  }

  /** The errors only ValidateActions appends. */
  predicate IsActionError(e: ValidationError)
  {
    || e.NoActions? || e.BlankActionId? || e.DuplicateActionId?
    || e.UnknownToState? || e.NoFromStates? || e.UnknownFromState?
  }

  /** The errors that concern one particular action. */
  predicate IsPerActionError(e: ValidationError)
  {
    IsActionError(e) && !e.NoActions?
  }

  /** The number of blank ids in `ids`. */
  function BlankIdCount(ids: seq<string>): nat
  {
    if ids == [] then 0
    else BlankIdCount(ids[..|ids| - 1]) + (if IsBlank(ids[|ids| - 1]) then 1 else 0)
  }

  /** An action with a non-blank id, a known toState and a non-empty list
      of known fromStates. */
  predicate ActionWellFormed(states: seq<State>, action: Action)
  {
    && !IsBlank(action.id)
    && action.toState in StateIds(states)
    && |action.fromStates| > 0
    && forall f :: f in action.fromStates ==> f in StateIds(states)
  }

  /** The definitions the validator is meant to accept. */
  predicate WellFormed(d: WorkflowDefinition)
  {
    && !IsBlank(d.id)
    && d.states.Some? && d.actions.Some?
    && var states, actions := d.states.value, d.actions.value;
       && |states| > 0 && InitialCount(states) == 1
       && (forall i :: 0 <= i < |states| ==> !IsBlank(states[i].id))
       && Distinct(StateIds(states))
       && |actions| > 0
       && Distinct(ActionIds(actions))
       && forall i :: 0 <= i < |actions| ==> ActionWellFormed(states, actions[i])
  }

  /** What Validate reports before looking at the lists. */
  function HeadErrors(d: WorkflowDefinition): seq<ValidationError>
  {
    if IsBlank(d.id) then [BlankDefinitionId] else []
  }

  /** What ValidateStates reports before the id loop of a non-empty list. */
  function InitialError(states: seq<State>): seq<ValidationError>
  {
    if InitialCount(states) != 1 then [InitialStateCountNotOne] else []
  }

  // ---------------------------------------------------------------------
  // Small facts about prefixes
  // ---------------------------------------------------------------------

  lemma DistinctSnoc(ids: seq<string>, y: string)
    ensures Distinct(ids + [y]) <==> Distinct(ids) && y !in ids
  {
    var s := ids + [y];
    if Distinct(s) {
      forall i, j | 0 <= i < j < |ids| ensures ids[i] != ids[j] {
        assert s[i] == ids[i] && s[j] == ids[j];
      }
      forall i | 0 <= i < |ids| ensures ids[i] != y {
        assert s[i] == ids[i] && s[|ids|] == y;
      }
    }
  }

  lemma CountAfter(a: seq<ValidationError>, b: seq<ValidationError>, e: ValidationError)
    requires e !in a
    ensures multiset(a + b)[e] == multiset(b)[e]
  {
    assert multiset(a + b) == multiset(a) + multiset(b);
  }

  lemma CountBefore(a: seq<ValidationError>, b: seq<ValidationError>, e: ValidationError)
    requires e !in b
    ensures multiset(a + b)[e] == multiset(a)[e]
  {
    assert multiset(a + b) == multiset(a) + multiset(b);
  }

  /** Only the middle part of a concatenation holds occurrences of `e`. */
  lemma CountBetween(whole: seq<ValidationError>, a: seq<ValidationError>, b: seq<ValidationError>,
                     c: seq<ValidationError>, e: ValidationError)
    requires whole == (a + b) + c && e !in a && e !in c
    ensures multiset(whole)[e] == multiset(b)[e]
  {
    assert multiset(whole) == multiset(a) + multiset(b) + multiset(c);
  }

  lemma StateIdsSnoc(states: seq<State>)
    requires states != []
    ensures StateIds(states) == StateIds(states[..|states| - 1]) + [states[|states| - 1].id]
  {
  }

  lemma ActionIdsSnoc(actions: seq<Action>)
    requires actions != []
    ensures ActionIds(actions) == ActionIds(actions[..|actions| - 1]) + [actions[|actions| - 1].id]
  {
  }

  // ---------------------------------------------------------------------
  // Which checks produce which errors
  // ---------------------------------------------------------------------

  lemma {:induction false} StateErrorKinds(states: seq<State>)
    ensures forall e :: e in StateIdErrors(states) ==> e.BlankStateId? || e.DuplicateStateId?
    ensures forall e :: e in StateErrors(states) ==> IsStateError(e)
  {
    if states != [] {
      StateErrorKinds(states[..|states| - 1]);
    }
  }

  lemma {:induction false} UnknownFromStatesKinds(declared: set<string>, actionId: string, fromStates: seq<string>)
    ensures forall e :: e in UnknownFromStates(declared, actionId, fromStates) ==> e.UnknownFromState?
  {
    if fromStates != [] {
      UnknownFromStatesKinds(declared, actionId, fromStates[..|fromStates| - 1]);
    }
  }

  lemma {:induction false} ActionLoopKinds(declared: set<string>, actions: seq<Action>)
    ensures forall e :: e in ActionLoopErrors(declared, actions) ==> IsPerActionError(e)
  {
    if actions != [] {
      ActionLoopKinds(declared, actions[..|actions| - 1]);
      UnknownFromStatesKinds(declared, actions[|actions| - 1].id, actions[|actions| - 1].fromStates);
    }
  }

  lemma ActionErrorKinds(states: seq<State>, actions: seq<Action>)
    ensures forall e :: e in ActionErrors(states, actions) ==> IsActionError(e)
  {
    ActionLoopKinds(DeclaredStates(states), actions);
  }

  // ---------------------------------------------------------------------
  // Validate's top level (WorkflowDefinitionValidator.cs:13-27)
  // ---------------------------------------------------------------------

  /** A blank definition id adds one error in front and checking goes on:
      the rest of the report does not depend on the id. */
  lemma BlankIdDoesNotStop(d: WorkflowDefinition, other: string)
    requires IsBlank(d.id) && !IsBlank(other)
    ensures ValidationErrors(d) == [BlankDefinitionId] + ValidationErrors(d.(id := other))
  {
  }

  /** The blank-id error is reported at most once, exactly for blank ids. */
  lemma BlankIdReportedOnce(d: WorkflowDefinition)
    ensures multiset(ValidationErrors(d))[BlankDefinitionId] == if IsBlank(d.id) then 1 else 0
  {
    var head := HeadErrors(d);
    if d.states.Some? && d.actions.Some? {
      var se, ae := StateErrors(d.states.value), ActionErrors(d.states.value, d.actions.value);
      StateErrorKinds(d.states.value);
      ActionErrorKinds(d.states.value, d.actions.value);
      assert BlankDefinitionId !in se && BlankDefinitionId !in ae;
      assert multiset(se + ae)[BlankDefinitionId] == 0;
      assert ValidationErrors(d) == head + (se + ae);
    } else {
      assert ValidationErrors(d) == head + [MissingStatesOrActions];
    }
  }

  /** Missing States or Actions: exactly the structural error, after the
      blank-id error if any; nothing else is checked. */
  lemma MissingListsStop(d: WorkflowDefinition)
    requires d.states.None? || d.actions.None?
    ensures ValidationErrors(d) == (if IsBlank(d.id) then [BlankDefinitionId] else []) + [MissingStatesOrActions]
  {
  }

  // ---------------------------------------------------------------------
  // State checks (WorkflowDefinitionValidator.cs:30-56)
  // ---------------------------------------------------------------------

  /** No states: the "at least one state" error alone among the state
      errors, and the action checks still run, against no declared state,
      so every action is reported for its toState. */
  lemma EmptyStatesReport(d: WorkflowDefinition)
    requires d.states == Some([]) && d.actions.Some?
    ensures NoStates in ValidationErrors(d)
    ensures InitialStateCountNotOne !in ValidationErrors(d) && BlankStateId !in ValidationErrors(d)
    ensures forall x :: DuplicateStateId(x) !in ValidationErrors(d)
    ensures forall a :: a in d.actions.value ==> UnknownToState(a.id, a.toState) in ValidationErrors(d)
  {
    var errors, ae := ValidationErrors(d), ActionErrors([], d.actions.value);
    assert errors == (HeadErrors(d) + [NoStates]) + ae;
    ActionErrorKinds([], d.actions.value);
    assert InitialStateCountNotOne !in ae && BlankStateId !in ae;
    forall x ensures DuplicateStateId(x) !in errors {
      assert DuplicateStateId(x) !in ae;
    }
    assert DeclaredStates([]) == {};
    forall a | a in d.actions.value ensures UnknownToState(a.id, a.toState) in errors {
      UndeclaredToStateReported({}, d.actions.value, a);
    }
  }

  /** Every action whose toState is not declared is reported for it. */
  lemma UndeclaredToStateReported(declared: set<string>, actions: seq<Action>, a: Action)
    requires a in actions && a.toState !in declared
    ensures UnknownToState(a.id, a.toState) in ActionLoopErrors(declared, actions)
  {
    var i :| 0 <= i < |actions| && actions[i] == a;
    ActionReported(declared, actions, i);
  }

  /** Every error of the action at index i appears in the loop's output. */
  lemma {:induction false} ActionReported(declared: set<string>, actions: seq<Action>, i: nat)
    requires i < |actions|
    ensures forall e :: e in SingleActionErrors(declared, ActionIds(actions[..i]), actions[i]) ==>
                          e in ActionLoopErrors(declared, actions)
  {
    var prior := actions[..|actions| - 1];
    if i < |actions| - 1 {
      assert prior[..i] == actions[..i] && prior[i] == actions[i];
      ActionReported(declared, prior, i);
    } else {
      assert actions[..i] == prior;
    }
  }

  /** For a non-empty state list, the initial-state error is reported
      exactly when the number of initial states is not one. */
  lemma InitialErrorIff(d: WorkflowDefinition)
    requires d.states.Some? && d.actions.Some? && |d.states.value| > 0
    ensures InitialStateCountNotOne in ValidationErrors(d) <==> InitialCount(d.states.value) != 1
  {
    StateErrorKinds(d.states.value);
    ActionErrorKinds(d.states.value, d.actions.value);
  }

  /** Each blank state id is one "empty" error; a non-blank id that occurs k
      times gives k - 1 duplicate errors; a blank id is never a duplicate. */
  lemma {:induction false} StateIdErrorCounts(states: seq<State>, x: string)
    ensures multiset(StateIdErrors(states))[BlankStateId] == BlankIdCount(StateIds(states))
    ensures multiset(StateIdErrors(states))[DuplicateStateId(x)] ==
              if IsBlank(x) || x !in StateIds(states) then 0 else multiset(StateIds(states))[x] - 1
  {
    if states != [] {
      var prior := states[..|states| - 1];
      var id := states[|states| - 1].id;
      StateIdErrorCounts(prior, x);
      StateIdsSnoc(states);
      assert multiset(StateIdErrors(states)) == multiset(StateIdErrors(prior)) + multiset(StateIdError(StateIds(prior), id));
      assert x in StateIds(prior) <==> multiset(StateIds(prior))[x] > 0;
    }
  }

  /** The state-id counts on the whole report of a definition with states. */
  lemma ValidationStateIdCounts(d: WorkflowDefinition, x: string)
    requires d.states.Some? && d.actions.Some? && |d.states.value| > 0
    ensures var errors, ids := ValidationErrors(d), StateIds(d.states.value);
            && multiset(errors)[BlankStateId] == BlankIdCount(ids)
            && multiset(errors)[DuplicateStateId(x)] ==
                 if IsBlank(x) || x !in ids then 0 else multiset(ids)[x] - 1
  {
    StateIdsOnlyFromStateLoop(d, BlankStateId);
    StateIdsOnlyFromStateLoop(d, DuplicateStateId(x));
    StateIdErrorCounts(d.states.value, x);
  }

  /** Errors about state ids come from the state-id loop only. */
  lemma StateIdsOnlyFromStateLoop(d: WorkflowDefinition, e: ValidationError)
    requires d.states.Some? && d.actions.Some? && |d.states.value| > 0
    requires e.BlankStateId? || e.DuplicateStateId?
    ensures multiset(ValidationErrors(d))[e] == multiset(StateIdErrors(d.states.value))[e]
  {
    var states := d.states.value;
    var pre := HeadErrors(d) + InitialError(states);
    var sie, ae := StateIdErrors(states), ActionErrors(states, d.actions.value);
    StatesShape(d);
    ActionErrorKinds(states, d.actions.value);
    CountBetween(ValidationErrors(d), pre, sie, ae, e);
  }

  lemma StatesShape(d: WorkflowDefinition)
    requires d.states.Some? && d.actions.Some? && |d.states.value| > 0
    ensures ValidationErrors(d) ==
              ((HeadErrors(d) + InitialError(d.states.value)) + StateIdErrors(d.states.value))
              + ActionErrors(d.states.value, d.actions.value)
  {
    var states := d.states.value;
    var head, init, sie, ae := HeadErrors(d), InitialError(states), StateIdErrors(states), ActionErrors(states, d.actions.value);
    assert ValidationErrors(d) == head + ((init + sie) + ae);
    AppendAssoc(head, init + sie, ae);
    AppendAssoc(head, init, sie);
  }

  // ---------------------------------------------------------------------
  // Action checks (WorkflowDefinitionValidator.cs:58-99)
  // ---------------------------------------------------------------------

  /** No actions: the "at least one action" error once, and no error about
      any particular action. */
  lemma EmptyActionsReport(d: WorkflowDefinition)
    requires d.states.Some? && d.actions == Some([])
    ensures multiset(ValidationErrors(d))[NoActions] == 1
    ensures forall e :: e in ValidationErrors(d) ==> !IsPerActionError(e)
  {
    var head := HeadErrors(d);
    var se := StateErrors(d.states.value);
    EmptyActionsShape(d);
    BeforeActionsKinds(d);
    CountAfter(head + se, [NoActions], NoActions);
  }

  /** What is reported before the action checks is never an action error. */
  lemma BeforeActionsKinds(d: WorkflowDefinition)
    requires d.states.Some?
    ensures forall e :: e in HeadErrors(d) + StateErrors(d.states.value) ==> !IsActionError(e)
  {
    StateErrorKinds(d.states.value);
    forall e | e in HeadErrors(d) + StateErrors(d.states.value) ensures !IsActionError(e) {
      assert e in HeadErrors(d) || e in StateErrors(d.states.value);
    }
  }

  lemma EmptyActionsShape(d: WorkflowDefinition)
    requires d.states.Some? && d.actions == Some([])
    ensures ValidationErrors(d) == (HeadErrors(d) + StateErrors(d.states.value)) + [NoActions]
  {
  }

  lemma {:induction false} UnknownFromStatesCount(declared: set<string>, actionId: string, fromStates: seq<string>, f: string)
    ensures multiset(UnknownFromStates(declared, actionId, fromStates))[UnknownFromState(actionId, f)] ==
              if f in declared then 0 else multiset(fromStates)[f]
  {
    if fromStates != [] {
      var prior := fromStates[..|fromStates| - 1];
      var g := fromStates[|fromStates| - 1];
      UnknownFromStatesCount(declared, actionId, prior, f);
      assert fromStates == prior + [g];
      assert multiset(UnknownFromStates(declared, actionId, fromStates)) ==
             multiset(UnknownFromStates(declared, actionId, prior)) + multiset(if g in declared then [] else [UnknownFromState(actionId, g)]);
    }
  }

  lemma {:induction false} UnknownFromStatesEmptyIff(declared: set<string>, actionId: string, fromStates: seq<string>)
    ensures UnknownFromStates(declared, actionId, fromStates) == [] <==> forall g :: g in fromStates ==> g in declared
  {
    if fromStates != [] {
      var prior := fromStates[..|fromStates| - 1];
      UnknownFromStatesEmptyIff(declared, actionId, prior);
      assert fromStates == prior + [fromStates[|fromStates| - 1]];
    }
  }

  /** The errors of one action: one for an undeclared toState; exactly one
      for an empty fromStates list; otherwise one per occurrence of each
      undeclared fromState. */
  lemma SingleActionErrorCounts(declared: set<string>, priorIds: seq<string>, action: Action, f: string)
    ensures var errors := multiset(SingleActionErrors(declared, priorIds, action));
            && errors[UnknownToState(action.id, action.toState)] == (if action.toState in declared then 0 else 1)
            && errors[NoFromStates(action.id)] == (if action.fromStates == [] then 1 else 0)
            && errors[UnknownFromState(action.id, f)] ==
                 if action.fromStates == [] || f in declared then 0 else multiset(action.fromStates)[f]
  {
    var idE, toE, fromE := ActionIdError(priorIds, action.id), ToStateError(declared, action), FromStatesErrors(declared, action);
    var to, none, from := UnknownToState(action.id, action.toState), NoFromStates(action.id), UnknownFromState(action.id, f);
    assert SingleActionErrors(declared, priorIds, action) == (idE + toE) + fromE;
    assert to !in idE && none !in idE && from !in idE;
    assert none !in toE && from !in toE;
    UnknownFromStatesKinds(declared, action.id, action.fromStates);
    if action.fromStates == [] {
      CountAfter(idE + toE, fromE, none);
      CountBefore(idE + toE, fromE, to);
      CountBefore(idE + toE, fromE, from);
    } else {
      UnknownFromStatesCount(declared, action.id, action.fromStates, f);
      CountAfter(idE + toE, fromE, from);
      CountBefore(idE + toE, fromE, to);
      CountBefore(idE + toE, fromE, none);
    }
    CountAfter(idE, toE, to);
    CountAfter(idE, toE, none);
  }

  /** Of one action's errors, only the id error concerns action ids. */
  lemma SingleActionIdCounts(declared: set<string>, priorIds: seq<string>, action: Action, x: string)
    ensures var errors := multiset(SingleActionErrors(declared, priorIds, action));
            && errors[BlankActionId] == (if IsBlank(action.id) then 1 else 0)
            && errors[DuplicateActionId(x)] ==
                 if !IsBlank(action.id) && action.id == x && x in priorIds then 1 else 0
  {
    var idE, toE, fromE := ActionIdError(priorIds, action.id), ToStateError(declared, action), FromStatesErrors(declared, action);
    AppendAssoc(idE, toE, fromE);
    UnknownFromStatesKinds(declared, action.id, action.fromStates);
    CountBefore(idE, toE + fromE, BlankActionId);
    CountBefore(idE, toE + fromE, DuplicateActionId(x));
  }

  /** Action ids follow the state-id rule: one error per blank id, k - 1
      duplicate errors for a non-blank id occurring k times. */
  lemma {:induction false} ActionIdErrorCounts(declared: set<string>, actions: seq<Action>, x: string)
    ensures multiset(ActionLoopErrors(declared, actions))[BlankActionId] == BlankIdCount(ActionIds(actions))
    ensures multiset(ActionLoopErrors(declared, actions))[DuplicateActionId(x)] ==
              if IsBlank(x) || x !in ActionIds(actions) then 0 else multiset(ActionIds(actions))[x] - 1
  {
    if actions != [] {
      var prior := actions[..|actions| - 1];
      var a := actions[|actions| - 1];
      ActionIdErrorCounts(declared, prior, x);
      ActionIdsSnoc(actions);
      SingleActionIdCounts(declared, ActionIds(prior), a, x);
      var ids := ActionIds(actions);
      assert ids[..|ids| - 1] == ActionIds(prior);
      assert x in ActionIds(prior) <==> multiset(ActionIds(prior))[x] > 0;
    }
  }

  /** The action-id counts on the whole report of a definition with actions. */
  lemma ValidationActionIdCounts(d: WorkflowDefinition, x: string)
    requires d.states.Some? && d.actions.Some? && |d.actions.value| > 0
    ensures var errors, ids := ValidationErrors(d), ActionIds(d.actions.value);
            && multiset(errors)[BlankActionId] == BlankIdCount(ids)
            && multiset(errors)[DuplicateActionId(x)] ==
                 if IsBlank(x) || x !in ids then 0 else multiset(ids)[x] - 1
  {
    ActionIdsOnlyFromActions(d, BlankActionId);
    ActionIdsOnlyFromActions(d, DuplicateActionId(x));
    ActionIdErrorCounts(DeclaredStates(d.states.value), d.actions.value, x);
  }

  /** Errors about action ids come from the action loop only. */
  lemma ActionIdsOnlyFromActions(d: WorkflowDefinition, e: ValidationError)
    requires d.states.Some? && d.actions.Some? && |d.actions.value| > 0
    requires e.BlankActionId? || e.DuplicateActionId?
    ensures multiset(ValidationErrors(d))[e] == multiset(ActionLoopErrors(DeclaredStates(d.states.value), d.actions.value))[e]
  {
    var head := HeadErrors(d);
    var se := StateErrors(d.states.value);
    var ae := ActionLoopErrors(DeclaredStates(d.states.value), d.actions.value);
    assert ValidationErrors(d) == head + (se + ae);
    AppendAssoc(head, se, ae);
    StateErrorKinds(d.states.value);
    CountAfter(head + se, ae, e);
  }

  // ---------------------------------------------------------------------
  // Soundness and completeness
  // ---------------------------------------------------------------------

  lemma {:induction false} StateIdErrorsEmptyIff(states: seq<State>)
    ensures StateIdErrors(states) == [] <==>
              (forall i :: 0 <= i < |states| ==> !IsBlank(states[i].id)) && Distinct(StateIds(states))
  {
    if states != [] {
      var prior := states[..|states| - 1];
      StateIdErrorsEmptyIff(prior);
      StateIdsSnoc(states);
      DistinctSnoc(StateIds(prior), states[|states| - 1].id);
      assert forall i :: 0 <= i < |prior| ==> prior[i] == states[i];
    }
  }

  lemma {:induction false} ActionLoopErrorsEmptyIff(states: seq<State>, actions: seq<Action>)
    ensures ActionLoopErrors(DeclaredStates(states), actions) == [] <==>
              Distinct(ActionIds(actions)) && forall i :: 0 <= i < |actions| ==> ActionWellFormed(states, actions[i])
  {
    if actions != [] {
      var prior := actions[..|actions| - 1];
      var a := actions[|actions| - 1];
      ActionLoopErrorsEmptyIff(states, prior);
      ActionIdsSnoc(actions);
      DistinctSnoc(ActionIds(prior), a.id);
      SingleActionEmptyIff(states, ActionIds(prior), a);
      assert actions == prior + [a];
      AllWellFormedSnoc(states, prior, a);
    }
  }

  lemma AllWellFormedSnoc(states: seq<State>, prior: seq<Action>, a: Action)
    ensures var actions := prior + [a];
            (forall i :: 0 <= i < |actions| ==> ActionWellFormed(states, actions[i])) <==>
              (forall i :: 0 <= i < |prior| ==> ActionWellFormed(states, prior[i])) && ActionWellFormed(states, a)
  {
    var actions := prior + [a];
    assert forall i :: 0 <= i < |prior| ==> actions[i] == prior[i];
    assert actions[|prior|] == a;
  }

  /** One action is reported on exactly when its id is blank or repeated or
      it refers to an undeclared state or has no fromStates. */
  lemma SingleActionEmptyIff(states: seq<State>, priorIds: seq<string>, a: Action)
    ensures SingleActionErrors(DeclaredStates(states), priorIds, a) == [] <==>
              a.id !in priorIds && ActionWellFormed(states, a)
  {
    UnknownFromStatesEmptyIff(DeclaredStates(states), a.id, a.fromStates);
  }

  /** The validator reports nothing exactly for well-formed definitions: a
      non-blank id, exactly one initial state, non-blank and distinct state
      and action ids, and every action's toState and (non-empty) fromStates
      declared. */
  lemma ValidIff(d: WorkflowDefinition)
    ensures ValidationErrors(d) == [] <==> WellFormed(d)
  {
    if d.states.Some? && d.actions.Some? {
      StateIdErrorsEmptyIff(d.states.value);
      ActionLoopErrorsEmptyIff(d.states.value, d.actions.value);
    }
  }

  /** A definition the validator passes also passes every check of
      CreateDefinition, so it is stored unless its id is taken. */
  lemma ValidIsAccepted(defs: map<string, WorkflowDefinition>, d: WorkflowDefinition)
    requires ValidationErrors(d) == [] && d.id !in defs
    ensures Engine.Accepted(d) && Engine.CreateOutcome(defs, d) == Ok(d)
  {
    ValidIff(d);
    Engine.CreateOkIff(defs, d);
  }

  /** CreateDefinition does not run the validator: it stores a definition
      whose only action leads to an undeclared state and which the
      validator rejects. */
  lemma CreateAcceptsUnknownToState()
    ensures var d := WorkflowDefinition("wf", Some([State("a", true, false)]),
                                        Some([Action("go", true, ["a"], "nowhere")]));
            && Engine.CreateOutcome(map[], d) == Ok(d)
            && UnknownToState("go", "nowhere") in ValidationErrors(d)
  {
    var d := WorkflowDefinition("wf", Some([State("a", true, false)]),
                                Some([Action("go", true, ["a"], "nowhere")]));
    assert !IsWhiteSpace("wf"[0]) && !IsWhiteSpace("go"[0]);
    assert "nowhere" !in StateIds(d.states.value);
    assert Distinct(StateIds(d.states.value)) && Distinct(ActionIds(d.actions.value));
    Engine.CreateOkIff(map[], d);
  }
}
