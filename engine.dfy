/** The decisions WorkflowService makes, as functions of the store's contents:
    which definitions CreateDefinition accepts, which state StartInstance
    starts in, and which transitions ExecuteAction lets fire. The class in
    module Service is proved to behave as these functions say; the lemmas
    here say what the decisions mean. */
module Engine {
  import opened Models
  import opened DuplicateDetection

  // ---------------------------------------------------------------------
  // CreateDefinition (WorkflowService.cs:18-96)
  // ---------------------------------------------------------------------

  datatype CreateError =
    | MissingStatesOrActions
    | BlankDefinitionId
    | DefinitionAlreadyExists(id: string)
    | InitialStateCountNotOne
    | DuplicateStateIds(stateIds: seq<string>)
    | DuplicateActionIds(actionIds: seq<string>)

  /** The checks of CreateDefinition, in the order the code runs them; the
      first that fails decides the error. */
  function CreateOutcome(defs: map<string, WorkflowDefinition>, d: WorkflowDefinition): Result<WorkflowDefinition, CreateError>
  {
    if d.states.None? || d.actions.None? then Err(MissingStatesOrActions)
    else if IsBlank(d.id) then Err(BlankDefinitionId)
    else if d.id in defs then Err(DefinitionAlreadyExists(d.id))
    else if InitialCount(d.states.value) != 1 then Err(InitialStateCountNotOne)
    else if DuplicateIds(StateIds(d.states.value)) != [] then
      Err(DuplicateStateIds(DuplicateIds(StateIds(d.states.value))))
    else if DuplicateIds(ActionIds(d.actions.value)) != [] then
      Err(DuplicateActionIds(DuplicateIds(ActionIds(d.actions.value))))
    else Ok(d)
  }

  /** What CreateDefinition establishes about a definition before it stores it. */
  predicate Accepted(d: WorkflowDefinition)
  {
    && d.states.Some? && d.actions.Some?
    && !IsBlank(d.id)
    && InitialCount(d.states.value) == 1
    && Distinct(StateIds(d.states.value))
    && Distinct(ActionIds(d.actions.value))
  }

  /** CreateDefinition succeeds exactly on accepted definitions under a new
      id, and then returns the definition it was given. */
  lemma CreateOkIff(defs: map<string, WorkflowDefinition>, d: WorkflowDefinition)
    ensures CreateOutcome(defs, d).Ok? <==> Accepted(d) && d.id !in defs
    ensures CreateOutcome(defs, d).Ok? ==> CreateOutcome(defs, d).value == d
  {
    if d.states.Some? && d.actions.Some? {
      DuplicateIdsEmptyIff(StateIds(d.states.value));
      DuplicateIdsEmptyIff(ActionIds(d.actions.value));
    }
  }

  /** Each of the first four errors is reported exactly when its check fails
      and every earlier check passed. */
  lemma CreateCheckOrder(defs: map<string, WorkflowDefinition>, d: WorkflowDefinition)
    ensures var r := CreateOutcome(defs, d);
      && (r == Err(MissingStatesOrActions) <==> d.states.None? || d.actions.None?)
      && (r == Err(BlankDefinitionId) <==> d.states.Some? && d.actions.Some? && IsBlank(d.id))
      && (r == Err(DefinitionAlreadyExists(d.id)) <==>
            d.states.Some? && d.actions.Some? && !IsBlank(d.id) && d.id in defs)
      && (r == Err(InitialStateCountNotOne) <==>
            d.states.Some? && d.actions.Some? && !IsBlank(d.id) && d.id !in defs
            && InitialCount(d.states.value) != 1)
      && (r.Err? && r.error.DefinitionAlreadyExists? ==> r.error.id == d.id)
  {
  }

  /** A duplicate-state failure names every repeated state id, each once, in
      the order of first repetition (the ids repeated among the first n
      states come first, for every n), and only after the earlier checks
      passed. */
  lemma {:induction false} DuplicateStatesReport(defs: map<string, WorkflowDefinition>, d: WorkflowDefinition, dups: seq<string>)
    requires CreateOutcome(defs, d) == Err(DuplicateStateIds(dups))
    ensures d.states.Some? && d.actions.Some? && !IsBlank(d.id) && d.id !in defs
    ensures InitialCount(d.states.value) == 1
    ensures dups != [] && Distinct(dups) && !Distinct(StateIds(d.states.value))
    ensures forall x :: x in dups <==> multiset(StateIds(d.states.value))[x] >= 2
    ensures forall n :: 0 <= n <= |d.states.value| ==> DuplicateIds(StateIds(d.states.value)[..n]) <= dups
  {
    var ids := StateIds(d.states.value);
    DuplicateIdsDistinct(ids);
    DuplicateIdsEmptyIff(ids);
    forall x ensures x in dups <==> multiset(ids)[x] >= 2 {
      DuplicateIdsMembers(ids, x);
    }
    forall n | 0 <= n <= |d.states.value| ensures DuplicateIds(ids[..n]) <= dups {
      DuplicateIdsPrefix(ids, n);
    }
  }

  /** The same for a duplicate-action failure, which is reached only when the
      state ids are distinct. */
  lemma {:induction false} DuplicateActionsReport(defs: map<string, WorkflowDefinition>, d: WorkflowDefinition, dups: seq<string>)
    requires CreateOutcome(defs, d) == Err(DuplicateActionIds(dups))
    ensures d.states.Some? && d.actions.Some? && !IsBlank(d.id) && d.id !in defs
    ensures InitialCount(d.states.value) == 1 && Distinct(StateIds(d.states.value))
    ensures dups != [] && Distinct(dups) && !Distinct(ActionIds(d.actions.value))
    ensures forall x :: x in dups <==> multiset(ActionIds(d.actions.value))[x] >= 2
    ensures forall n :: 0 <= n <= |d.actions.value| ==> DuplicateIds(ActionIds(d.actions.value)[..n]) <= dups
  {
    var ids := ActionIds(d.actions.value);
    DuplicateIdsEmptyIff(StateIds(d.states.value));
    DuplicateIdsDistinct(ids);
    DuplicateIdsEmptyIff(ids);
    forall x ensures x in dups <==> multiset(ids)[x] >= 2 {
      DuplicateIdsMembers(ids, x);
    }
    forall n | 0 <= n <= |d.actions.value| ensures DuplicateIds(ids[..n]) <= dups {
      DuplicateIdsPrefix(ids, n);
    }
  }

  // ---------------------------------------------------------------------
  // StartInstance (WorkflowService.cs:100-120)
  // ---------------------------------------------------------------------

  /** The value part of a WorkflowInstance (Models/WorkflowInstance.cs). */
  datatype InstanceRecord = InstanceRecord(definitionId: string, currentState: string, history: seq<Change>)

  datatype StartError =
    | DefinitionNotFound(definitionId: string)
    | NoInitialState
    | MultipleInitialStates

  /** Every definition in the store has its States and Actions lists. */
  predicate WellShaped(defs: map<string, WorkflowDefinition>)
  {
    forall k :: k in defs ==> defs[k].states.Some? && defs[k].actions.Some?
  }

  lemma {:induction false} NoneInitial(states: seq<State>)
    requires InitialCount(states) == 0
    ensures forall i :: 0 <= i < |states| ==> !states[i].isInitial
  {
    if states != [] {
      NoneInitial(states[1..]);
      assert forall i :: 1 <= i < |states| ==> states[i] == states[1..][i - 1];
    }
  }

  /** States.SingleOrDefault(s => s.IsInitial): the one initial state; no
      initial state gives null (NoInitialState), and more than one makes
      SingleOrDefault throw (MultipleInitialStates). */
  function SingleInitial(states: seq<State>): (r: Result<State, StartError>)
    ensures r.Ok? <==> InitialCount(states) == 1
    ensures r.Ok? ==> r.value in states && r.value.isInitial
    ensures r.Ok? ==> forall i :: 0 <= i < |states| && states[i].isInitial ==> states[i] == r.value
    ensures r.Err? ==> r.error == if InitialCount(states) == 0 then NoInitialState else MultipleInitialStates
  {
    if states == [] then Err(NoInitialState)
    else if states[0].isInitial then
      if InitialCount(states[1..]) == 0 then
        NoneInitial(states[1..]);
        assert forall i :: 1 <= i < |states| ==> states[i] == states[1..][i - 1];
        Ok(states[0])
      else Err(MultipleInitialStates)
    else
      var r := SingleInitial(states[1..]);
      assert forall i :: 1 <= i < |states| ==> states[i] == states[1..][i - 1];
      r
  }

  /** StartInstance: look the definition up and start in its initial state
      with an empty history. */
  function StartOutcome(defs: map<string, WorkflowDefinition>, definitionId: string): (r: Result<InstanceRecord, StartError>)
    requires WellShaped(defs)
  {
    if definitionId !in defs then Err(DefinitionNotFound(definitionId))
    else
      match SingleInitial(defs[definitionId].states.value)
      case Err(e) => Err(e)
      case Ok(initial) => Ok(InstanceRecord(definitionId, initial.id, []))
  }

  /** StartInstance fails on an unknown id and on a definition without
      exactly one initial state; otherwise the new instance belongs to the
      definition, stands in its initial state and has no history. */
  lemma StartOutcomeMeaning(defs: map<string, WorkflowDefinition>, definitionId: string)
    requires WellShaped(defs)
    ensures definitionId !in defs ==> StartOutcome(defs, definitionId) == Err(DefinitionNotFound(definitionId))
    ensures StartOutcome(defs, definitionId).Ok? <==>
              definitionId in defs && InitialCount(defs[definitionId].states.value) == 1
    ensures StartOutcome(defs, definitionId).Ok? ==>
              var rec := StartOutcome(defs, definitionId).value;
              var states := defs[definitionId].states.value;
              && rec.definitionId == definitionId && rec.history == []
              && rec.currentState in StateIds(states)
              && forall i :: 0 <= i < |states| && states[i].isInitial ==> states[i].id == rec.currentState
  {
    if definitionId in defs && InitialCount(defs[definitionId].states.value) == 1 {
      var states := defs[definitionId].states.value;
      var s := SingleInitial(states).value;
      var i :| 0 <= i < |states| && states[i] == s;
      assert StateIds(states)[i] == s.id;
    }
  }

  // ---------------------------------------------------------------------
  // ExecuteAction (WorkflowService.cs:123-201)
  // ---------------------------------------------------------------------

  datatype ExecuteError =
    | EmptyInstanceId
    | BlankActionId
    | InstanceNotFound
    | DefinitionMissing(definitionId: string)
    | TerminalState(stateId: string)
    | ActionNotFound(actionId: string)
    | ActionDisabled(actionId: string)
    | IllegalTransition(actionId: string, currentState: string)
    | UnknownToState(actionId: string, toState: string)

  /** States.FirstOrDefault(s => s.Id == id): the first state with that id. */
  function FindState(states: seq<State>, id: string): (r: Option<State>)
    ensures r.None? <==> forall i :: 0 <= i < |states| ==> states[i].id != id
    ensures forall i :: 0 <= i < |states| && states[i].id == id && (forall j :: 0 <= j < i ==> states[j].id != id) ==>
              r == Some(states[i])
  {
    if states == [] then None
    else if states[0].id == id then Some(states[0])
    else
      var r := FindState(states[1..], id);
      assert forall i :: 1 <= i < |states| ==> states[i] == states[1..][i - 1];
      r
  }

  /** Actions.FirstOrDefault(a => a.Id == id): the first action with that id. */
  function FindAction(actions: seq<Action>, id: string): (r: Option<Action>)
    ensures r.None? <==> forall i :: 0 <= i < |actions| ==> actions[i].id != id
    ensures forall i :: 0 <= i < |actions| && actions[i].id == id && (forall j :: 0 <= j < i ==> actions[j].id != id) ==>
              r == Some(actions[i])
  {
    if actions == [] then None
    else if actions[0].id == id then Some(actions[0])
    else
      var r := FindAction(actions[1..], id);
      assert forall i :: 1 <= i < |actions| ==> actions[i] == actions[1..][i - 1];
      r
  }

  /** Gates 5 to 9 of ExecuteAction for an instance standing in `current`:
      the final-state guard (only when `current` names a state), then the
      action is found, enabled, allowed from `current`, and leads to a
      declared state. */
  function Transition(def: WorkflowDefinition, current: string, actionId: string): (r: Result<Action, ExecuteError>)
    requires def.states.Some? && def.actions.Some?
  {
    var states := def.states.value;
    var currentState := FindState(states, current);
    if currentState.Some? && currentState.value.isFinal then Err(TerminalState(current))
    else
      match FindAction(def.actions.value, actionId)
      case None => Err(ActionNotFound(actionId))
      case Some(action) =>
        if !action.enabled then Err(ActionDisabled(actionId))
        else if current !in action.fromStates then Err(IllegalTransition(actionId, current))
        else if action.toState !in StateIds(states) then Err(UnknownToState(actionId, action.toState))
        else Ok(action)
  }

  /** The instance after a successful transition: one more history entry and
      the new current state. */
  function Advance(inst: InstanceRecord, actionId: string, toState: string, now: Timestamp): InstanceRecord
  {
    inst.(currentState := toState, history := inst.history + [Change(now, actionId, inst.currentState, toState)])
  }

  /** ExecuteAction over the store's contents: the instance as it is after
      the call, or the error of the first gate that fails. */
  function Execute(defs: map<string, WorkflowDefinition>, insts: map<Guid, InstanceRecord>,
                   instanceId: Guid, actionId: string, now: Timestamp): Result<InstanceRecord, ExecuteError>
    requires WellShaped(defs)
  {
    if instanceId == EmptyGuid then Err(EmptyInstanceId)
    else if IsBlank(actionId) then Err(BlankActionId)
    else if instanceId !in insts then Err(InstanceNotFound)
    else
      var inst := insts[instanceId];
      if inst.definitionId !in defs then Err(DefinitionMissing(inst.definitionId))
      else
        match Transition(defs[inst.definitionId], inst.currentState, actionId)
        case Err(e) => Err(e)
        case Ok(action) => Ok(Advance(inst, actionId, action.toState, now))
  }

  /** The first four gates, in the code's order: each error is returned
      exactly when its check fails and every earlier check passed. */
  lemma ExecuteGateOrder(defs: map<string, WorkflowDefinition>, insts: map<Guid, InstanceRecord>,
                         instanceId: Guid, actionId: string, now: Timestamp)
    requires WellShaped(defs)
    ensures var r := Execute(defs, insts, instanceId, actionId, now);
      && (r == Err(EmptyInstanceId) <==> instanceId == EmptyGuid)
      && (r == Err(BlankActionId) <==> instanceId != EmptyGuid && IsBlank(actionId))
      && (r == Err(InstanceNotFound) <==> instanceId != EmptyGuid && !IsBlank(actionId) && instanceId !in insts)
      && (r.Err? && r.error.DefinitionMissing? <==>
            instanceId != EmptyGuid && !IsBlank(actionId) && instanceId in insts
            && insts[instanceId].definitionId !in defs)
  {
  }

  /** Gates 5 to 9, in the code's order: each error is returned exactly when
      its check fails and every earlier check passed. So an enabled action
      that does not list the current state fails with IllegalTransition even
      when its toState is unknown. */
  lemma TransitionGateOrder(def: WorkflowDefinition, current: string, actionId: string)
    requires def.states.Some? && def.actions.Some?
    ensures var r := Transition(def, current, actionId);
      var cur := FindState(def.states.value, current);
      var found := FindAction(def.actions.value, actionId);
      var open := !(cur.Some? && cur.value.isFinal);
      && (r == Err(TerminalState(current)) <==> !open)
      && (r == Err(ActionNotFound(actionId)) <==> open && found.None?)
      && (r == Err(ActionDisabled(actionId)) <==> open && found.Some? && !found.value.enabled)
      && (r == Err(IllegalTransition(actionId, current)) <==>
            open && found.Some? && found.value.enabled && current !in found.value.fromStates)
      && (r.Err? && r.error.UnknownToState? <==>
            open && found.Some? && found.value.enabled && current in found.value.fromStates
            && found.value.toState !in StateIds(def.states.value))
      && (r.Ok? <==>
            open && found.Some? && found.value.enabled && current in found.value.fromStates
            && found.value.toState in StateIds(def.states.value))
      && (r.Ok? ==> r.value == found.value)
  {
  }

  /** A successful ExecuteAction appends exactly one Change recording the
      action and the old and new current states, keeps the earlier entries,
      and moves the instance along an enabled action that lists the old
      state among its from-states to a declared state. */
  lemma ExecuteSuccess(defs: map<string, WorkflowDefinition>, insts: map<Guid, InstanceRecord>,
                       instanceId: Guid, actionId: string, now: Timestamp)
    requires WellShaped(defs)
    requires Execute(defs, insts, instanceId, actionId, now).Ok?
    ensures instanceId in insts && insts[instanceId].definitionId in defs
    ensures var old_ := insts[instanceId];
            var new_ := Execute(defs, insts, instanceId, actionId, now).value;
            var def := defs[old_.definitionId];
            && new_.definitionId == old_.definitionId
            && |new_.history| == |old_.history| + 1
            && new_.history[..|old_.history|] == old_.history
            && new_.history[|old_.history|] == Change(now, actionId, old_.currentState, new_.currentState)
            && new_.currentState in StateIds(def.states.value)
            && FindAction(def.actions.value, actionId).Some?
            && var action := FindAction(def.actions.value, actionId).value;
               action.enabled && old_.currentState in action.fromStates && new_.currentState == action.toState
  {
    var old_ := insts[instanceId];
    var new_ := Execute(defs, insts, instanceId, actionId, now).value;
    assert new_.history[..|old_.history|] == old_.history;
  }

  /** The index of a state with the given id, when the ids are distinct, is
      where FindState looks. */
  lemma FindUniqueState(states: seq<State>, i: nat)
    requires Distinct(StateIds(states)) && i < |states|
    ensures FindState(states, states[i].id) == Some(states[i])
  {
    forall j | 0 <= j < i ensures states[j].id != states[i].id {
      assert StateIds(states)[j] != StateIds(states)[i];
    }
  }

  lemma FindUniqueAction(actions: seq<Action>, i: nat)
    requires Distinct(ActionIds(actions)) && i < |actions|
    ensures FindAction(actions, actions[i].id) == Some(actions[i])
  {
    forall j | 0 <= j < i ensures actions[j].id != actions[i].id {
      assert ActionIds(actions)[j] != ActionIds(actions)[i];
    }
  }

  /** For a definition with distinct state and action ids (every stored
      definition has them), an action fires from `current` exactly when it is
      declared under that id, enabled, lists `current` among its from-states,
      leads to a declared state, and no declared state named `current` is
      final: the edge relation of the state machine. */
  lemma TransitionOkIff(def: WorkflowDefinition, current: string, actionId: string, action: Action)
    requires def.states.Some? && def.actions.Some?
    requires Distinct(StateIds(def.states.value)) && Distinct(ActionIds(def.actions.value))
    ensures Transition(def, current, actionId) == Ok(action) <==>
              && action in def.actions.value && action.id == actionId && action.enabled
              && current in action.fromStates && action.toState in StateIds(def.states.value)
              && forall s :: s in def.states.value && s.id == current ==> !s.isFinal
  {
    var states, actions := def.states.value, def.actions.value;
    forall s | s in states && s.id == current
      ensures FindState(states, current) == Some(s)
    {
      var i :| 0 <= i < |states| && states[i] == s;
      FindUniqueState(states, i);
    }
    if action in actions && action.id == actionId {
      var i :| 0 <= i < |actions| && actions[i] == action;
      FindUniqueAction(actions, i);
    }
    var found := FindAction(actions, actionId);
    if found.Some? {
      var i :| 0 <= i < |actions| && actions[i].id == actionId;
      FindUniqueAction(actions, i);
    }
  }

  /** Final states are absorbing: once the instance stands in a declared final
      state, every call with a non-blank action id fails with TerminalState,
      whichever action it names. */
  lemma FinalStateAbsorbing(defs: map<string, WorkflowDefinition>, insts: map<Guid, InstanceRecord>,
                            instanceId: Guid, actionId: string, now: Timestamp, s: State)
    requires WellShaped(defs)
    requires instanceId != EmptyGuid && !IsBlank(actionId)
    requires instanceId in insts && insts[instanceId].definitionId in defs
    requires var def := defs[insts[instanceId].definitionId];
             Distinct(StateIds(def.states.value)) &&
             s in def.states.value && s.id == insts[instanceId].currentState && s.isFinal
    ensures Execute(defs, insts, instanceId, actionId, now) == Err(TerminalState(s.id))
  {
    var states := defs[insts[instanceId].definitionId].states.value;
    var i :| 0 <= i < |states| && states[i] == s;
    FindUniqueState(states, i);
  }

  /** A disabled action never fires; unless the instance is in a final state
      the call fails with ActionDisabled, even when the current state is
      among the action's from-states. */
  lemma DisabledActionRejected(defs: map<string, WorkflowDefinition>, insts: map<Guid, InstanceRecord>,
                               instanceId: Guid, now: Timestamp, action: Action)
    requires WellShaped(defs)
    requires instanceId != EmptyGuid && !IsBlank(action.id)
    requires instanceId in insts && insts[instanceId].definitionId in defs
    requires var def := defs[insts[instanceId].definitionId];
             Distinct(ActionIds(def.actions.value)) && action in def.actions.value && !action.enabled
    ensures var def := defs[insts[instanceId].definitionId];
            var cur := FindState(def.states.value, insts[instanceId].currentState);
            Execute(defs, insts, instanceId, action.id, now) ==
              if cur.Some? && cur.value.isFinal then Err(TerminalState(insts[instanceId].currentState))
              else Err(ActionDisabled(action.id))
  {
    var actions := defs[insts[instanceId].definitionId].actions.value;
    var i :| 0 <= i < |actions| && actions[i] == action;
    FindUniqueAction(actions, i);
  }

  /** The final-state guard is skipped when the current state id names no
      state: then failure can only come from the later gates, never from
      TerminalState. */
  lemma StaleStateSkipsGuard(def: WorkflowDefinition, current: string, actionId: string)
    requires def.states.Some? && def.actions.Some?
    requires current !in StateIds(def.states.value)
    ensures !Transition(def, current, actionId).Err? || !Transition(def, current, actionId).error.TerminalState?
  {
    var states := def.states.value;
    forall i | 0 <= i < |states| ensures states[i].id != current {
      assert StateIds(states)[i] == states[i].id;
    }
  }

  // ---------------------------------------------------------------------
  // The store invariant the three operations keep
  // ---------------------------------------------------------------------

  /** The id of the initial state of an accepted definition. */
  function InitialStateId(def: WorkflowDefinition): string
    requires Accepted(def)
  {
    SingleInitial(def.states.value).value.id
  }

  /** A history entry was made by firing an enabled action of `def`. */
  predicate IsEdge(def: WorkflowDefinition, change: Change)
    requires def.states.Some? && def.actions.Some?
  {
    match FindAction(def.actions.value, change.action)
    case None => false
    case Some(a) =>
      a.enabled && change.fromState in a.fromStates && change.toState == a.toState
      && a.toState in StateIds(def.states.value)
  }

  /** The history is a chain of changes starting at `start` and ending at `current`. */
  predicate Walk(start: string, history: seq<Change>, current: string)
    decreases |history|
  {
    if history == [] then current == start
    else
      && history[|history| - 1].toState == current
      && Walk(start, history[..|history| - 1], history[|history| - 1].fromState)
  }

  /** An instance of `def` got where it is by a path of legal transitions
      from the initial state, and its current state is declared. */
  predicate Reached(def: WorkflowDefinition, inst: InstanceRecord)
    requires Accepted(def)
  {
    && inst.currentState in StateIds(def.states.value)
    && Walk(InitialStateId(def), inst.history, inst.currentState)
    && forall j :: 0 <= j < |inst.history| ==> IsEdge(def, inst.history[j])
  }

  /** Every stored definition sits under its own id and passed
      CreateDefinition's checks; every instance belongs to a stored
      definition and was reached from its initial state by its history. */
  predicate StoreConsistent(defs: map<string, WorkflowDefinition>, insts: map<Guid, InstanceRecord>)
  {
    && (forall k :: k in defs ==> defs[k].id == k && Accepted(defs[k]))
    && (forall g :: g in insts ==> InstanceConsistent(defs, insts[g]))
  }

  /** The instance belongs to a stored, accepted definition and was reached
      from its initial state. */
  predicate InstanceConsistent(defs: map<string, WorkflowDefinition>, inst: InstanceRecord)
  {
    inst.definitionId in defs && Accepted(defs[inst.definitionId]) && Reached(defs[inst.definitionId], inst)
  }

  /** The empty store is consistent. */
  lemma EmptyStoreConsistent()
    ensures StoreConsistent(map[], map[])
  {
  }

  /** Storing a definition that CreateDefinition accepts keeps the store consistent. */
  lemma CreatePreservesConsistency(defs: map<string, WorkflowDefinition>, insts: map<Guid, InstanceRecord>,
                                   d: WorkflowDefinition)
    requires StoreConsistent(defs, insts)
    requires CreateOutcome(defs, d).Ok?
    ensures StoreConsistent(defs[d.id := d], insts)
  {
    CreateOkIff(defs, d);
  }

  /** Adding the instance StartInstance builds keeps the store consistent. */
  lemma StartPreservesConsistency(defs: map<string, WorkflowDefinition>, insts: map<Guid, InstanceRecord>,
                                  definitionId: string, newId: Guid)
    requires StoreConsistent(defs, insts)
    requires StartOutcome(defs, definitionId).Ok?
    ensures StoreConsistent(defs, insts[newId := StartOutcome(defs, definitionId).value])
  {
    StartOutcomeMeaning(defs, definitionId);
  }

  /** Firing an enabled action that lists the current state among its
      from-states and leads to a declared state extends a legal path. */
  lemma AdvanceKeepsReached(def: WorkflowDefinition, inst: InstanceRecord, actionId: string,
                            action: Action, now: Timestamp)
    requires Accepted(def) && Reached(def, inst)
    requires FindAction(def.actions.value, actionId) == Some(action)
    requires action.enabled && inst.currentState in action.fromStates
    requires action.toState in StateIds(def.states.value)
    ensures Reached(def, Advance(inst, actionId, action.toState, now))
  {
    var new_ := Advance(inst, actionId, action.toState, now);
    assert new_.history[..|new_.history| - 1] == inst.history;
    assert IsEdge(def, new_.history[|inst.history|]);
    forall j | 0 <= j < |new_.history| ensures IsEdge(def, new_.history[j]) {
      if j < |inst.history| {
        assert new_.history[j] == inst.history[j];
      }
    }
  }

  /** A successful transition keeps the store consistent: the new current
      state is declared and the history stays a legal path. */
  lemma ExecutePreservesConsistency(defs: map<string, WorkflowDefinition>, insts: map<Guid, InstanceRecord>,
                                    instanceId: Guid, actionId: string, now: Timestamp)
    requires StoreConsistent(defs, insts)
    requires Execute(defs, insts, instanceId, actionId, now).Ok?
    ensures StoreConsistent(defs, insts[instanceId := Execute(defs, insts, instanceId, actionId, now).value])
  {
    var inst := insts[instanceId];
    var def := defs[inst.definitionId];
    var action := Transition(def, inst.currentState, actionId).value;
    assert FindAction(def.actions.value, actionId) == Some(action);
    AdvanceKeepsReached(def, inst, actionId, action, now);
    var insts' := insts[instanceId := Execute(defs, insts, instanceId, actionId, now).value];
    forall g | g in insts' ensures InstanceConsistent(defs, insts'[g]) {
      if g != instanceId {
        assert insts'[g] == insts[g];
      }
    }
  }

  /** In a consistent store the current state of every instance names a
      declared state, so the final-state guard is never skipped. */
  lemma GuardNeverSkipped(defs: map<string, WorkflowDefinition>, insts: map<Guid, InstanceRecord>, g: Guid)
    requires StoreConsistent(defs, insts) && g in insts
    ensures FindState(defs[insts[g].definitionId].states.value, insts[g].currentState).Some?
  {
    var states := defs[insts[g].definitionId].states.value;
    var i :| 0 <= i < |states| && StateIds(states)[i] == insts[g].currentState;
    assert states[i].id == insts[g].currentState;
  }
}
