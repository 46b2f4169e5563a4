/** WorkflowService (Services/WorkflowService.cs) over the two dictionaries of
    InMemoryDataStore (Services/InMemoryDataStore.cs:11-12), and the
    instance object it updates in place (Models/WorkflowInstance.cs). */
module Service {
  import opened Models
  import opened DuplicateDetection
  import opened Engine

  /** A running instance. Its id and definition are fixed when it is made;
      the service changes CurrentState and History in place. */
  class WorkflowInstance {
    const id: Guid
    const definitionId: string
    var currentState: string
    var history: seq<Change>

    /** new WorkflowInstance(definitionId, initialState), with the Guid that
        Guid.NewGuid() would draw passed in. */
    constructor (id: Guid, definitionId: string, initialState: string)
      ensures this.id == id && this.definitionId == definitionId
      ensures currentState == initialState && history == []
    {
      this.id := id;
      this.definitionId := definitionId;
      currentState := initialState;
      history := [];
    }

    /** The instance's fields as a value. */
    function Record(): InstanceRecord
      reads this
    {
      InstanceRecord(definitionId, currentState, history)
    }
  }

  class WorkflowService {
    /** InMemoryDataStore.WorkflowDefinitions. */
    var definitions: map<string, WorkflowDefinition>
    /** InMemoryDataStore.WorkflowInstances. */
    var instances: map<Guid, WorkflowInstance>

    /** Stored definitions have their lists, and every instance is stored
        under its own id (so no two keys share an object). */
    ghost predicate Valid()
      reads this
    {
      && WellShaped(definitions)
      && forall k :: k in instances ==> instances[k].id == k
    }

    ghost function Objects(): set<WorkflowInstance>
      reads this
    {
      set k | k in instances :: instances[k]
    }

    /** The stored instances as values. */
    ghost function Snapshot(): map<Guid, InstanceRecord>
      reads this, Objects()
    {
      map k | k in instances :: instances[k].Record()
    }

    /** The store invariant of module Engine holds of the current contents. */
    ghost predicate Consistent()
      reads this, Objects()
    {
      Valid() && StoreConsistent(definitions, Snapshot())
    }

    constructor ()
      ensures Valid() && Consistent()
      ensures definitions == map[] && instances == map[]
    {
      definitions := map[];
      instances := map[];
      new;
      assert Snapshot() == map[];
      EmptyStoreConsistent();
    }

    /** WorkflowService.CreateDefinition (WorkflowService.cs:18-96). */
    method CreateDefinition(definition: WorkflowDefinition) returns (r: Result<WorkflowDefinition, CreateError>)
      requires Valid()
      modifies this
      ensures Valid()
      ensures r == CreateOutcome(old(definitions), definition)
      ensures definitions == if r.Ok? then old(definitions)[definition.id := definition] else old(definitions)
      ensures instances == old(instances) && Snapshot() == old(Snapshot())
      ensures old(Consistent()) ==> Consistent()
    {
      ghost var before := Snapshot();
      if definition.states.None? || definition.actions.None? {
        return Err(MissingStatesOrActions);
      }
      if IsBlank(definition.id) {
        return Err(BlankDefinitionId);
      }
      if definition.id in definitions {
        return Err(DefinitionAlreadyExists(definition.id));
      }
      var states, actions := definition.states.value, definition.actions.value;
      if InitialCount(states) != 1 {
        return Err(InitialStateCountNotOne);
      }
      var containsDuplicateStateIds, duplicateStateIds := FindDuplicates(StateIds(states));
      if containsDuplicateStateIds {
        return Err(DuplicateStateIds(duplicateStateIds));
      }
      var containsDuplicateActionIds, duplicateActionIds := FindDuplicates(ActionIds(actions));
      if containsDuplicateActionIds {
        return Err(DuplicateActionIds(duplicateActionIds));
      }
      ghost var defsBefore := definitions;
      definitions := definitions[definition.id := definition];
      r := Ok(definition);
      assert Snapshot() == before;
      if StoreConsistent(defsBefore, before) {
        CreatePreservesConsistency(defsBefore, before, definition);
      }
    }

    /** WorkflowService.StartInstance (WorkflowService.cs:100-120); `newId`
        is the Guid the new instance draws, which is not yet in use. */
    method StartInstance(definitionId: string, newId: Guid) returns (r: Result<WorkflowInstance, StartError>)
      requires Valid()
      requires newId != EmptyGuid && newId !in instances
      modifies this
      ensures Valid() && definitions == old(definitions)
      ensures var spec := StartOutcome(old(definitions), definitionId);
              && r.Ok? == spec.Ok?
              && (r.Err? ==> r.error == spec.error && instances == old(instances))
              && (r.Ok? ==> && fresh(r.value) && r.value.id == newId
                            && instances == old(instances)[newId := r.value]
                            && r.value.Record() == spec.value)
      ensures Snapshot() == if r.Ok? then old(Snapshot())[newId := r.value.Record()] else old(Snapshot())
      ensures old(Consistent()) ==> Consistent()
    {
      ghost var before := Snapshot();
      if definitionId !in definitions {
        return Err(DefinitionNotFound(definitionId));
      }
      var definition := definitions[definitionId];
      var initialState := SingleInitial(definition.states.value);
      if initialState.Err? {
        return Err(initialState.error);
      }
      var instance := new WorkflowInstance(newId, definitionId, initialState.value.id);
      instances := instances[newId := instance];
      r := Ok(instance);
      assert Snapshot() == before[newId := instance.Record()];
      if StoreConsistent(definitions, before) {
        StartPreservesConsistency(definitions, before, definitionId, newId);
      }
    }

    /** WorkflowService.ExecuteAction (WorkflowService.cs:123-201): the gates
        in the code's order, then History.Add and the CurrentState update on
        the stored instance object itself. */
    method ExecuteAction(instanceId: Guid, actionId: string, now: Timestamp) returns (r: Result<WorkflowInstance, ExecuteError>)
      requires Valid()
      modifies if instanceId in instances then {instances[instanceId]} else {}
      ensures Valid() && definitions == old(definitions) && instances == old(instances)
      ensures var spec := Execute(definitions, old(Snapshot()), instanceId, actionId, now);
              && r.Ok? == spec.Ok?
              && (r.Err? ==> r.error == spec.error)
              && (r.Ok? ==> instanceId in instances && r.value == instances[instanceId] && r.value.Record() == spec.value)
              && Snapshot() == if spec.Ok? then old(Snapshot())[instanceId := spec.value] else old(Snapshot())
      ensures old(Consistent()) ==> Consistent()
    {
      ghost var before := Snapshot();
      if instanceId == EmptyGuid {
        return Err(EmptyInstanceId);
      }
      if IsBlank(actionId) {
        return Err(BlankActionId);
      }
      if instanceId !in instances {
        return Err(InstanceNotFound);
      }
      var instance := instances[instanceId];
      if instance.definitionId !in definitions {
        return Err(DefinitionMissing(instance.definitionId));
      }
      var definition := definitions[instance.definitionId];
      var currentState := FindState(definition.states.value, instance.currentState);
      if currentState.Some? && currentState.value.isFinal {
        return Err(TerminalState(instance.currentState));
      }
      var action := FindAction(definition.actions.value, actionId);
      if action.None? {
        return Err(ActionNotFound(actionId));
      }
      if !action.value.enabled {
        return Err(ActionDisabled(actionId));
      }
      if instance.currentState !in action.value.fromStates {
        return Err(IllegalTransition(actionId, instance.currentState));
      }
      if action.value.toState !in StateIds(definition.states.value) {
        return Err(UnknownToState(actionId, action.value.toState));
      }
      instance.history := instance.history + [Change(now, actionId, instance.currentState, action.value.toState)];
      instance.currentState := action.value.toState;
      r := Ok(instance);
      assert Snapshot() == before[instanceId := instance.Record()];
      if StoreConsistent(definitions, before) {
        ExecutePreservesConsistency(definitions, before, instanceId, actionId, now);
      }
    }
  }
}
