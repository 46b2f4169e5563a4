# Infonetica workflow engine — a verified model

This project models the core of the Infonetica workflow engine:

- **`WorkflowService`.** It keeps two in-memory tables:
  - workflow *definitions*, keyed by a string id;
  - workflow *instances*, keyed by a Guid.

  It offers three operations:
  - `CreateDefinition` checks a definition with a fixed sequence of fail-fast checks and stores it.
  - `StartInstance` makes a new instance. The instance stands in the definition's single initial state and has an empty history.
  - `ExecuteAction` fires one action on an instance. Nine gates run in a fixed order. Only when every gate passes does the instance get one new history entry and a new current state, both changed in place on the stored object.
- **`WorkflowDefinitionValidator`.** A separate checker that collects every problem it finds in a list of error lines. The empty list means the definition is valid.

Files and modules:

- `models.dfy` (`Models`): the records `State`, `Action`, `WorkflowDefinition` and `Change`. It also holds `Guid`, `IsBlank` (the model of `string.IsNullOrWhiteSpace`), and the id projections.
- `duplicates.dfy` (`DuplicateDetection`): the duplicate-id scan that `CreateDefinition` runs twice, as a loop and as the function that specifies it.
- `engine.dfy` (`Engine`): what the three service operations decide, written as functions of the store's contents. It also holds the lemmas about those decisions: check order, the meaning of success, the edge relation of the state machine, and a store invariant that every operation keeps.
- `service.dfy` (`Service`): the classes `WorkflowInstance` and `WorkflowService`.
  - Their fields are updated in place.
  - Each method is proved to return what the matching `Engine` function says.
  - Each method leaves every other part of the store unchanged.
- `validator.dfy` (`Validator`): the validator's methods, with their loops, and the functions that specify what they append.
- `validator_properties.dfy` (`ValidatorProperties`): what the validator's report means. This covers:
  - which errors it contains, and how many of each;
  - that an empty report holds exactly for well-formed definitions;
  - how the validator relates to `CreateDefinition`.
- `scenarios.dfy` (`Scenarios`): concrete runs on small definitions, including a complete walk through a three-state review workflow.

Behaviour of the code worth noting, which the model keeps:

- **A blank definition id does not stop validation** (`Infonetica.WorkflowEngine/Validator/WorkflowDefinitionValidator.cs:13-16`). The validator records the error and goes on to check the lists.
- **`ExecuteAction` rejects `Guid.Empty` first** (`Infonetica.WorkflowEngine/Services/WorkflowService.cs:125-128`), before the action id is looked at.
- **An unknown `toState` has its own error**, both in `ExecuteAction` (`Infonetica.WorkflowEngine/Services/WorkflowService.cs:181-184`) and in the validator (`Infonetica.WorkflowEngine/Validator/WorkflowDefinitionValidator.cs:79-82`).
- **Blank state ids count as declared** (`Infonetica.WorkflowEngine/Validator/WorkflowDefinitionValidator.cs:65`). The validator's set of declared state ids is built from all state ids, blank ones included, so an action may refer to a blank state without an error.
- **`CreateDefinition` checks less than the validator** (`Infonetica.WorkflowEngine/Services/WorkflowService.cs:18-96`). It never calls the validator, does not check `toState` or `fromStates` references, and accepts an empty `Actions` list. `ValidatorProperties.CreateAcceptsUnknownToState` shows a definition that it stores and that the validator rejects.

## Model

| member | source | states |
|---|---|---|
| Models.IsBlank | Infonetica.WorkflowEngine/Services/WorkflowService.cs:27 | `string.IsNullOrWhiteSpace` on a non-null string: every character is white space, so the empty string is blank. `IsWhiteSpace` lists the characters `char.IsWhiteSpace` accepts. |
| Models.InitialCount | Infonetica.WorkflowEngine/Services/WorkflowService.cs:39 | `States.Count(s => s.IsInitial)`: the number of states marked initial. |
| DuplicateDetection.DuplicateIds | Infonetica.WorkflowEngine/Services/WorkflowService.cs:45-63 | Specification function of the scan. It walks the ids left to right and appends an id when it is seen again and is not yet listed. `FindDuplicates` is proved equal to it, and the four lemmas below state what it means. |
| Engine.CreateOutcome | Infonetica.WorkflowEngine/Services/WorkflowService.cs:22-95 | Specification function of `CreateDefinition`: the six checks in the code's order, the first failure deciding the error, else the definition itself. `CreateOkIff`, `CreateCheckOrder` and the two duplicate-report lemmas state what it means. |
| Engine.StartOutcome | Infonetica.WorkflowEngine/Services/WorkflowService.cs:100-119 | Specification function of `StartInstance`: lookup, then `SingleInitial`, then a record with the initial state and an empty history. `StartOutcomeMeaning` states what it means. |
| Engine.Transition | Infonetica.WorkflowEngine/Services/WorkflowService.cs:148-184 | Gates 5-9 of `ExecuteAction` for an instance in a given state. `TransitionGateOrder` and `TransitionOkIff` state what it means. |
| Engine.Advance | Infonetica.WorkflowEngine/Services/WorkflowService.cs:189-197 | The instance after a transition: one more `Change` and the new current state. `ExecuteSuccess` states it. |
| Engine.Execute | Infonetica.WorkflowEngine/Services/WorkflowService.cs:123-201 | Specification function of `ExecuteAction`: gates 1-4, then `Transition`, then `Advance`. `ExecuteGateOrder`, `TransitionGateOrder`, `ExecuteSuccess` and `ExecutePreservesConsistency` state what it means. |
| Validator.ValidationErrors | Infonetica.WorkflowEngine/Validator/WorkflowDefinitionValidator.cs:9-28 | Specification function of `Validate`: the optional blank-id error, then either the structural error alone or the state errors followed by the action errors. `ValidIff` and the count lemmas state what it means. |
| Validator.StateErrors | Infonetica.WorkflowEngine/Validator/WorkflowDefinitionValidator.cs:30-56 | What `ValidateStates` appends: the no-states error alone, or the optional initial-count error followed by the id loop's errors. |
| Validator.StateIdErrors | Infonetica.WorkflowEngine/Validator/WorkflowDefinitionValidator.cs:44-55 | What the state-id loop appends, one state at a time. A blank id gives the blank error. A non-blank id already seen gives a duplicate error. Blank ids never enter the seen set. |
| Validator.ActionErrors | Infonetica.WorkflowEngine/Validator/WorkflowDefinitionValidator.cs:58-99 | What `ValidateActions` appends: the no-actions error alone, or the action loop's errors against the declared state ids. |
| Validator.ActionLoopErrors | Infonetica.WorkflowEngine/Validator/WorkflowDefinitionValidator.cs:68-98 | What the action loop appends, one action at a time. |
| Validator.SingleActionErrors | Infonetica.WorkflowEngine/Validator/WorkflowDefinitionValidator.cs:70-97 | The errors of one action, in order: id, toState, fromStates. |
| Validator.ToStateError | Infonetica.WorkflowEngine/Validator/WorkflowDefinitionValidator.cs:79-82 | One error when the toState is not declared, else none. |
| Validator.FromStatesErrors | Infonetica.WorkflowEngine/Validator/WorkflowDefinitionValidator.cs:84-97 | One error for an empty from-state list, else the errors of the from-state loop. |
| Validator.UnknownFromStates | Infonetica.WorkflowEngine/Validator/WorkflowDefinitionValidator.cs:90-96 | One error per occurrence of an undeclared from-state, in list order. |
| Engine.TransitionGateOrder | Infonetica.WorkflowEngine/Services/WorkflowService.cs:148-184 | Gates 5-9 each fail exactly when their own check fails and every earlier check passed: terminal guard (only when the current state is found), action lookup, disabled, from-state, toState. Success holds exactly when all pass, and it returns the action found. |
| DuplicateDetection.FindDuplicates | Infonetica.WorkflowEngine/Services/WorkflowService.cs:45-63 | The dictionary-and-list scan over the ids returns the flag and the list of repeated ids. The flag is set exactly when the list is non-empty, which happens exactly when the ids are not pairwise distinct. An id is listed exactly when it occurs at least twice. |
| DuplicateDetection.DuplicateIdsMembers | Infonetica.WorkflowEngine/Services/WorkflowService.cs:48-63 | An id is in the duplicate list if and only if it occurs at least twice. |
| DuplicateDetection.DuplicateIdsDistinct | Infonetica.WorkflowEngine/Services/WorkflowService.cs:54-57 | Each repeated id is listed only once. |
| DuplicateDetection.DuplicateIdsEmptyIff | Infonetica.WorkflowEngine/Services/WorkflowService.cs:45-64 | The duplicate list is empty if and only if the ids are pairwise distinct. |
| DuplicateDetection.DuplicateIdsPrefix | Infonetica.WorkflowEngine/Services/WorkflowService.cs:54-57 | Ids are listed in the order of their first repetition: the list for any prefix of the ids is a prefix of the whole list. |
| Engine.CreateOkIff | Infonetica.WorkflowEngine/Services/WorkflowService.cs:22-95 | `CreateDefinition` succeeds if and only if all of these hold: both lists are present, the id is not blank, the id is not yet stored, there is exactly one initial state, the state ids are distinct and the action ids are distinct. It then returns its input. |
| Engine.CreateCheckOrder | Infonetica.WorkflowEngine/Services/WorkflowService.cs:22-42 | Each of the first four errors is returned exactly when its own check fails and every earlier check passed: missing lists, then blank id, then existing id, then initial-state count. |
| Engine.DuplicateStatesReport | Infonetica.WorkflowEngine/Services/WorkflowService.cs:45-67 | A duplicate-state failure is reached only after the earlier checks pass. It names exactly the state ids that occur at least twice, each once, in order of first repetition. |
| Engine.DuplicateActionsReport | Infonetica.WorkflowEngine/Services/WorkflowService.cs:69-91 | The same for action ids. This failure is reached only when the state ids are distinct. |
| Engine.SingleInitial | Infonetica.WorkflowEngine/Services/WorkflowService.cs:109-113 | `SingleOrDefault` succeeds exactly when one state is initial, and then returns that state. Otherwise it fails with no initial state (count 0) or multiple initial states (count above 1). |
| Engine.StartOutcomeMeaning | Infonetica.WorkflowEngine/Services/WorkflowService.cs:100-119 | An unknown definition id fails. Otherwise success holds exactly when one state is initial. The new instance then belongs to the definition, stands in its initial state and has an empty history. |
| Engine.FindState | Infonetica.WorkflowEngine/Services/WorkflowService.cs:149 | `FirstOrDefault` on the states: none exactly when no state has the id, and otherwise the first state that has it. |
| Engine.FindAction | Infonetica.WorkflowEngine/Services/WorkflowService.cs:156 | `FirstOrDefault` on the actions: none exactly when no action has the id, and otherwise the first action that has it. |
| Engine.ExecuteGateOrder | Infonetica.WorkflowEngine/Services/WorkflowService.cs:125-146 | Gates 1-4 each fail exactly when their own check fails and every earlier check passed: empty Guid, blank action id, unknown instance, missing definition. |
| Engine.ExecuteSuccess | Infonetica.WorkflowEngine/Services/WorkflowService.cs:175-197 | On success the history grows by exactly one `Change(now, actionId, old, new)` and the earlier entries are unchanged. The action was found, is enabled and lists the old state among its from-states. The new state is the action's toState, which is a declared state. |
| Engine.TransitionOkIff | Infonetica.WorkflowEngine/Services/WorkflowService.cs:149-184 | With distinct ids, an action fires if and only if it is the declared action of that id, is enabled, lists the current state, leads to a declared state, and the current state is not a declared final state. |
| Engine.FinalStateAbsorbing | Infonetica.WorkflowEngine/Services/WorkflowService.cs:149-153 | In a declared final state, every call with a non-blank action id fails with TerminalState, whatever the action. |
| Engine.DisabledActionRejected | Infonetica.WorkflowEngine/Services/WorkflowService.cs:167-178 | A disabled action fails with ActionDisabled even when the current state is in its from-states, because that check comes first. The only exception is the terminal guard. |
| Engine.StaleStateSkipsGuard | Infonetica.WorkflowEngine/Services/WorkflowService.cs:149-150 | When the current state id names no state, the final-state guard never fires. |
| Engine.EmptyStoreConsistent | Infonetica.WorkflowEngine/Services/InMemoryDataStore.cs:11-12 | The empty store satisfies the store invariant. |
| Engine.CreatePreservesConsistency | Infonetica.WorkflowEngine/Services/WorkflowService.cs:94-95 | Storing an accepted definition keeps every definition accepted and every instance reachable. |
| Engine.StartPreservesConsistency | Infonetica.WorkflowEngine/Services/WorkflowService.cs:116-117 | Adding a new instance keeps the invariant: the instance stands in the initial state with an empty path. |
| Engine.AdvanceKeepsReached | Infonetica.WorkflowEngine/Services/WorkflowService.cs:189-197 | Firing an enabled action from a listed state to a declared state extends a legal path from the initial state. |
| Engine.ExecutePreservesConsistency | Infonetica.WorkflowEngine/Services/WorkflowService.cs:189-197 | After a successful transition, every instance is still reached from its definition's initial state by a history of legal transitions. |
| Engine.GuardNeverSkipped | Infonetica.WorkflowEngine/Services/WorkflowService.cs:149-150 | In a consistent store the current state always names a declared state, so the final-state guard is always applied. |
| Engine.FindUniqueState | Infonetica.WorkflowEngine/Services/WorkflowService.cs:149 | With distinct state ids, `FirstOrDefault` finds the state under its own id. |
| Engine.FindUniqueAction | Infonetica.WorkflowEngine/Services/WorkflowService.cs:156 | With distinct action ids, `FirstOrDefault` finds the action under its own id. |
| Service.WorkflowInstance.constructor | Infonetica.WorkflowEngine/Models/WorkflowInstance.cs:14-20 | The new instance has the given id, definition and initial state, and an empty history. |
| Service.WorkflowService.constructor | Infonetica.WorkflowEngine/Services/InMemoryDataStore.cs:11-12 | The store starts empty and consistent. |
| Service.WorkflowService.CreateDefinition | Infonetica.WorkflowEngine/Services/WorkflowService.cs:18-96 | The method returns what `Engine.CreateOutcome` decides. On success it stores the definition under its id and changes no other key. On failure it changes nothing. The instances are never touched. It keeps the store invariant. |
| Service.WorkflowService.StartInstance | Infonetica.WorkflowEngine/Services/WorkflowService.cs:100-120 | The method returns what `Engine.StartOutcome` decides. On success there is a fresh instance object under the new id, and nothing else changes. On failure, including an unknown id, there is no new instance. It keeps the store invariant. |
| Service.WorkflowService.ExecuteAction | Infonetica.WorkflowEngine/Services/WorkflowService.cs:123-201 | The method returns what `Engine.Execute` decides. On success only the addressed instance object changes, to the new record, and the method returns that object. On failure neither table and no instance changes. It keeps the store invariant. |
| Validator.Validate | Infonetica.WorkflowEngine/Validator/WorkflowDefinitionValidator.cs:9-28 | The accumulated errors equal `ValidationErrors(definition)`. The definition is a value and is not changed. |
| Validator.ValidateStates | Infonetica.WorkflowEngine/Validator/WorkflowDefinitionValidator.cs:30-56 | The method appends exactly `StateErrors(states)` to the errors it is given. |
| Validator.ValidateActions | Infonetica.WorkflowEngine/Validator/WorkflowDefinitionValidator.cs:58-99 | The method appends exactly `ActionErrors(states, actions)` to the errors it is given. |
| Validator.ValidateAction | Infonetica.WorkflowEngine/Validator/WorkflowDefinitionValidator.cs:70-97 | One pass of the action loop appends the id, toState and fromStates errors of that action. A non-blank id is added to the set of seen ids. |
| ValidatorProperties.BlankIdDoesNotStop | Infonetica.WorkflowEngine/Validator/WorkflowDefinitionValidator.cs:13-25 | A blank id adds one error in front, and the rest of the report is the same as for a non-blank id. |
| ValidatorProperties.BlankIdReportedOnce | Infonetica.WorkflowEngine/Validator/WorkflowDefinitionValidator.cs:13-16 | The blank-id error occurs once if the id is blank and otherwise not at all. |
| ValidatorProperties.MissingListsStop | Infonetica.WorkflowEngine/Validator/WorkflowDefinitionValidator.cs:18-22 | With a missing list, the report is the optional blank-id error followed by the one structural error, and nothing else. |
| ValidatorProperties.EmptyStatesReport | Infonetica.WorkflowEngine/Validator/WorkflowDefinitionValidator.cs:24-36 | With an empty state list, the no-states error is reported and no initial-state or state-id error is. The actions are still checked against the empty set of state ids, so every action's toState is reported unknown. |
| ValidatorProperties.InitialErrorIff | Infonetica.WorkflowEngine/Validator/WorkflowDefinitionValidator.cs:39-42 | For a non-empty state list, the initial-state error is reported if and only if the number of initial states is not 1. |
| ValidatorProperties.StateIdErrorCounts | Infonetica.WorkflowEngine/Validator/WorkflowDefinitionValidator.cs:44-55 | The state-id loop reports one error per blank id. A non-blank id occurring k times gets exactly k-1 duplicate errors. A blank id is never reported as a duplicate. |
| ValidatorProperties.ValidationStateIdCounts | Infonetica.WorkflowEngine/Validator/WorkflowDefinitionValidator.cs:44-55 | The same counts hold in the whole report. |
| ValidatorProperties.EmptyActionsReport | Infonetica.WorkflowEngine/Validator/WorkflowDefinitionValidator.cs:60-64 | An empty action list gives the no-actions error exactly once and no error about any particular action. |
| ValidatorProperties.ActionIdErrorCounts | Infonetica.WorkflowEngine/Validator/WorkflowDefinitionValidator.cs:70-77 | Action ids follow the same rule: one error per blank id, k-1 duplicate errors for a non-blank id occurring k times. |
| ValidatorProperties.ValidationActionIdCounts | Infonetica.WorkflowEngine/Validator/WorkflowDefinitionValidator.cs:66-77 | The same counts hold in the whole report. |
| ValidatorProperties.SingleActionErrorCounts | Infonetica.WorkflowEngine/Validator/WorkflowDefinitionValidator.cs:79-97 | Per action: one error for an undeclared toState, exactly one error for an empty fromStates list, and otherwise one error per occurrence of each undeclared fromState. |
| ValidatorProperties.SingleActionIdCounts | Infonetica.WorkflowEngine/Validator/WorkflowDefinitionValidator.cs:70-77 | Of one action's errors, only the id check yields blank-id or duplicate-id errors: one blank error for a blank id, and one duplicate error for a non-blank id seen before. |
| ValidatorProperties.UnknownFromStatesCount | Infonetica.WorkflowEngine/Validator/WorkflowDefinitionValidator.cs:90-96 | Each undeclared fromState is reported once per occurrence. |
| ValidatorProperties.UnknownFromStatesEmptyIff | Infonetica.WorkflowEngine/Validator/WorkflowDefinitionValidator.cs:90-96 | The fromStates loop reports nothing if and only if every fromState is declared. |
| ValidatorProperties.UndeclaredToStateReported | Infonetica.WorkflowEngine/Validator/WorkflowDefinitionValidator.cs:79-82 | Every action whose toState is undeclared is reported. |
| ValidatorProperties.ActionReported | Infonetica.WorkflowEngine/Validator/WorkflowDefinitionValidator.cs:68-98 | Every error about one action appears in the output of the action loop. |
| ValidatorProperties.StateErrorKinds | Infonetica.WorkflowEngine/Validator/WorkflowDefinitionValidator.cs:30-56 | `ValidateStates` appends only state errors. |
| ValidatorProperties.ActionErrorKinds | Infonetica.WorkflowEngine/Validator/WorkflowDefinitionValidator.cs:58-99 | `ValidateActions` appends only action errors. |
| ValidatorProperties.StateIdErrorsEmptyIff | Infonetica.WorkflowEngine/Validator/WorkflowDefinitionValidator.cs:44-55 | The state-id loop reports nothing if and only if the ids are non-blank and distinct. |
| ValidatorProperties.ActionLoopErrorsEmptyIff | Infonetica.WorkflowEngine/Validator/WorkflowDefinitionValidator.cs:68-98 | The action loop reports nothing if and only if the action ids are distinct and every action is well formed. Well formed means a non-blank id, a declared toState, and a non-empty list of declared fromStates. |
| ValidatorProperties.SingleActionEmptyIff | Infonetica.WorkflowEngine/Validator/WorkflowDefinitionValidator.cs:70-97 | One action is reported on if and only if its id was seen before or it is not well formed. |
| ValidatorProperties.ValidIff | Infonetica.WorkflowEngine/Validator/WorkflowDefinitionValidator.cs:9-99 | The report is empty if and only if the definition is well formed. That means a non-blank id, exactly one initial state, non-blank and distinct state ids, non-empty actions with distinct ids, and every reference declared. |
| ValidatorProperties.ValidIsAccepted | Infonetica.WorkflowEngine/Services/WorkflowService.cs:22-95 | A definition the validator passes also passes every check of `CreateDefinition`, and is stored under a new id. |
| ValidatorProperties.CreateAcceptsUnknownToState | Infonetica.WorkflowEngine/Services/WorkflowService.cs:18-96 | `CreateDefinition` stores a definition with an action to an undeclared state, which the validator reports. |
| Scenarios.ReviewFlowAccepted | Infonetica.WorkflowEngine/Services/WorkflowService.cs:18-96 | A three-state review workflow passes every check of `CreateDefinition`. |
| Scenarios.ReviewFlowStarts | Infonetica.WorkflowEngine/Services/WorkflowService.cs:100-120 | Its instance starts in "start" with no history. |
| Scenarios.ReviewFlowSubmit | Infonetica.WorkflowEngine/Services/WorkflowService.cs:123-201 | "submit" moves the instance to "review" and records one change. |
| Scenarios.ReviewFlowApprove | Infonetica.WorkflowEngine/Services/WorkflowService.cs:123-201 | "approve" moves it on to "done" and records a second change. |
| Scenarios.ReviewFlowDone | Infonetica.WorkflowEngine/Services/WorkflowService.cs:149-153 | In "done" every further action fails with TerminalState. |
| Scenarios.DuplicateStateReported | Infonetica.WorkflowEngine/Validator/WorkflowDefinitionValidator.cs:44-55 | A state id used twice is reported as a duplicate exactly once. |
| Scenarios.DuplicateStateRejected | Infonetica.WorkflowEngine/Services/WorkflowService.cs:45-67 | `CreateDefinition` rejects the same definition and lists the repeated id. |
| Scenarios.DisabledActionRun | Infonetica.WorkflowEngine/Services/WorkflowService.cs:167-171 | A disabled action from the current state fails with ActionDisabled. |
| Scenarios.UnknownActionRun | Infonetica.WorkflowEngine/Services/WorkflowService.cs:156-165 | An undeclared action id fails with ActionNotFound. |

## Left out

- Concurrency. `ConcurrentDictionary` and the check-then-insert races between requests are not modelled: the store is two plain maps in a sequential class.
- `Guid.NewGuid()`. The new instance id is a parameter of `StartInstance`, required to be non-empty and unused.
- `DateTime.UtcNow`. The timestamp of a transition is a parameter of `ExecuteAction`.
- Error text. The message strings, `string.Join` and `AppendLine` formatting are replaced by error values that carry the ids involved.
- Null ids inside states and actions. These would make the dictionaries throw, and they are not represented: ids are strings.
- Null `FromStates`. It is not represented. The validator treats it like an empty list, and `ExecuteAction` would throw on it.
- Multiple initial states in `StartInstance`. There `SingleOrDefault` throws; the model returns the distinct error `MultipleInitialStates`, and `CreateDefinition` never stores such a definition.
- Unread fields. `Name`, `Description` and `State.Enabled` are left out because no logic reads them.
- The HTTP endpoints (`Endpoints/WorkflowEndpoints.cs`) and the host wiring (`Program.cs`). These are not part of this model.
- Validator.ValidateAction: the body of the validator's loop over the actions is its own method here. The code has it inline; the order of the checks and what they append are the same.
