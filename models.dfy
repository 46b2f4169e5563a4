/** The records of the workflow engine (the Models folder) and the string
    predicates the engine's checks are built from. */
module Models {

  datatype Option<+T> = None | Some(value: T)

  /** The "(value?, error?)" pairs the service returns, as one value. */
  datatype Result<+T, +E> = Ok(value: T) | Err(error: E)

  /** System.Guid: a 128-bit value; 0 is Guid.Empty. */
  newtype Guid = x: int | 0 <= x < 0x1_0000_0000_0000_0000_0000_0000_0000_0000

  const EmptyGuid: Guid := 0

  /** DateTime.UtcNow at the time of a transition, supplied by the caller (in ticks). */
  type Timestamp = int

  /** A state of a workflow; Name, Description and Enabled are not read by the engine. */
  datatype State = State(id: string, isInitial: bool, isFinal: bool)

  /** A transition; Name and Description are not read by the engine. */
  datatype Action = Action(id: string, enabled: bool, fromStates: seq<string>, toState: string)

  /** A definition as it arrives from a client: States and Actions may be null. */
  datatype WorkflowDefinition = WorkflowDefinition(id: string, states: Option<seq<State>>, actions: Option<seq<Action>>)

  /** One entry of an instance's history. */
  datatype Change = Change(timestamp: Timestamp, action: string, fromState: string, toState: string)

  /** char.IsWhiteSpace: the Unicode space separators, line and paragraph
      separators, and U+0009..U+000D, U+0085, U+00A0. */
  predicate IsWhiteSpace(c: char)
  {
    || c == ' '
    || ('\U{0009}' <= c <= '\U{000D}')
    || c == '\U{0085}' || c == '\U{00A0}' || c == '\U{1680}'
    || ('\U{2000}' <= c <= '\U{200A}')
    || c == '\U{2028}' || c == '\U{2029}' || c == '\U{202F}' || c == '\U{205F}' || c == '\U{3000}'
  }

  /** string.IsNullOrWhiteSpace for a non-null string: empty or all white space. */
  predicate IsBlank(s: string)
  {
    forall i :: 0 <= i < |s| ==> IsWhiteSpace(s[i])
  }

  /** The ids of a list of states, in order (States.Select(s => s.Id)). */
  function StateIds(states: seq<State>): seq<string>
  {
    seq(|states|, i requires 0 <= i < |states| => states[i].id)
  }

  /** The ids of a list of actions, in order. */
  function ActionIds(actions: seq<Action>): seq<string>
  {
    seq(|actions|, i requires 0 <= i < |actions| => actions[i].id)
  }

  /** States.Count(s => s.IsInitial). */
  function InitialCount(states: seq<State>): nat
  {
    if states == [] then 0
    else (if states[0].isInitial then 1 else 0) + InitialCount(states[1..])
  }

  /** No two positions of `ids` hold the same id. */
  predicate Distinct(ids: seq<string>)
  {
    forall i, j :: 0 <= i < j < |ids| ==> ids[i] != ids[j]
  }
}
