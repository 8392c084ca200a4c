/** `StateMachine`: the phase the heatmap-generation screen is in. */
module States {
  import opened Wrappers

  /** The phases, in declaration order. */
  datatype State =
    | FindPlanes
    | PlaceAreaAnchor
    | DrawArea
    | AreaCompleted
    | Measure
    | Measuring
    | DisplayHeatmap

  /** The position of a phase in the declaration (Java's `ordinal()`), which `compareTo` compares. */
  function Ordinal(s: State): (o: nat)
    ensures o < 7
    ensures o == 0 <==> s == FindPlanes
    ensures o == 6 <==> s == DisplayHeatmap
  {
    match s
    case FindPlanes => 0
    case PlaceAreaAnchor => 1
    case DrawArea => 2
    case AreaCompleted => 3
    case Measure => 4
    case Measuring => 5
    case DisplayHeatmap => 6
  }

  /** Exactly the phases declared at or after `AREA_COMPLETED` count as "area completed". */
  function AreaIsCompletedIn(s: State): (r: bool)
    ensures r <==> s in {AreaCompleted, Measure, Measuring, DisplayHeatmap}
  {
    Ordinal(s) >= Ordinal(AreaCompleted)
  }

  /** Once completed, every later phase is completed as well. */
  lemma CompletionIsMonotone(s: State, t: State)
    requires Ordinal(s) <= Ordinal(t)
    requires AreaIsCompletedIn(s)
    ensures AreaIsCompletedIn(t)
  {
  }

  lemma OrdinalIsInjective(s: State, t: State)
    requires Ordinal(s) == Ordinal(t)
    ensures s == t
  {
  }

  class StateMachine {
    /** `null` until the first `setState`. */
    var state: Option<State>

    constructor ()
      ensures state == None
    {
      state := None;
    }

    /** `getState`: the phase last set, `None` (`null`) before the first `setState`. */
    function GetState(): (s: Option<State>)
      reads this`state
      ensures s == state
    {
      state
    }

    method SetState(s: Option<State>)
      modifies this`state
      ensures GetState() == s
    {
      state := s;
    }

    /**
     * `isAreaCompleted`: whether the current phase is declared at or after
     * `AREA_COMPLETED`; with no phase set, dereferencing `null` throws.
     */
    function IsAreaCompleted(): (r: Result<bool>)
      reads this`state
      ensures state.None? <==> r == Err(NullReference)
      ensures state.Some? ==> r.Ok? && (r.value <==> state.value in {AreaCompleted, Measure, Measuring, DisplayHeatmap})
    {
      match state
      case None => Err(NullReference)
      case Some(s) => Ok(AreaIsCompletedIn(s))
    }
  }
}
