/**
 * GraphCanvas::RootGraphicsItem: the grid step, the enabled state, the
 * display state shown for the item, and the snapping of a position to the
 * grid.
 *
 * The selector states the item adds to and removes from its styled entity are
 * kept in `selectors`; the RootGraphicsItemNotificationBus events it sends are
 * kept in `notifications`.
 */
module RootGraphics {
  import opened Wrappers

  datatype DisplayState = Neutral | Preview | GroupHighlight | Inspection | InspectionTransparent | PartialDisabled | Disabled | Deletion

  /** ES_Enabled, ES_Disabled, and ES_PartialDisabled for any other non-enabled state. */
  datatype EnabledState = ES_Enabled | ES_PartialDisabled | ES_Disabled

  /** The Styling::States selectors the Enter/Leave pairs add and remove. */
  datatype Selector = PreviewSelector | DeletionSelector | PartialDisabledSelector | DisabledSelector | HoveredSelector | InspectionTransparentSelector

  datatype Notification = DisplayStateChanged(from: DisplayState, to: DisplayState) | EnabledChanged(state: EnabledState)

  /** The selector EnterXState adds and LeaveXState removes; Neutral has none. */
  function SelectorOf(s: DisplayState): (r: Option<Selector>)
    ensures r == None <==> s == Neutral
    ensures r == Some(HoveredSelector) <==> s == Inspection || s == GroupHighlight
  {
    match s
    case Neutral => None
    case Preview => Some(PreviewSelector)
    case GroupHighlight => Some(HoveredSelector)
    case Inspection => Some(HoveredSelector)
    case InspectionTransparent => Some(InspectionTransparentSelector)
    case PartialDisabled => Some(PartialDisabledSelector)
    case Disabled => Some(DisabledSelector)
    case Deletion => Some(DeletionSelector)
  }

  function SelectorsOf(s: DisplayState): set<Selector>
  {
    if SelectorOf(s).Some? then {SelectorOf(s).value} else {}
  }

  /**
   * The display state to show: a forced state wins; otherwise an item that is
   * not enabled shows Disabled (fully disabled) or PartialDisabled in place of
   * any internal state ranked at or below Disabled; otherwise the internal
   * state. `rank` is the order of the display-state enumeration.
   */
  function DesiredDisplayState(forced: Option<DisplayState>, enabled: EnabledState, internal: DisplayState, rank: DisplayState -> int): (r: DisplayState)
    ensures forced.Some? ==> r == forced.value
    ensures forced.None? && (enabled == ES_Enabled || rank(internal) > rank(Disabled)) ==> r == internal
    ensures forced.None? && enabled == ES_Disabled && rank(internal) <= rank(Disabled) ==> r == Disabled
    ensures forced.None? && enabled == ES_PartialDisabled && rank(internal) <= rank(Disabled) ==> r == PartialDisabled
  {
    if forced.Some? then forced.value
    else if enabled != ES_Enabled && rank(internal) <= rank(Disabled) then
      if enabled == ES_Disabled then Disabled else PartialDisabled
    else internal
  }

  /** Resolving an already resolved state changes nothing. */
  lemma DesiredIsStable(forced: Option<DisplayState>, enabled: EnabledState, internal: DisplayState, rank: DisplayState -> int)
    ensures var d := DesiredDisplayState(forced, enabled, internal, rank);
            DesiredDisplayState(forced, enabled, d, rank) == d
  {
  }

  /** The notification an update sends: one (old, new) pair, and only on a change. */
  function Transition(from: DisplayState, to: DisplayState): seq<Notification>
  {
    if from == to then [] else [DisplayStateChanged(from, to)]
  }

  /** The grid step SetGridSize stores for one component of the requested size. */
  function GridStep(v: real): (r: nat)
    ensures v >= 0.0 ==> r as real <= v < r as real + 1.0
    ensures v < 0.0 ==> r == 1
  {
    if v >= 0.0 then v.Floor else 1
  }

  /** A requested size in [0, 1) is accepted and gives a step of 0, on which snapping is undefined. */
  lemma ZeroStepAccepted(v: real)
    requires 0.0 <= v < 1.0
    ensures GridStep(v) == 0
  {
  }

  function Abs(x: int): nat
  {
    if x < 0 then -x else x
  }

  /** The int value of n/2 (n counts half units), truncated toward zero as a C++ cast does. */
  function TruncHalf(n: int): int
  {
    if n >= 0 then n / 2 else -((-n) / 2)
  }

  lemma {:induction false} AtLeastOnce(step: nat, k: nat)
    requires k >= 1
    ensures step * k >= step
    decreases k
  {
    if k > 1 {
      AtLeastOnce(step, k - 1);
      assert step * k == step * (k - 1) + step;
    }
  }

  lemma NonZeroMultiple(k: int, step: nat)
    requires step > 0 && k != 0
    ensures Abs(step * k) >= step
  {
    if k > 0 {
      AtLeastOnce(step, k);
    } else {
      AtLeastOnce(step, -k);
      assert step * k == -(step * -k);
    }
  }

  lemma MultipleMod(k: int, step: nat)
    requires step > 0
    ensures (step * k) % step == 0
  {
    var m := step * k;
    var d := k - m / step;
    assert step * d == m % step;
    if d != 0 {
      NonZeroMultiple(d, step);
    }
  }

  /**
   * The integer part of CalculatePosition for one coordinate: half a step is
   * added away from zero, then the coordinate is cut back to a multiple of
   * the step. The result is a multiple of the step within half a step.
   */
  function SnapCoordinate(x: int, step: nat): (r: int)
    requires step > 0
    ensures r % step == 0
    ensures 2 * Abs(r - x) <= step
  {
    if x < 0 then
      var p := TruncHalf(2 * x - step);
      assert p == x - step / 2;
      var r := p + Abs(p) % step;
      assert r == step * -(Abs(p) / step);
      MultipleMod(-(Abs(p) / step), step);
      r
    else
      var p := TruncHalf(2 * x + step);
      assert p == x + step / 2;
      var r := p - p % step;
      assert r == step * (p / step);
      MultipleMod(p / step, step);
      r
  }

  /** No multiple of the step is closer to the coordinate than the snapped one. */
  lemma SnapIsNearest(x: int, step: nat, m: int)
    requires step > 0 && m % step == 0
    ensures Abs(SnapCoordinate(x, step) - x) <= Abs(m - x)
  {
    var r := SnapCoordinate(x, step);
    if m != r {
      var k := m / step - r / step;
      assert m - r == step * k;
      NonZeroMultiple(k, step);
    }
  }

  /** A coordinate already on the grid stays where it is, so snapping twice is snapping once. */
  lemma SnapKeepsGridPoints(x: int, step: nat)
    requires step > 0
    ensures x % step == 0 ==> SnapCoordinate(x, step) == x
    ensures SnapCoordinate(SnapCoordinate(x, step), step) == SnapCoordinate(x, step)
  {
    if x % step == 0 {
      SnapIsNearest(x, step, x);
    }
    var r := SnapCoordinate(x, step);
    SnapIsNearest(r, step, r);
  }

  /** Snapping treats both signs alike: halves are rounded away from zero. */
  lemma SnapIsOdd(x: int, step: nat)
    requires step > 0 && x > 0
    ensures SnapCoordinate(-x, step) == -SnapCoordinate(x, step)
  {
    var p := TruncHalf(2 * x + step);
    assert TruncHalf(2 * -x - step) == -p;
  }

  class RootGraphicsItem {
    var snapToGrid: bool
    var gridX: nat
    var gridY: nat
    /** The item's position, already offset by its anchor point. */
    var position: (int, int)
    /** Connected to the tick bus: a position animation is running. */
    var animating: bool
    var enabledState: EnabledState
    /** The state held by the forced-display-state controller, if any. */
    var forcedState: Option<DisplayState>
    var internalDisplayState: DisplayState
    var actualDisplayState: DisplayState
    /** The selector states this item has added to its styled entity. */
    var selectors: set<Selector>
    /** The notifications sent on RootGraphicsItemNotificationBus, in order. */
    var notifications: seq<Notification>
    /** The order of the display-state enumeration. */
    const rank: DisplayState -> int

    /** The styled entity carries exactly the selector of the state shown. */
    ghost predicate StyleMatches()
      reads this
    {
      selectors == SelectorsOf(actualDisplayState)
    }

    /** The state shown is the resolved one, and the style agrees with it. */
    ghost predicate Valid()
      reads this
    {
      && StyleMatches()
      && actualDisplayState == DesiredDisplayState(forcedState, enabledState, internalDisplayState, rank)
    }

    constructor(rank: DisplayState -> int)
      ensures Valid() && this.rank == rank
      ensures !snapToGrid && gridX == 1 && gridY == 1
      ensures position == (0, 0) && !animating
      ensures enabledState == ES_Enabled && forcedState == None
      ensures internalDisplayState == Neutral && actualDisplayState == Neutral
      ensures selectors == {} && notifications == []
    {
      this.rank := rank;
      snapToGrid, gridX, gridY := false, 1, 1;
      position, animating := (0, 0), false;
      enabledState, forcedState := ES_Enabled, None;
      internalDisplayState, actualDisplayState := Neutral, Neutral;
      selectors, notifications := {}, [];
    }

    /** Each component is truncated when non-negative; a negative one becomes 1. */
    method SetGridSize(x: real, y: real)
      modifies this`gridX, this`gridY
      ensures gridX == GridStep(x) && gridY == GridStep(y)
    {
      if x >= 0.0 {
        gridX := x.Floor;
      } else {
        gridX := 1;
      }
      if y >= 0.0 {
        gridY := y.Floor;
      } else {
        gridY := 1;
      }
    }

    /**
     * The integer part of CalculatePosition: with snapping on and no animation
     * running each coordinate moves to a multiple of its grid step within half
     * a step; otherwise it is kept.
     */
    function CalculatePosition(p: (int, int)): (q: (int, int))
      reads this
      requires snapToGrid && !animating ==> gridX > 0 && gridY > 0
      ensures snapToGrid && !animating ==>
                && q.0 % gridX == 0 && 2 * Abs(q.0 - p.0) <= gridX
                && q.1 % gridY == 0 && 2 * Abs(q.1 - p.1) <= gridY
      ensures !(snapToGrid && !animating) ==> q == p
    {
      if snapToGrid && !animating then (SnapCoordinate(p.0, gridX), SnapCoordinate(p.1, gridY))
      else p
    }

    /** Turning snapping on moves the item onto the grid at once. */
    method SetSnapToGridEnabled(enabled: bool)
      requires enabled ==> gridX > 0 && gridY > 0
      modifies this`snapToGrid, this`position
      ensures snapToGrid == enabled
      ensures enabled ==> position == CalculatePosition(old(position))
      ensures !enabled ==> position == old(position)
    {
      snapToGrid := enabled;
      if snapToGrid {
        position := CalculatePosition(position);
      }
    }

    /** The EnterXState call for `s`. */
    method Enter(s: DisplayState)
      modifies this`selectors
      ensures selectors == old(selectors) + SelectorsOf(s)
    {
      var selector := SelectorOf(s);
      if selector.Some? {
        selectors := selectors + {selector.value};
      }
    }

    /** The LeaveXState call for `s`. */
    method Leave(s: DisplayState)
      modifies this`selectors
      ensures selectors == old(selectors) - SelectorsOf(s)
    {
      var selector := SelectorOf(s);
      if selector.Some? {
        selectors := selectors - {selector.value};
      }
    }

    /** Shows the resolved state: leave the old one, enter the new one, notify once. */
    method UpdateActualDisplayState()
      requires StyleMatches()
      modifies this`actualDisplayState, this`selectors, this`notifications
      ensures Valid()
      ensures notifications == old(notifications) + Transition(old(actualDisplayState), actualDisplayState)
    {
      var desired := DesiredDisplayState(forcedState, enabledState, internalDisplayState, rank);
      if desired != actualDisplayState {
        var oldDisplayState := actualDisplayState;
        Leave(actualDisplayState);
        actualDisplayState := desired;
        Enter(actualDisplayState);
        notifications := notifications + [DisplayStateChanged(oldDisplayState, actualDisplayState)];
      }
    }

    /** OnStateChanged: the forced-state controller now holds `forced`. */
    method OnStateChanged(forced: Option<DisplayState>)
      requires Valid()
      modifies this`forcedState, this`actualDisplayState, this`selectors, this`notifications
      ensures Valid() && forcedState == forced
      ensures notifications == old(notifications) + Transition(old(actualDisplayState), actualDisplayState)
    {
      forcedState := forced;
      UpdateActualDisplayState();
    }

    method SetEnabledState(state: EnabledState)
      requires Valid()
      modifies this`enabledState, this`actualDisplayState, this`selectors, this`notifications
      ensures Valid() && enabledState == state
      ensures old(enabledState) == state ==>
                && actualDisplayState == old(actualDisplayState)
                && selectors == old(selectors) && notifications == old(notifications)
      ensures old(enabledState) != state ==>
                notifications == old(notifications) + Transition(old(actualDisplayState), actualDisplayState) + [EnabledChanged(state)]
    {
      if enabledState != state {
        enabledState := state;
        UpdateActualDisplayState();
        notifications := notifications + [EnabledChanged(enabledState)];
      }
    }

    method SetDisplayState(displayState: DisplayState)
      requires Valid()
      modifies this`internalDisplayState, this`actualDisplayState, this`selectors, this`notifications
      ensures Valid() && internalDisplayState == displayState
      ensures old(internalDisplayState) == displayState ==>
                && actualDisplayState == old(actualDisplayState)
                && selectors == old(selectors) && notifications == old(notifications)
      ensures notifications == old(notifications) + Transition(old(actualDisplayState), actualDisplayState)
    {
      if internalDisplayState != displayState {
        internalDisplayState := displayState;
        UpdateActualDisplayState();
      }
    }

    /** Holding Alt over the item asks for the deletion look; releasing it, for inspection. */
    method OnAltModifier(enabled: bool)
      requires Valid()
      modifies this`internalDisplayState, this`actualDisplayState, this`selectors, this`notifications
      ensures Valid()
      ensures internalDisplayState == if enabled then Deletion else Inspection
      ensures notifications == old(notifications) + Transition(old(actualDisplayState), actualDisplayState)
    {
      if enabled {
        SetDisplayState(Deletion);
      } else {
        SetDisplayState(Inspection);
      }
    }
  }

  /**
   * An item that is fully disabled and not forced shows Disabled, or a state
   * ranked above it; a partially disabled one shows PartialDisabled likewise.
   */
  lemma DisabledItemLooksDisabled(item: RootGraphicsItem)
    requires item.Valid() && item.forcedState == None && item.enabledState != ES_Enabled
    ensures item.rank(item.actualDisplayState) > item.rank(Disabled)
            || item.actualDisplayState == (if item.enabledState == ES_Disabled then Disabled else PartialDisabled)
  {
  }
}
