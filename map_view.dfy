/**
 * The single-selection state of the map component. A click on a 3-D
 * building selects it (guarded by a validity check on the hit feature), and
 * two buttons raise the selected building's rendered height by a fixed step
 * or put it back. The component's state is three fields that start empty and
 * are set together; the map itself is an external rendering engine, of which
 * only the two per-feature paint rules the component pushes are modelled.
 */
module MapView {

  datatype Option<T> = None | Some(value: T)

  /** Amount, in meters, that one "increase height" press adds. */
  const HeightStep: int := 10

  /** Fill colour of the selected building. */
  const HighlightColour: string := "#ff0000"

  /** Fill colour of every other building. */
  const DefaultColour: string := "#aaa"

  /**
   * A feature id as the map engine hands it over: it may be missing, a
   * string or a number (the source's `as string` is a compile-time cast only).
   */
  datatype FeatureId = NoId | TextId(text: string) | NumberId(number: int)

  /** JavaScript truthiness of an id: missing, `""` and `0` are falsy. */
  predicate Truthy(id: FeatureId)
  {
    match id
    case NoId => false
    case TextId(t) => t != ""
    case NumberId(n) => n != 0
  }

  /** A feature hit by a click: its id and its `height` property (`None` when undefined). */
  datatype Feature = Feature(id: FeatureId, height: Option<int>)

  /** The record kept for the selected building. */
  datatype BuildingInfo = BuildingInfo(id: FeatureId, height: int)

  /** The component's three state fields, as one value. */
  datatype Selection = Selection(
    selectedBuilding: Option<BuildingInfo>,
    originalHeight: Option<int>,
    buildingHeight: Option<int>)

  /** The state before any click: all three fields empty. */
  const NoSelection: Selection := Selection(None, None, None)

  /**
   * The two heights are present exactly when a building is selected, and the
   * selected record carries the height it was selected with.
   */
  predicate Consistent(st: Selection)
  {
    && (st.selectedBuilding.Some? <==> st.originalHeight.Some?)
    && (st.selectedBuilding.Some? <==> st.buildingHeight.Some?)
    && (st.selectedBuilding.Some? ==> st.selectedBuilding.value.height == st.originalHeight.value)
  }

  /**
   * The building a click selects: the first hit feature, provided its id is
   * truthy and its height is defined; `None` when the click is to be ignored.
   */
  function ClickedBuilding(features: seq<Feature>): (b: Option<BuildingInfo>)
    ensures b.Some? ==> Truthy(b.value.id)
  {
    if |features| == 0 then None
    else
      var feature := features[0];
      if !Truthy(feature.id) || feature.height.None? then None
      else Some(BuildingInfo(feature.id, feature.height.value))
  }

  /** State after a click on the building layer. */
  function AfterClick(st: Selection, features: seq<Feature>): Selection
  {
    match ClickedBuilding(features)
    case None => st
    case Some(info) => Selection(Some(info), Some(info.height), Some(info.height))
  }

  /** Whether "increase height" acts: a building is selected and its current height is known. */
  predicate CanIncrease(st: Selection)
  {
    st.selectedBuilding.Some? && st.buildingHeight.Some?
  }

  /** Whether "reset height" acts: a building is selected and its original height is known. */
  predicate CanReset(st: Selection)
  {
    st.selectedBuilding.Some? && st.originalHeight.Some?
  }

  /** State after "increase height". */
  function AfterIncrease(st: Selection): Selection
  {
    if CanIncrease(st) then st.(buildingHeight := Some(st.buildingHeight.value + HeightStep)) else st
  }

  /** State after "reset height". */
  function AfterReset(st: Selection): Selection
  {
    if CanReset(st) then st.(buildingHeight := st.originalHeight) else st
  }

  /** `n` presses of "increase height". */
  function AfterIncreases(st: Selection, n: nat): Selection
  {
    if n == 0 then st else AfterIncrease(AfterIncreases(st, n - 1))
  }

  // ---------------------------------------------------------------------
  // Paint rules pushed to the map

  /**
   * The extrusion-height rule: features whose `id` property equals `id` are
   * drawn `height` meters tall, all others at their own `height` property.
   */
  datatype HeightRule = HeightRule(id: FeatureId, height: int)

  /** The height rule pushed for `newHeight`, or `None` when nothing is selected and nothing is pushed. */
  function UpdateBuildingHeight(st: Selection, newHeight: int): (rule: Option<HeightRule>)
    ensures rule.Some? <==> st.selectedBuilding.Some?
    ensures rule.Some? ==> rule.value.id == st.selectedBuilding.value.id && rule.value.height == newHeight
  {
    match st.selectedBuilding
    case None => None
    case Some(info) => Some(HeightRule(info.id, newHeight))
  }

  /** The rule "increase height" pushes, computed from the state the press saw. */
  function IncreaseRule(st: Selection): Option<HeightRule>
  {
    if CanIncrease(st) then UpdateBuildingHeight(st, st.buildingHeight.value + HeightStep) else None
  }

  /** The rule "reset height" pushes, computed from the state the press saw. */
  function ResetRule(st: Selection): Option<HeightRule>
  {
    if CanReset(st) then UpdateBuildingHeight(st, st.originalHeight.value) else None
  }

  /** Fill colour of a feature whose `id` property is `idProperty` while `highlighted` is highlighted. */
  function FeatureColour(highlighted: FeatureId, idProperty: FeatureId): (c: string)
    ensures c == HighlightColour <==> idProperty == highlighted
    ensures c == DefaultColour <==> idProperty != highlighted
  {
    if idProperty == highlighted then HighlightColour else DefaultColour
  }

  /** Extrusion height of a feature with `id` property `idProperty` and own height `intrinsic` under `rule`. */
  function FeatureHeight(rule: HeightRule, idProperty: FeatureId, intrinsic: int): (h: int)
    ensures idProperty == rule.id ==> h == rule.height
    ensures idProperty != rule.id ==> h == intrinsic
  {
    if idProperty == rule.id then rule.height else intrinsic
  }

  // ---------------------------------------------------------------------
  // The component

  /** The map component's selection state: three fields updated by the click handler and two buttons. */
  class BuildingPanel {
    var selectedBuilding: Option<BuildingInfo>
    var originalHeight: Option<int>
    var buildingHeight: Option<int>

    /** The three fields as one value. */
    function State(): Selection
      reads this
    {
      Selection(selectedBuilding, originalHeight, buildingHeight)
    }

    ghost predicate Valid()
      reads this
    {
      Consistent(State())
    }

    /** All three fields start empty. */
    constructor ()
      ensures Valid() && State() == NoSelection
    {
      selectedBuilding, originalHeight, buildingHeight := None, None, None;
    }

    /**
     * Click handler of the building layer. Returns the id it highlights, or
     * `None` when the click is ignored.
     */
    method HandleClick(features: seq<Feature>) returns (highlighted: Option<FeatureId>)
      requires Valid()
      modifies this
      ensures Valid()
      ensures State() == AfterClick(old(State()), features)
      ensures highlighted == match ClickedBuilding(features)
        case None => None
        case Some(info) => Some(info.id)
    {
      highlighted := None;
      if |features| > 0 {
        var feature := features[0];
        var buildingId := feature.id;
        var height := feature.height;
        if !Truthy(buildingId) || height.None? {
          return;
        }
        var buildingInfo := BuildingInfo(buildingId, height.value);
        selectedBuilding := Some(buildingInfo);
        originalHeight := Some(height.value);
        buildingHeight := Some(height.value);
        highlighted := Some(buildingId);
      }
    }

    /** "Increase height" button. Returns the height rule it pushes, if any. */
    method HandleIncreaseHeight() returns (pushed: Option<HeightRule>)
      requires Valid()
      modifies this
      ensures Valid()
      ensures State() == AfterIncrease(old(State()))
      ensures pushed == IncreaseRule(old(State()))
    {
      pushed := None;
      if selectedBuilding.Some? && buildingHeight.Some? {
        var newHeight := buildingHeight.value + HeightStep;
        pushed := UpdateBuildingHeight(State(), newHeight);
        buildingHeight := Some(newHeight);
      }
    }

    /** "Reset height" button. Returns the height rule it pushes, if any. */
    method HandleResetHeight() returns (pushed: Option<HeightRule>)
      requires Valid()
      modifies this
      ensures Valid()
      ensures State() == AfterReset(old(State()))
      ensures pushed == ResetRule(old(State()))
    {
      pushed := None;
      if selectedBuilding.Some? && originalHeight.Some? {
        pushed := UpdateBuildingHeight(State(), originalHeight.value);
        buildingHeight := originalHeight;
      }
    }
  }

  /** A session on a fresh component: click building "A" (20 m), raise twice, reset. */
  method SelectRaiseTwiceReset() returns (raised: Option<int>, restored: Option<int>, rule: Option<HeightRule>)
    ensures raised == Some(40) && restored == Some(20)
    ensures rule == Some(HeightRule(TextId("A"), 20))
  {
    var panel := new BuildingPanel();
    var highlighted := panel.HandleClick([Feature(TextId("A"), Some(20))]);
    var pushed := panel.HandleIncreaseHeight();
    pushed := panel.HandleIncreaseHeight();
    raised := panel.buildingHeight;
    rule := panel.HandleResetHeight();
    restored := panel.buildingHeight;
  }

  // ---------------------------------------------------------------------
  // Properties

  /** The three fields start empty and every transition keeps them consistent. */
  lemma ConsistencyIsInvariant(st: Selection, features: seq<Feature>)
    requires Consistent(st)
    ensures Consistent(NoSelection)
    ensures Consistent(AfterClick(st, features))
    ensures Consistent(AfterIncrease(st))
    ensures Consistent(AfterReset(st))
  {
  }

  /** Missing, `""` and `0` ids are falsy; any other string or number is truthy. */
  lemma FalsyIds(t: string, n: int)
    ensures !Truthy(NoId) && !Truthy(TextId("")) && !Truthy(NumberId(0))
    ensures t != "" ==> Truthy(TextId(t))
    ensures n != 0 ==> Truthy(NumberId(n))
  {
  }

  /** A click with no feature, a falsy id or an undefined height leaves all three fields unchanged. */
  lemma InvalidClickIgnored(st: Selection, features: seq<Feature>)
    requires |features| == 0 || !Truthy(features[0].id) || features[0].height.None?
    ensures ClickedBuilding(features) == None
    ensures AfterClick(st, features) == st
  {
  }

  /** A valid click replaces any prior selection by the clicked building, both heights its height. */
  lemma ValidClickSelects(st: Selection, features: seq<Feature>)
    requires |features| > 0 && Truthy(features[0].id) && features[0].height.Some?
    ensures var r := AfterClick(st, features);
      && r.selectedBuilding.Some?
      && r.selectedBuilding.value.id == features[0].id
      && r.originalHeight == features[0].height
      && r.buildingHeight == features[0].height
  {
  }

  /** After a valid click exactly the clicked id is painted in the highlight colour. */
  lemma ClickHighlightsOnlyClicked(st: Selection, features: seq<Feature>, idProperty: FeatureId)
    requires ClickedBuilding(features).Some?
    ensures var id := AfterClick(st, features).selectedBuilding.value.id;
      FeatureColour(id, idProperty) == HighlightColour <==> idProperty == features[0].id
  {
  }

  /**
   * "Increase height" adds exactly one step to the current height when it
   * acts and is a no-op otherwise; it never touches the selection or the
   * original height.
   */
  lemma IncreaseAddsStep(st: Selection)
    requires Consistent(st)
    ensures var r := AfterIncrease(st);
      && r.selectedBuilding == st.selectedBuilding
      && r.originalHeight == st.originalHeight
      && (st.selectedBuilding.Some? ==> r.buildingHeight == Some(st.buildingHeight.value + HeightStep))
      && (st.selectedBuilding.None? ==> r == st)
  {
  }

  /** "Reset height" puts the current height back to the original one when a building is selected. */
  lemma ResetRestoresOriginal(st: Selection)
    requires Consistent(st)
    ensures var r := AfterReset(st);
      && r.selectedBuilding == st.selectedBuilding
      && r.originalHeight == st.originalHeight
      && (st.selectedBuilding.Some? ==> r.buildingHeight == st.originalHeight)
      && (st.selectedBuilding.None? ==> r == st)
      && AfterReset(r) == r
  {
  }

  /** Raising `n` times adds `n` steps and leaves the selection and original height alone. */
  lemma {:induction false} IncreasesAddSteps(st: Selection, n: nat)
    requires Consistent(st) && st.selectedBuilding.Some?
    ensures var r := AfterIncreases(st, n);
      && Consistent(r)
      && r.selectedBuilding == st.selectedBuilding
      && r.originalHeight == st.originalHeight
      && r.buildingHeight == Some(st.buildingHeight.value + HeightStep * n)
  {
    if n > 0 {
      IncreasesAddSteps(st, n - 1);
    }
  }

  /** Click, raise any number of times, reset: the state is the one the click produced. */
  lemma ClickIncreasesResetRestores(st: Selection, features: seq<Feature>, n: nat)
    requires ClickedBuilding(features).Some?
    ensures AfterReset(AfterIncreases(AfterClick(st, features), n)) == AfterClick(st, features)
    ensures AfterReset(AfterIncreases(AfterClick(st, features), n)).buildingHeight == features[0].height
  {
    IncreasesAddSteps(AfterClick(st, features), n);
  }

  /**
   * The rule "increase height" pushes draws the selected building at its new
   * current height and every other feature at its own height.
   */
  lemma IncreaseRuleRendersSelected(st: Selection, idProperty: FeatureId, intrinsic: int)
    requires Consistent(st) && st.selectedBuilding.Some?
    ensures IncreaseRule(st).Some?
    ensures FeatureHeight(IncreaseRule(st).value, idProperty, intrinsic)
      == if idProperty == st.selectedBuilding.value.id then AfterIncrease(st).buildingHeight.value else intrinsic
  {
  }

  /** The rule "reset height" pushes draws the selected building at its original height, others at their own. */
  lemma ResetRuleRendersOriginal(st: Selection, idProperty: FeatureId, intrinsic: int)
    requires Consistent(st) && st.selectedBuilding.Some?
    ensures ResetRule(st).Some?
    ensures FeatureHeight(ResetRule(st).value, idProperty, intrinsic)
      == if idProperty == st.selectedBuilding.value.id then st.originalHeight.value else intrinsic
  {
  }

  /** With nothing selected neither button pushes a rule. */
  lemma NoSelectionPushesNothing(st: Selection)
    requires Consistent(st) && st.selectedBuilding.None?
    ensures IncreaseRule(st) == None && ResetRule(st) == None
  {
  }
}
