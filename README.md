# Building selection of the interactive 3-D map

The application shows extruded 3-D buildings on a map. The user clicks buildings to select them and raises a selected building's rendered height in fixed 10-meter steps or resets it. The repository holds two selection designs that are not connected to each other, and each is modelled on its own terms:

- **`BuildingSelection`** (`selection.dfy`) models the home page's multi-selection list. The state is an ordered list of building records `{id, height, originalHeight, name, address}`. Five updaters replace the list wholesale: toggle, remove one, remove all, increase height and reset height. Each is a pure function from the previous list to the next one, written with `some`, `filter`, `map` and spread, so each is a Dafny function on `seq<Building>`. The lemmas cover membership, order, id uniqueness and the fields of each record.
- **`MapView`** (`map_view.dfy`) models the map component's single-selection state. The state is three fields, `selectedBuilding`, `originalHeight` and `buildingHeight`, which start empty.
  - The click handler and the two height buttons change these fields step by step under guards. They are the methods of the class `BuildingPanel`, and each method is proved against a specification function on the value `Selection` (`AfterClick`, `AfterIncrease`, `AfterReset`).
  - Each method also returns what it hands to the map engine: the id it highlights, or the extrusion-height rule it pushes.
  - The two per-feature paint rules are pure functions, `FeatureColour` and `FeatureHeight`.

Heights are mathematical integers. The source only ever adds the literal 10 to a number, so floating point plays no part.

Notes on modelling choices:

- **Feature ids.** At run time a feature id may be missing, a string or a number; the `as string` in the source is only a compile-time cast. `FeatureId` therefore has three cases, and `Truthy` follows JavaScript: a missing id, `""` and `0` are falsy.
- **Paint rules compare a property.** Both paint rules compare the feature's `id` *property* (`['get', 'id']`) with the selected id. Whether the tile data carries such a property equal to the feature id is up to the map data. The model takes the property as a parameter (`idProperty`) and does not assume the two are equal.
- **A new click leaves the old height rule in place.** A click does not push a new height rule. The rule last pushed for a previously selected building therefore stays on the map until the next button press, and that press pushes a rule for the new selection only. The model reproduces this: `HandleClick` returns only the highlighted id.
- **Where the code differs from the design description:**
  - The increment is hard-coded to 10 rather than being a parameter.
  - The selection is a list, not a keyed map. Unique ids are a property the updaters preserve (`ToggleKeepsUniqueIds`, `WithoutKeepsUniqueIds`, `HeightOpsKeepIds`), not one the type enforces.
  - The toggle receives its address as an argument. No geocoding happens in this code.

  The model follows the code.

## Model

| member | source | states |
|---|---|---|
| BuildingSelection.NewRecord | app/page.tsx:25-31 | a new record has the given id and address, the placeholder name, and current height equal to original height equal to the clicked height |
| BuildingSelection.Without | app/page.tsx:20 | after the filter no record has the id, the list is no longer, and every surviving record was in the input |
| BuildingSelection.WithoutCounts | app/page.tsx:38 | the filter drops every record with the id and keeps every other record exactly as many times as it occurred |
| BuildingSelection.Toggle | app/page.tsx:16-35 | after a toggle the id is selected if and only if it was not selected before |
| BuildingSelection.Remove | app/page.tsx:37-39 | after remove-one the id is no longer selected |
| BuildingSelection.RemoveAll | app/page.tsx:41-43 | after remove-all no id is selected |
| BuildingSelection.IncreaseHeight | app/page.tsx:45-51 | same length; every record keeps its id, originalHeight, name and address; matching records gain exactly 10 in height and the others keep their height |
| BuildingSelection.ResetHeight | app/page.tsx:53-59 | same length; every record keeps its id, originalHeight, name and address; matching records get height = originalHeight and the others keep their height |
| BuildingSelection.ToggleAbsentAppends | app/page.tsx:22-32 | toggling an absent id appends exactly one record at the end, with height = originalHeight = the given height, the placeholder name and the given address; the earlier records are unchanged |
| BuildingSelection.TogglePresentRemoves | app/page.tsx:18-20 | toggling a selected id equals remove-one: the list gets strictly shorter, every record with the id goes, and every other record keeps its multiplicity |
| BuildingSelection.ToggleTwiceRestores | app/page.tsx:16-35 | toggling an absent id twice returns the original list, whatever heights and addresses the two clicks carried |
| BuildingSelection.ToggleKeepsUniqueIds | app/page.tsx:16-35 | if the ids are unique before a toggle, they are unique after it |
| BuildingSelection.ToggleParity | app/page.tsx:16-35 | after any sequence of toggles of one id, the id is selected if and only if it was selected before XOR the number of toggles is odd |
| BuildingSelection.WithoutConcat | app/page.tsx:20 | the filter distributes over concatenation, so surviving records keep their relative order |
| BuildingSelection.WithoutKeepsUniqueIds | app/page.tsx:38 | removing keeps ids unique |
| BuildingSelection.RemoveUniqueCutsOut | app/page.tsx:37-39 | with unique ids, removing the id at position k gives exactly the list with position k cut out, and the rest keeps its order |
| BuildingSelection.RemoveAbsentNoop | app/page.tsx:37-39 | removing an absent id returns the list unchanged |
| BuildingSelection.RemoveIdempotent | app/page.tsx:37-39 | removing twice equals removing once |
| BuildingSelection.RemoveAllClears | app/page.tsx:41-59 | remove-all yields the empty list whatever the prior contents, and increase or reset of any id afterwards leaves it empty |
| BuildingSelection.HeightOpsAbsentNoop | app/page.tsx:45-59 | increase and reset of an absent id leave the list unchanged |
| BuildingSelection.HeightOpsKeepIds | app/page.tsx:45-59 | increase and reset keep the set of selected ids and keep ids unique |
| BuildingSelection.ResetIdempotent | app/page.tsx:53-59 | resetting twice equals resetting once |
| BuildingSelection.IncreaseHeightTimesAdds | app/page.tsx:45-51 | n increases add exactly 10·n to the height of the matching records and leave every other record and field unchanged |
| BuildingSelection.ResetAfterIncreases | app/page.tsx:45-59 | a reset after any number of increases gives the same list as a reset without them |
| BuildingSelection.SelectIncreaseResetRestores | app/page.tsx:16-59 | select an absent id, increase it n times, then reset: the result is the original list plus the fresh record at its selected height |
| BuildingSelection.ScenarioRaiseAndReset | app/page.tsx:16-59 | select A at 20, then increase, increase gives height 40; reset gives 20; toggling A again gives the empty list |
| BuildingSelection.ScenarioToggleOff | app/page.tsx:16-35 | select A (20), select B (15), toggle A: only B's record (height 15) is left |
| MapView.FalsyIds | app/components/Map.tsx:71 | a missing id, `""` and `0` are falsy; any other string or number id is truthy |
| MapView.ClickedBuilding | app/components/Map.tsx:66-79 | a click that selects anything selects a building with a truthy id |
| MapView.UpdateBuildingHeight | app/components/Map.tsx:158-168 | a rule is pushed if and only if a building is selected; the rule names the selected id and carries the new height |
| MapView.FeatureColour | app/components/Map.tsx:122-127 | a feature gets the highlight colour if and only if its id property equals the highlighted id, and the default colour otherwise |
| MapView.FeatureHeight | app/components/Map.tsx:163-168 | the feature with the rule's id is drawn at the rule's height; every other feature is drawn at its intrinsic height |
| MapView.BuildingPanel.constructor | app/components/Map.tsx:20-22 | all three state fields start empty, which is consistent |
| MapView.BuildingPanel.HandleClick | app/components/Map.tsx:65-86 | the new state is `AfterClick` of the old state; it highlights the clicked id exactly when the click is valid; consistency is kept |
| MapView.BuildingPanel.HandleIncreaseHeight | app/components/Map.tsx:171-178 | the new state is `AfterIncrease` of the old state; the pushed rule is computed from the state the press saw; consistency is kept |
| MapView.BuildingPanel.HandleResetHeight | app/components/Map.tsx:180-186 | the new state is `AfterReset` of the old state; the pushed rule is computed from the state the press saw; consistency is kept |
| MapView.SelectRaiseTwiceReset | app/components/Map.tsx:171-186 | on a fresh component: click A at 20, then two increases give 40; reset gives 20 and pushes the rule (A, 20) |
| MapView.ConsistencyIsInvariant | app/components/Map.tsx:20-22 | the heights are present exactly when a building is selected, and the selected record's height is the original height; this holds initially and after every click, increase and reset |
| MapView.InvalidClickIgnored | app/components/Map.tsx:71-74 | a click with no feature, a falsy id or an undefined height selects nothing and leaves all three fields unchanged |
| MapView.ValidClickSelects | app/components/Map.tsx:76-83 | a valid click replaces any prior selection: the selected id becomes the clicked id, and both heights become the clicked height |
| MapView.ClickHighlightsOnlyClicked | app/components/Map.tsx:119-127 | after a valid click, a feature is painted in the highlight colour if and only if its id property is the clicked id |
| MapView.IncreaseAddsStep | app/components/Map.tsx:171-178 | increase adds exactly 10 to the current height when a building is selected and is a no-op otherwise; it never changes the selection or the original height |
| MapView.ResetRestoresOriginal | app/components/Map.tsx:180-186 | reset sets the current height to the original height when a building is selected and is a no-op otherwise; it is idempotent |
| MapView.IncreasesAddSteps | app/components/Map.tsx:171-178 | n increases add exactly 10·n to the current height, keep the selection and the original height, and keep consistency |
| MapView.ClickIncreasesResetRestores | app/components/Map.tsx:65-186 | a valid click, then any number of increases, then a reset gives back exactly the state the click produced, with the clicked height |
| MapView.IncreaseRuleRendersSelected | app/components/Map.tsx:158-178 | under the rule an increase pushes, the selected feature is drawn at its new current height and every other feature at its intrinsic height |
| MapView.ResetRuleRendersOriginal | app/components/Map.tsx:158-186 | under the rule a reset pushes, the selected feature is drawn at its original height and every other feature at its intrinsic height |
| MapView.NoSelectionPushesNothing | app/components/Map.tsx:171-186 | with nothing selected, neither button pushes a height rule |

## Left out

- Map construction, style and layer setup, the zoom interpolation expressions, the outline layer, and cursor changes on hover are left out. So is `resetHighlight`, which runs when the pointer leaves a building. All of these are calls into the external rendering engine. The engine's paint state is not modelled; only the rules the component pushes are.
- Hiding the map logo and removing the map on unmount are left out. They are browser DOM work and component lifecycle.
- Reading the access token from the environment is left out. It is configuration I/O.
- React scheduling is left out: `useState`, `useCallback`, `useEffect`, stale closures, dynamic imports and JSX rendering. That includes the info panel's `buildingHeight || selectedBuilding.height` display and the presentation components, whose only logic is the "remove all when more than two are selected" display threshold and placeholder texts.
- The callbacks `onBuildingSelect`, `onIncreaseHeight` and `onResetHeight` are left out, together with the mismatched props between the page and the map component. They are the wiring between the two designs, which do not connect.
- `updateBuildingHeight`'s early return when the map handle is not yet created is left out. The model assumes the map exists.
- A feature whose `height` property is `null`, or not a number, is not modelled. The source's `=== undefined` guard would let it through. NaN ids are not modelled either, because ids and heights are integers.
- Reverse geocoding and any stale-update handling are left out. They do not occur in this code.
- BuildingSelection.Without: states only that survivors come from the input and that no record with the id remains. The exact multiplicities are in `WithoutCounts`, and the preserved order is in `WithoutConcat` and `RemoveUniqueCutsOut`.
