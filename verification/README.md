# 3D car viewer: part classifier, door/light state and click resolution

A Dafny model of the decision logic of an interactive 3D car viewer
(`useCarModel.ts` and `useInteractions.ts`). The viewer loads a car
model, sorts its scene nodes into doors, wheels, front lights, rear
lights and body parts, opens doors, switches headlights, lays out an
"exploded" view, and resolves mouse clicks and hovers.

The scene is modelled as the sequence of nodes in the order
`model.traverse` visits them. Index 0 is the model root, and every parent
comes before its children. A node is identified by its index and carries:

- its name and material name;
- an `isMesh` flag;
- a parent index;
- the geometry the engine computes, given as real numbers.

Part lists are sequences of node indices. Door swing targets are the
symbolic angles `Neg`, `Zero` and `Pos`, standing for −π/3, 0 and +π/3.

Modules:

- `Text`: ASCII lower-casing, substring search, and search for any word of a list.
- `Scene`: nodes, well-formed parent links and the ancestor chain.
- `Doors`: the door-state table, the per-door toggle and "toggle all doors".
- `Classifier`: the keyword lists and `categorizeParts`, modelled by
  `Classifier.Categorize` with its three passes: `KeywordPass`,
  `SpatialPass` and `BodyFallback`.
- `Scenarios`: concrete models showing what the classifier does and does
  not promise.
- `Lights`: the helper-object bookkeeping of `toggleFrontLights`, modelled by
  `Lights.ToggleFrontLights`.
- `Explode`: the distance formula and the mesh set of `prepareExplosion`.
- `Interactions`: click resolution, the door toggle with its label, part
  selection with its outline, and the hover throttle.
- `Collections`, `Wrappers`: a sequence filter and `Option`.

What the code does, as modelled, where a reader might expect otherwise:

- The part lists are not disjoint. The keyword pass uses independent
  `if`s, so one mesh can be a door, a wheel and a body part at once
  (`Scenarios.PartsMayOverlap`). Only front and rear lights exclude each
  other.
- The body fallback runs after the spatial door pass, although the comment
  at useCarModel.ts:230 speaks of removing a door "if it was added there
  by fallback". Removing a spatial door from the body list therefore only
  undoes a keyword body match, and the fallback can put a spatial door
  back into the body list (`Scenarios.SpatialDoorMayEndInBody`).
- The body fallback does not skip doors or lights. It takes every mesh
  that is not in the wheel list and has no window/glass/light/chrome/tire
  in its name.
- `doorState` is never cleared by the classifier. `Classifier.Categorize`
  therefore takes the earlier table as input and overwrites the entries of
  the new doors.
- Door-hint sprites are added to the scene root (useInteractions.ts:154),
  but the click ray is cast only against the car model (line 179). So, as
  written, the sprite branch of the click handler cannot be taken (see
  "## Findings"). The model keeps the branch and treats the first hit as
  an input.
- Part selection removes the previous outlines from the scene root, but
  each outline hangs under the selected part's parent, so none is removed
  (see "## Findings"). `Interactions.Click` takes the removal as a
  parameter: `FromSceneRoot` is the handler as written, and `FromParent`
  is the corrected one.
- Both door toggles read the door's side (`worldPos.x > carWorld.x`) at
  each call, and the car may turn between calls. The repeated-toggle
  lemmas take one side per toggle.

## Model

| member | source | states |
|---|---|---|
| `Text.ContainsJoin` | src/composables/useCarModel.ts:169-174 | a keyword without a blank occurs in `name + ' ' + material` exactly when it occurs in the name or in the material name, so the front/rear split searches both names separately |
| `Scene.Chain` | src/composables/useInteractions.ts:192-197 | the chain walked by `p = p.parent` starts at the hit, each step goes to the parent, and it ends at a node without a parent |
| `Classifier.KeywordListCorrect` | src/composables/useCarModel.ts:142-198 | each list of the keyword pass holds exactly the visited nodes that pass its test, in strictly increasing traversal order |
| `Classifier.KeywordPassCorrect` | src/composables/useCarModel.ts:142-198 | after the keyword pass, each list holds exactly the visited nodes that pass its test, in strictly increasing traversal order and so each once |
| `Classifier.SpatialPassCorrect` | src/composables/useCarModel.ts:201-235 | the spatial pass keeps wheels and lights, adds exactly the spatial candidates to the doors, and removes exactly them from the body list |
| `Classifier.RemoveFirstMembers` | src/composables/useCarModel.ts:231-232 | `indexOf` plus `splice` on a duplicate-free list removes that node and nothing else |
| `Classifier.CategorizeDoors` | src/composables/useCarModel.ts:135-232 | a node is a door iff its lower-cased name has a door keyword (mesh or not), or it is a mesh that the keyword pass put in none of the door, wheel or light lists and that passes all four spatial tests; every door is in the table as closed with target 0; other entries are unchanged |
| `Classifier.CategorizeLights` | src/composables/useCarModel.ts:150-184 | a node is a rear light iff it is a light mesh whose name or material name has a rear keyword; it is a front light iff it is a light mesh with no rear keyword, covering both front-keyword lights and lights that match no side |
| `Classifier.ExcludedNeverLight` | src/composables/useCarModel.ts:153-156 | a node whose name has disc/caliper/rotor/hub/logo/badge/emblem/text/plate is neither a front nor a rear light, whatever its material; no node is both |
| `Classifier.CategorizeWheels` | src/composables/useCarModel.ts:147-165 | the wheels are exactly the meshes with a wheel keyword in the name |
| `Classifier.SpatialDoorLeavesBody` | src/composables/useCarModel.ts:219-232 | after the spatial pass, the body list is exactly the keyword body meshes that did not become spatial doors |
| `Classifier.FallbackBody` | src/composables/useCarModel.ts:239-247 | the fallback traverse collects exactly the meshes outside the wheel list whose lower-cased name lacks window/glass/light/chrome/tire, each once, in traversal order |
| `Classifier.CategorizeBody` | src/composables/useCarModel.ts:237-248 | if some keyword body mesh survives the spatial pass, the body list is exactly those meshes; otherwise it is exactly the meshes outside the wheel list whose name lacks window/glass/light/chrome/tire |
| `Scenarios.PartsMayOverlap` | src/composables/useCarModel.ts:158-165 | a mesh named "Door_Wheel" is both a door and a wheel |
| `Scenarios.SpatialDoorMayEndInBody` | src/composables/useCarModel.ts:224-248 | an unnamed mesh in the door position is a door, is absent from the body list after the spatial pass, and is in the final body list |
| `Scenarios.FrontDoorSwingsOut` | src/composables/useCarModel.ts:492-508 | "FrontDoor_L", left of the car's centre, is classified as a door, and toggling all doors gives it open with target +π/3 |
| `Scenarios.TailLightIsRear` | src/composables/useCarModel.ts:172-177 | "RearLight_Tail" is a rear light and not a front light |
| `Doors.RegisterDoors` | src/composables/useCarModel.ts:158-161 | every listed door is in the table as `{open: false, target: 0}`; every other key keeps its presence and value |
| `Doors.SetDoorsEffect` | src/composables/useCarModel.ts:494-507 | the forEach sets each listed door that has an entry to the given flag, with the matching side target, and leaves all other entries and keys alone |
| `Doors.ToggleDoors` | src/composables/useCarModel.ts:492-508 | `areDoorsOpen` is negated; each door with an entry gets `open == areDoorsOpen`; its target is 0 when closed, −π/3 when right of the car and +π/3 when left; unlisted entries are unchanged |
| `Doors.ToggleDoor` | src/composables/useInteractions.ts:238-248 | a door without an entry leaves the table unchanged; otherwise only that door changes: `open` flips, and the target is 0 if now closed, −π/3 if right of the car, +π/3 otherwise |
| `Doors.ToggleDoorTwice` | src/composables/useInteractions.ts:238-248 | two toggles, each reading the door's side afresh, restore `open` and keep the keys; a door that started closed is back at target 0, and one that started open swings out on the side read at the second toggle |
| `Doors.ToggleDoorRepeatedly` | src/composables/useInteractions.ts:238-248 | from the classified state, after a run of toggles that each read the door's side at that moment (the car may turn in between), the door is open iff the run has odd length; its target is then the swing of the side read last, and 0 for an even run; no other entry changes |
| `Lights.Cluster` | src/composables/useCarModel.ts:404-416 | a front-light mesh is in the left cluster iff its car-local X is positive, and in the right cluster otherwise |
| `Lights.CreateLightAt` | src/composables/useCarModel.ts:418-460 | an empty cluster creates nothing; a non-empty one creates three helpers of distinct kinds on its side, with fresh identities |
| `Lights.FrontLightHelpers` | src/composables/useCarModel.ts:364-465 | the switch flips; with the lights off, or with no model, `lightObjects` is empty; with them on it holds 3 helpers per non-empty side cluster, so at most 6; a side has helpers iff it has a front-light mesh |
| `Lights.FrontLightHelpersReplaced` | src/composables/useCarModel.ts:386-459 | every new helper is attached to the car; if all identities were issued, no helper from before the toggle is still attached and no new helper reuses an attached one |
| `Lights.ToggleKeepsConsistent` | src/composables/useCarModel.ts:386-465 | if the attached helpers are exactly `lightObjects` before a toggle, they are after it, and with the lights off nothing is attached |
| `Lights.OnOffLeavesNoHelpers` | src/composables/useCarModel.ts:364-465 | switching the front lights on and then off leaves no helper listed or attached |
| `Collections.Without` | src/composables/useCarModel.ts:386-393 | after removing a list of objects from a parent, the parent keeps exactly its other children |
| `Explode.ExplosionDistance` | src/composables/useCarModel.ts:324-325 | the travel distance is 53 when the maximum distance is 0, and lies in [53, 358] when 0 ≤ d ≤ maximum |
| `Explode.ExplosionDistanceMonotone` | src/composables/useCarModel.ts:324-325 | for a fixed maximum, the travel distance does not decrease as d grows |
| `Explode.MaxDistance` | src/composables/useCarModel.ts:271-287 | the running maximum starting at 0 is non-negative, bounds every distance, and is 0 or one of the distances |
| `Explode.CollectMeshes` | src/composables/useCarModel.ts:263-268 | the meshes to explode are exactly the mesh nodes other than the root, in traversal order |
| `Explode.Layout` | src/composables/useCarModel.ts:293-331 | each mesh gets one entry, in order: its travel distance is normalised by the shared maximum, it uses a sphere-lattice direction iff its distance is below 0.1, and its progress starts at 0 |
| `Explode.LayoutMonotone` | src/composables/useCarModel.ts:322-325 | among entries that share one maximum, a mesh farther from the centre travels at least as far |
| `Explode.PrepareExplosion` | src/composables/useCarModel.ts:251-332 | every non-root mesh gets exactly one entry, in traversal order; each travel distance is the formula applied to that mesh's own distance and the shared maximum, so it lies in [53, 358] and is 53 when the maximum is 0; the sphere-lattice flag and progress 0 are set; travel distance follows distance from the centre |
| `Interactions.ToggleDoorUi` | src/composables/useInteractions.ts:238-254 | a door without an entry changes nothing; otherwise the table is toggled for that door and the label shows the door with its new state; nothing else changes |
| `Interactions.NearestDoor` | src/composables/useInteractions.ts:192-197 | the result is a door on the hit's ancestor-or-self chain with no door below it on the chain, or none when no node on the chain is a door |
| `Interactions.FirstDoorFromParent` | src/composables/useInteractions.ts:194-196 | if the hit is not a door, the first door on its chain is the first door on its parent's chain |
| `Interactions.SelectPart` | src/composables/useInteractions.ts:256-300 | the hit becomes the selected part, the label is visible and shows the name or the unnamed placeholder, the door table is unchanged, and `highlightEdges` holds exactly one outline: the hit's; every outline `highlightEdges` listed before leaves the scene graph (unless it is the new outline, which it cannot be when every listed identity is below the counter); when every attached outline is listed, the graph holds exactly the new outline (`ClickRunSettled` shows this always holds from the initial state) |
| `Interactions.SelectPartAsWritten` | src/composables/useInteractions.ts:256-299 | the hit becomes the selected part, with the label visible and showing its name or the placeholder, and the door table unchanged; its single outline is listed and attached, and every outline already in the scene graph stays there |
| `Interactions.SecondSelectionLeavesOldOutline` | src/composables/useInteractions.ts:271-298 | selecting two parts in turn leaves two outlines in the graph as written, but only the current one when outlines are detached |
| `Interactions.Click` | src/composables/useInteractions.ts:167-209 | with `FromSceneRoot` the selection is `handlePartSelection` as written, with `FromParent` the corrected one. Nothing happens without a model, a camera or a hit. A sprite hit toggles only the door mapped from that hint, and nothing when none is mapped, with no selection. Otherwise the nearest door on the hit's chain is toggled. Only when the chain has no door and the hit is a mesh is the part selected |
| `Interactions.HintBranchUnreachable` | src/composables/useInteractions.ts:179-190 | when every hit is a node of the car model, as a ray cast against the model alone gives, no click takes the hint branch |
| `Interactions.HintClickTogglesDoor` | src/composables/useInteractions.ts:184-190 | a first hit on a hint sprite that is mapped to a door toggles that door, shows its label and leaves the selection alone |
| `Interactions.SelectionKeepsOneOutline` | src/composables/useInteractions.ts:204-207 | a click that selects a part leaves exactly one outline listed (the part's), the part selected with its label visible, and the door table unchanged; as written, every outline already in the scene graph stays there; with old outlines detached and every attached outline listed, the graph holds only the listed outline |
| `Interactions.ClickKeepsSettled` | src/composables/useInteractions.ts:271-298 | with old outlines detached, a click keeps the scene graph equal to the listed outlines, at most one listed and every identity below the counter; a selecting click leaves exactly the part's new outline in the graph |
| `Interactions.ClickRunSettled` | src/composables/useInteractions.ts:204-207 | from the initial state (or any settled one), after any run of clicks with old outlines detached, every outline in the scene graph is listed in `highlightEdges`, the two are equal, and at most one outline is listed |
| `Interactions.Hover` | src/composables/useInteractions.ts:211-232 | an event less than 50 ms after the last processed one changes nothing. Otherwise `lastHoverTime` becomes now. With a camera, the cursor is the hand cursor iff a model is loaded and the ray hits it. Without a camera, the cursor is unchanged |
| `Interactions.HoverRunSpaced` | src/composables/useInteractions.ts:211-214 | over any run of events, processed events are at least 50 ms apart and at least 50 ms after the starting time; `lastHoverTime` ends at the last processed event |

## Left out

- Lower-casing maps only the ASCII capitals. JavaScript's `toLowerCase` also maps other cased letters; the keywords themselves are lower-case ASCII or Chinese.
- Geometry is given as exact reals: bounding-box centres and sizes, world positions, car-local X of lights, and distances from the model centre. Floating-point rounding and NaN are not modelled.
- Explode.PrepareExplosion: states each mesh's travel distance and where its direction comes from, not its target position. Directions, normalisation, `localToWorld` and the Fibonacci-sphere point are float vector maths.
- Lights.FrontLightHelpers: states which helpers exist and where they are attached, not where they are placed. Placement at the cluster average and the spotlight target offset are float maths.
- The emissive colour changes of `toggleFrontLights` and `toggleRearLights`, `changeCarColor` and `setMaterialType` only set material properties.
- `toggleExplode` only flips a flag. The damped animation that reads it lives in useAnimations.ts, which is not part of this model.
- `loadModel` and `setupModel`: asset loading through a foreign loader, and float bounding-box scaling and centring.
- Ray casting: the click's and the hover's hits are inputs, and the camera is an optional identity.
- `createInfoLabel`, `createDoorHint`, `updateHtmlLabelPosition`: canvas drawing, sprites and screen projection. The model keeps only which node the label shows, and whether it shows a door and the door's state.
- `initInteractions` and the unmount hook register and remove DOM listeners. `setCurrentCamera` is engine wiring.
- The hover handler also writes the mouse vector it shares with the click handler; that vector only feeds the ray cast.
- Nodes are identified by traversal index rather than object identity. The door table and part lists are therefore keyed by index.

## Findings

| source | as written | input that shows it | evidently intended | confidence | as-written member | corrected member |
|---|---|---|---|---|---|---|
| src/composables/useInteractions.ts:271-298 | old outlines are removed with `editor.scene.remove(edge)`, but each outline was added under the hit's parent (lines 294-295), and `remove` only detaches direct children of the scene root | select one part, then another | each popped outline is detached from its own parent, so only the current outline stays in the scene | medium, not executed | `Interactions.SelectPartAsWritten` | `Interactions.SelectPart` |
| src/composables/useInteractions.ts:154-190 | door-hint sprites are added to the scene root (line 154), but the click ray is cast only against the car model (line 179), so the sprite branch at lines 184-190 never runs | click a door hint | the ray also reaches the hint sprites, so clicking a hint toggles its door | medium, not executed | `Interactions.HintBranchUnreachable` | `Interactions.HintClickTogglesDoor` |
