/** The decision logic of useInteractions.ts: the click handler's
    resolution order (hint sprite, then the nearest door on the ancestor
    chain, then mesh selection), the per-door toggle, part selection with
    its single highlight outline, and the hover throttle. Ray casting,
    label drawing and screen projection are not part of this model: the
    ray's hits and the camera are inputs. */
module Interactions {
  import opened Wrappers
  import opened Collections
  import opened Scene
  import opened Doors

  const HoverThrottleMs: real := 50.0
  /** The label text of a part without a name. */
  const UnnamedPart: string := "未命名部件"

  datatype Cursor = DefaultCursor | PointerCursor

  /** The info-label sprite: the node it describes, whether it shows a
      door, and the door state it shows. */
  datatype InfoLabel = InfoLabel(node: nat, isDoor: bool, isOpen: bool)

  /** A highlight outline of a part; `id` stands for its object identity. */
  datatype Outline = Outline(id: nat, node: nat)

  datatype Ui = Ui(
    doorState: map<nat, DoorState>,
    selected: Option<nat>,
    labelVisible: bool,
    labelText: string,
    /** `highlightEdges`. */
    highlightEdges: seq<Outline>,
    /** The outlines attached somewhere in the scene graph. */
    outlinesInScene: seq<Outline>,
    nextOutline: nat,
    infoLabel: Option<InfoLabel>,
    currentCamera: Option<nat>)

  /** The first object the ray hits: a door-hint sprite or a node. */
  datatype Hit = SpriteHit(sprite: nat) | NodeHit(node: nat)

  datatype ClickInput = ClickInput(
    hasModel: bool,
    editorCamera: Option<nat>,
    hits: seq<Hit>,
    doorFromHint: map<nat, nat>,
    doors: seq<nat>,
    scene: seq<Node>,
    carX: real)

  /** Every reference in the input names a node of the scene. */
  predicate ValidInput(c: ClickInput)
  {
    && WellFormed(c.scene)
    && DoorsInScene(c.doors, c.scene)
    && (forall s | s in c.doorFromHint :: c.doorFromHint[s] < |c.scene|)
    && (forall j | 0 <= j < |c.hits| :: c.hits[j].NodeHit? ==> c.hits[j].node < |c.scene|)
  }

  // ---------------------------------------------------------------------
  // Door toggle

  /** `toggleDoor`: flips the door through `Doors.ToggleDoor` and shows
      its label with the new state; a door without an entry is ignored. */
  function ToggleDoorUi(ui: Ui, door: nat, scene: seq<Node>, carX: real): (r: Ui)
    requires door < |scene|
    ensures door !in ui.doorState ==> r == ui
    ensures door in ui.doorState ==>
              && r == ui.(doorState := r.doorState, infoLabel := r.infoLabel)
              && r.doorState == ToggleDoor(ui.doorState, door, IsRightOfCar(scene[door], carX))
              && r.infoLabel == Some(InfoLabel(door, true, !ui.doorState[door].open))
  {
    if door in ui.doorState then
      var st := ToggleDoor(ui.doorState, door, IsRightOfCar(scene[door], carX));
      ui.(doorState := st, infoLabel := Some(InfoLabel(door, true, st[door].open)))
    else ui
  }

  // ---------------------------------------------------------------------
  // Nearest door on the ancestor chain

  /** The `while (p && !doorHit)` walk: the first node on the chain from
      the hit upwards that is a door. */
  function NearestDoor(scene: seq<Node>, doors: seq<nat>, i: nat): (r: Option<nat>)
    requires WellFormed(scene)
    requires i < |scene|
    ensures r.Some? ==>
              && r.value in doors
              && exists k | 0 <= k < |Chain(scene, i)| ::
                   && Chain(scene, i)[k] == r.value
                   && forall j | 0 <= j < k :: Chain(scene, i)[j] !in doors
    ensures r.None? ==> forall j | 0 <= j < |Chain(scene, i)| :: Chain(scene, i)[j] !in doors
    decreases i
  {
    if i in doors then
      assert Chain(scene, i)[0] == i;
      Some(i)
    else
      match scene[i].parent
      case None => None
      case Some(p) =>
        var r := NearestDoor(scene, doors, p);
        FirstDoorFromParent(scene, doors, i, p, r);
        r
  }

  /** A door first found on the parent's chain is the first on the
      child's chain when the child itself is not a door. */
  lemma FirstDoorFromParent(scene: seq<Node>, doors: seq<nat>, i: nat, p: nat, r: Option<nat>)
    requires WellFormed(scene) && i < |scene| && scene[i].parent == Some(p) && i !in doors
    requires r.Some? ==>
               exists k | 0 <= k < |Chain(scene, p)| ::
                 && Chain(scene, p)[k] == r.value
                 && forall j | 0 <= j < k :: Chain(scene, p)[j] !in doors
    requires r.None? ==> forall j | 0 <= j < |Chain(scene, p)| :: Chain(scene, p)[j] !in doors
    ensures r.Some? ==>
              exists k | 0 <= k < |Chain(scene, i)| ::
                && Chain(scene, i)[k] == r.value
                && forall j | 0 <= j < k :: Chain(scene, i)[j] !in doors
    ensures r.None? ==> forall j | 0 <= j < |Chain(scene, i)| :: Chain(scene, i)[j] !in doors
  {
    assert Chain(scene, i) == [i] + Chain(scene, p);
    FirstAfterNonMember(Chain(scene, p), i, doors, r);
  }

  /** Putting a non-door in front of a sequence keeps its first door. */
  lemma FirstAfterNonMember(cp: seq<nat>, i: nat, doors: seq<nat>, r: Option<nat>)
    requires i !in doors
    requires r.Some? ==>
               exists k | 0 <= k < |cp| :: cp[k] == r.value && forall j | 0 <= j < k :: cp[j] !in doors
    requires r.None? ==> forall j | 0 <= j < |cp| :: cp[j] !in doors
    ensures var c := [i] + cp;
            && (r.Some? ==>
                  exists k | 0 <= k < |c| :: c[k] == r.value && forall j | 0 <= j < k :: c[j] !in doors)
            && (r.None? ==> forall j | 0 <= j < |c| :: c[j] !in doors)
  {
    var c := [i] + cp;
    if r.Some? {
      var k :| 0 <= k < |cp| && cp[k] == r.value && forall j | 0 <= j < k :: cp[j] !in doors;
      assert c[k + 1] == r.value;
      assert forall j | 0 < j < k + 1 :: c[j] == cp[j - 1];
    } else {
      assert forall j | 0 < j < |c| :: c[j] == cp[j - 1];
    }
  }

  // ---------------------------------------------------------------------
  // Part selection

  function LabelText(node: Node): string
  {
    if |node.name| > 0 then node.name else UnnamedPart
  }

  /** Every outline in the scene graph is one `highlightEdges` lists. */
  predicate OutlinesTracked(ui: Ui)
  {
    forall o | o in ui.outlinesInScene :: o in ui.highlightEdges
  }

  /** `handlePartSelection` with every popped outline detached from the
      node it hangs under: the part becomes the selection with a visible
      label, and exactly one outline, the new one, is listed and attached. */
  function SelectPart(ui: Ui, hit: nat, scene: seq<Node>, camera: nat): (r: Ui)
    requires hit < |scene|
    ensures r.selected == Some(hit) && r.labelVisible
    ensures r.labelText == (if |scene[hit].name| > 0 then scene[hit].name else UnnamedPart)
    ensures |r.highlightEdges| == 1 && r.highlightEdges[0].node == hit
    ensures forall o | o in ui.highlightEdges :: o !in r.outlinesInScene || o == r.highlightEdges[0]
    ensures (forall o | o in ui.highlightEdges :: o.id < ui.nextOutline) ==>
              forall o | o in ui.highlightEdges :: o !in r.outlinesInScene
    ensures r.doorState == ui.doorState
    ensures r.infoLabel == Some(InfoLabel(hit, false, false))
    ensures r.currentCamera == if ui.currentCamera.Some? then ui.currentCamera else Some(camera)
    ensures OutlinesTracked(ui) ==> r.outlinesInScene == r.highlightEdges
  {
    var outline := Outline(ui.nextOutline, hit);
    var kept := Without(ui.outlinesInScene, ui.highlightEdges);
    NoMembersMeansEmpty(kept);
    Ui(ui.doorState, Some(hit), true, LabelText(scene[hit]),
       [outline], kept + [outline], ui.nextOutline + 1,
       Some(InfoLabel(hit, false, false)),
       if ui.currentCamera.Some? then ui.currentCamera else Some(camera))
  }

  /** `handlePartSelection` as written: the popped outlines are removed
      from the scene root, but each was attached to the hit node's parent,
      so the removal finds none of them and every earlier outline stays in
      the scene graph. */
  function SelectPartAsWritten(ui: Ui, hit: nat, scene: seq<Node>, camera: nat): (r: Ui)
    requires hit < |scene|
    ensures r.selected == Some(hit) && r.labelVisible
    ensures r.labelText == (if |scene[hit].name| > 0 then scene[hit].name else UnnamedPart)
    ensures |r.highlightEdges| == 1 && r.highlightEdges[0].node == hit
    ensures r.highlightEdges[0] in r.outlinesInScene
    ensures forall o | o in ui.outlinesInScene :: o in r.outlinesInScene
    ensures r.doorState == ui.doorState
    ensures r.infoLabel == Some(InfoLabel(hit, false, false))
    ensures r.currentCamera == if ui.currentCamera.Some? then ui.currentCamera else Some(camera)
  {
    var outline := Outline(ui.nextOutline, hit);
    Ui(ui.doorState, Some(hit), true, LabelText(scene[hit]),
       [outline], ui.outlinesInScene + [outline], ui.nextOutline + 1,
       Some(InfoLabel(hit, false, false)),
       if ui.currentCamera.Some? then ui.currentCamera else Some(camera))
  }

  /** The initial interaction state. */
  const InitialUi := Ui(map[], None, false, "", [], [], 0, None, None)

  /** Selecting one part and then another with the handler as written
      leaves the first part's outline in the scene graph although
      `highlightEdges` holds only the second; with the popped outlines
      detached from their parent, only the second remains. */
  lemma SecondSelectionLeavesOldOutline(scene: seq<Node>, camera: nat)
    requires |scene| >= 3
    ensures var w := SelectPartAsWritten(SelectPartAsWritten(InitialUi, 1, scene, camera), 2, scene, camera);
            && w.highlightEdges == [Outline(1, 2)]
            && w.outlinesInScene == [Outline(0, 1), Outline(1, 2)]
    ensures var f := SelectPart(SelectPart(InitialUi, 1, scene, camera), 2, scene, camera);
            && f.highlightEdges == [Outline(1, 2)]
            && f.outlinesInScene == [Outline(1, 2)]
  {
  }

  /** Where the popped outlines are removed from: the scene root, as
      `handlePartSelection` is written, or each outline's own parent, as
      intended. */
  datatype OutlineRemoval = FromSceneRoot | FromParent

  function Select(removal: OutlineRemoval, ui: Ui, hit: nat, scene: seq<Node>, camera: nat): Ui
    requires hit < |scene|
  {
    match removal
    case FromSceneRoot => SelectPartAsWritten(ui, hit, scene, camera)
    case FromParent => SelectPart(ui, hit, scene, camera)
  }

  // ---------------------------------------------------------------------
  // Click resolution

  /** How a click was resolved. */
  datatype ClickAction =
    | NoAction
    | HintToggle(hinted: Option<nat>)
    | DoorToggle(door: nat)
    | NotAMesh
    | Selection(part: nat)

  datatype ClickResult = ClickResult(action: ClickAction, ui: Ui)

  /** `currentCamera || editor.camera`. */
  function CameraOf(ui: Ui, c: ClickInput): Option<nat>
  {
    if ui.currentCamera.Some? then ui.currentCamera else c.editorCamera
  }

  /** A model, a camera and at least one hit: the click is looked at. */
  predicate Resolvable(ui: Ui, c: ClickInput)
  {
    c.hasModel && CameraOf(ui, c).Some? && |c.hits| > 0
  }

  /** `clickHandler`; with `FromSceneRoot` it is the handler as written,
      with `FromParent` the one whose selection detaches old outlines. */
  function Click(ui: Ui, c: ClickInput, removal: OutlineRemoval): (r: ClickResult)
    requires ValidInput(c)
    ensures !Resolvable(ui, c) <==> r.action == NoAction
    ensures r.action == NoAction || r.action == NotAMesh ==> r.ui == ui
    ensures Resolvable(ui, c) && c.hits[0].SpriteHit? ==>
              var s := c.hits[0].sprite;
              && r.action == HintToggle(if s in c.doorFromHint then Some(c.doorFromHint[s]) else None)
              && (s !in c.doorFromHint ==> r.ui == ui)
              && (s in c.doorFromHint ==>
                    r.ui == ToggleDoorUi(ui, c.doorFromHint[s], c.scene, c.carX))
    ensures Resolvable(ui, c) && c.hits[0].NodeHit? ==>
              var h := c.hits[0].node;
              var chain := Chain(c.scene, h);
              && ((exists j | 0 <= j < |chain| :: chain[j] in c.doors) <==> r.action.DoorToggle?)
              && (r.action.DoorToggle? ==>
                    && r.action.door in c.doors
                    && (exists k | 0 <= k < |chain| ::
                          chain[k] == r.action.door && forall j | 0 <= j < k :: chain[j] !in c.doors)
                    && r.ui == ToggleDoorUi(ui, r.action.door, c.scene, c.carX))
              && (!r.action.DoorToggle? ==>
                    if c.scene[h].isMesh then r.action == Selection(h) else r.action == NotAMesh)
    ensures r.action.Selection? ==>
              && Resolvable(ui, c)
              && c.hits[0] == NodeHit(r.action.part)
              && r.ui == Select(removal, ui, r.action.part, c.scene, CameraOf(ui, c).value)
  {
    if !c.hasModel then ClickResult(NoAction, ui)
    else
      var camera := CameraOf(ui, c);
      if camera.None? || |c.hits| == 0 then ClickResult(NoAction, ui)
      else
        match c.hits[0]
        case SpriteHit(s) =>
          if s in c.doorFromHint then
            ClickResult(HintToggle(Some(c.doorFromHint[s])), ToggleDoorUi(ui, c.doorFromHint[s], c.scene, c.carX))
          else ClickResult(HintToggle(None), ui)
        case NodeHit(h) =>
          match NearestDoor(c.scene, c.doors, h)
          case Some(d) =>
            var chain := Chain(c.scene, h);
            assert exists k | 0 <= k < |chain| :: chain[k] == d && d in c.doors;
            ClickResult(DoorToggle(d), ToggleDoorUi(ui, d, c.scene, c.carX))
          case None =>
            if !c.scene[h].isMesh then ClickResult(NotAMesh, ui)
            else ClickResult(Selection(h), Select(removal, ui, h, c.scene, camera.value))
  }

  /** Every hit is a node of the car model: the ray is cast against the
      model only, and the hint sprites hang under the scene root. */
  predicate ModelOnlyHits(c: ClickInput)
  {
    forall j | 0 <= j < |c.hits| :: c.hits[j].NodeHit?
  }

  /** With the hits the handler as written can receive, no click reaches
      the hint branch: clicking a door hint never toggles its door. */
  lemma HintBranchUnreachable(ui: Ui, c: ClickInput, removal: OutlineRemoval)
    requires ValidInput(c) && ModelOnlyHits(c)
    ensures !Click(ui, c, removal).action.HintToggle?
  {
  }

  /** When the ray also reaches the hint sprites, clicking a mapped hint
      toggles its door and selects nothing. */
  lemma HintClickTogglesDoor(ui: Ui, c: ClickInput, removal: OutlineRemoval)
    requires ValidInput(c) && Resolvable(ui, c)
    requires c.hits[0].SpriteHit? && c.hits[0].sprite in c.doorFromHint
    ensures var r := Click(ui, c, removal);
            var door := c.doorFromHint[c.hits[0].sprite];
            && r.action == HintToggle(Some(door))
            && r.ui == ToggleDoorUi(ui, door, c.scene, c.carX)
            && r.ui.selected == ui.selected
  {
  }

  /** After a click that selects a part, exactly one outline is listed:
      the new part's; the door table is untouched and the label shows.
      As written, every outline already in the scene graph stays there;
      with old outlines detached, the graph holds exactly the listed one. */
  lemma SelectionKeepsOneOutline(ui: Ui, c: ClickInput, removal: OutlineRemoval)
    requires ValidInput(c)
    ensures var r := Click(ui, c, removal);
            r.action.Selection? ==>
              && |r.ui.highlightEdges| == 1
              && r.ui.highlightEdges[0].node == r.action.part
              && r.ui.selected == Some(r.action.part)
              && r.ui.labelVisible
              && r.ui.doorState == ui.doorState
              && (removal == FromSceneRoot ==> forall o | o in ui.outlinesInScene :: o in r.ui.outlinesInScene)
              && (removal == FromParent && OutlinesTracked(ui) ==> r.ui.outlinesInScene == r.ui.highlightEdges)
  {
  }

  /** The scene graph holds exactly the listed outlines, at most one is
      listed, and every outline's identity was issued before
      `nextOutline`. */
  predicate OutlinesSettled(ui: Ui)
  {
    && ui.outlinesInScene == ui.highlightEdges
    && |ui.highlightEdges| <= 1
    && forall o | o in ui.highlightEdges :: o.id < ui.nextOutline
  }

  /** A click with old outlines detached keeps the outlines settled, and a
      selecting click leaves exactly the new part's outline in the graph. */
  lemma ClickKeepsSettled(ui: Ui, c: ClickInput)
    requires ValidInput(c) && OutlinesSettled(ui)
    ensures var r := Click(ui, c, FromParent);
            && OutlinesSettled(r.ui)
            && (r.action.Selection? ==> r.ui.outlinesInScene == [Outline(ui.nextOutline, r.action.part)])
  {
  }

  /** A run of clicks, each handled with old outlines detached. */
  function ClickRun(ui: Ui, cs: seq<ClickInput>): Ui
    requires forall j | 0 <= j < |cs| :: ValidInput(cs[j])
    decreases |cs|
  {
    if |cs| == 0 then ui else ClickRun(Click(ui, cs[0], FromParent).ui, cs[1..])
  }

  /** From the initial state, after any run of clicks the scene graph
      holds exactly the listed outlines, and at most one. */
  lemma {:induction false} ClickRunSettled(ui: Ui, cs: seq<ClickInput>)
    requires forall j | 0 <= j < |cs| :: ValidInput(cs[j])
    requires ui == InitialUi || OutlinesSettled(ui)
    ensures OutlinesSettled(ClickRun(ui, cs))
    ensures OutlinesTracked(ClickRun(ui, cs))
    decreases |cs|
  {
    assert OutlinesSettled(ui);
    if |cs| > 0 {
      ClickKeepsSettled(ui, cs[0]);
      ClickRunSettled(Click(ui, cs[0], FromParent).ui, cs[1..]);
    }
  }

  // ---------------------------------------------------------------------
  // Hover throttle

  datatype HoverState = HoverState(lastHoverTime: real, cursor: Cursor)

  /** One mouse-move event at time `now` (ms). */
  datatype HoverEvent = HoverEvent(now: real, hasCamera: bool, hasModel: bool, hitCount: nat)

  predicate Throttled(s: HoverState, now: real)
  {
    now - s.lastHoverTime < HoverThrottleMs
  }

  /** `hoverHandler`: an event less than 50 ms after the last processed one
      changes nothing; otherwise the time is recorded and, when a camera
      is known, the cursor shows whether the ray hits the model. */
  function Hover(s: HoverState, e: HoverEvent): (r: HoverState)
    ensures e.now - s.lastHoverTime < HoverThrottleMs ==> r == s
    ensures e.now - s.lastHoverTime >= HoverThrottleMs ==>
              && r.lastHoverTime == e.now
              && (!e.hasCamera ==> r.cursor == s.cursor)
              && (e.hasCamera ==> (r.cursor == PointerCursor <==> e.hasModel && e.hitCount > 0))
  {
    if Throttled(s, e.now) then s
    else
      var s' := s.(lastHoverTime := e.now);
      if !e.hasCamera then s'
      else s'.(cursor := if e.hasModel && e.hitCount > 0 then PointerCursor else DefaultCursor)
  }

  /** A run of hover events: the final state and the times of the events
      that were processed. */
  function HoverRun(s: HoverState, es: seq<HoverEvent>): (HoverState, seq<real>)
    decreases |es|
  {
    if |es| == 0 then (s, [])
    else
      var s' := Hover(s, es[0]);
      var (last, times) := HoverRun(s', es[1..]);
      (last, if Throttled(s, es[0].now) then times else [es[0].now] + times)
  }

  /** The times are at least 50 ms after `start` and after each other. */
  predicate SpacedFrom(start: real, times: seq<real>)
  {
    && (|times| > 0 ==> times[0] - start >= HoverThrottleMs)
    && forall j | 0 < j < |times| :: times[j] - times[j - 1] >= HoverThrottleMs
  }

  /** Over any run of events, processed events are at least 50 ms apart
      (and at least 50 ms after the last one processed before the run),
      and `lastHoverTime` ends at the last processed event. */
  lemma {:induction false} HoverRunSpaced(s: HoverState, es: seq<HoverEvent>)
    ensures var (r, times) := HoverRun(s, es);
            && SpacedFrom(s.lastHoverTime, times)
            && r.lastHoverTime == (if |times| == 0 then s.lastHoverTime else times[|times| - 1])
    decreases |es|
  {
    if |es| > 0 {
      HoverRunSpaced(Hover(s, es[0]), es[1..]);
    }
  }
}
