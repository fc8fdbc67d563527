/** Door state shared by the classifier, the "toggle all doors" button and
    the per-door click toggle (`doorState` in useCarModel.ts). */
module Doors {
  import opened Scene

  /** The swing target: −π/3, 0 or +π/3 about the door's hinge. */
  datatype Angle = Neg | Zero | Pos

  datatype DoorState = DoorState(open: bool, target: Angle)

  /** The state every door gets when it is classified. */
  const Closed := DoorState(false, Zero)

  /** A door is right of the car when its world X exceeds the car's. */
  predicate IsRightOfCar(door: Node, carX: real)
  {
    door.originX > carX
  }

  /** `st.open ? (isRight ? -swing : swing) : 0`. */
  function SwingTarget(open: bool, isRight: bool): Angle
  {
    if !open then Zero else if isRight then Neg else Pos
  }

  /** Records every door in `doors` as closed (the `doorState.set` calls of
      the classifier); entries of other nodes are kept. */
  function RegisterDoors(st: map<nat, DoorState>, doors: seq<nat>): (r: map<nat, DoorState>)
    ensures forall d | d in doors :: d in r && r[d] == Closed
    ensures forall k | k !in doors :: (k in r <==> k in st) && (k in st ==> r[k] == st[k])
    decreases |doors|
  {
    if |doors| == 0 then st
    else RegisterDoors(st[doors[0] := Closed], doors[1..])
  }

  /** The per-door toggle: a door without an entry is left alone; otherwise
      its `open` flag flips and its target follows the new flag and the
      door's side. */
  function ToggleDoor(st: map<nat, DoorState>, door: nat, isRight: bool): (r: map<nat, DoorState>)
    ensures door !in st ==> r == st
    ensures r.Keys == st.Keys
    ensures forall k | k in st && k != door :: r[k] == st[k]
    ensures door in st ==> r[door].open == !st[door].open
    ensures door in st && !r[door].open ==> r[door].target == Zero
    ensures door in st && r[door].open && isRight ==> r[door].target == Neg
    ensures door in st && r[door].open && !isRight ==> r[door].target == Pos
  {
    if door in st then
      var open := !st[door].open;
      st[door := DoorState(open, SwingTarget(open, isRight))]
    else st
  }

  /** Toggling a door twice restores its `open` flag. A door that started
      closed is back at target zero; one that started open swings out
      again on the side read at the second toggle, which need not be the
      side read at the first (the car may have turned in between). */
  lemma ToggleDoorTwice(st: map<nat, DoorState>, door: nat, firstRight: bool, secondRight: bool)
    ensures var r := ToggleDoor(ToggleDoor(st, door, firstRight), door, secondRight);
            && r.Keys == st.Keys
            && (door in st ==> r[door].open == st[door].open)
            && (door in st && !st[door].open ==> r[door].target == Zero)
            && (door in st && st[door].open ==> r[door].target == SwingTarget(true, secondRight))
  {
  }

  /** Toggles a door once per entry of `sides`, each toggle with the side
      read at that moment. */
  function ToggleDoorN(st: map<nat, DoorState>, door: nat, sides: seq<bool>): map<nat, DoorState>
    decreases |sides|
  {
    if |sides| == 0 then st
    else ToggleDoor(ToggleDoorN(st, door, sides[..|sides| - 1]), door, sides[|sides| - 1])
  }

  /** Toggling a door repeatedly from its classified state: it is open
      exactly after an odd number of toggles, and then swings away from the
      side read at the last toggle (Neg on the right, Pos on the left);
      after an even number it is closed at target zero, whatever sides
      were read. No other entry changes. */
  lemma {:induction false} ToggleDoorRepeatedly(st: map<nat, DoorState>, door: nat, sides: seq<bool>)
    requires door in st && st[door] == Closed
    ensures var r := ToggleDoorN(st, door, sides);
            && r.Keys == st.Keys
            && (forall k | k in st && k != door :: r[k] == st[k])
            && r[door].open == (|sides| % 2 == 1)
            && r[door].target == (if |sides| % 2 == 1 then SwingTarget(true, sides[|sides| - 1]) else Zero)
    decreases |sides|
  {
    if |sides| > 0 {
      ToggleDoorRepeatedly(st, door, sides[..|sides| - 1]);
    }
  }

  /** Every listed door is a node of the scene. */
  predicate DoorsInScene(doors: seq<nat>, scene: seq<Node>)
  {
    forall j | 0 <= j < |doors| :: doors[j] < |scene|
  }

  /** The forEach of `toggleDoors`: every listed door that has an entry is
      set to `open` with the matching target. */
  function SetDoors(st: map<nat, DoorState>, doors: seq<nat>, open: bool, scene: seq<Node>, carX: real): map<nat, DoorState>
    requires DoorsInScene(doors, scene)
    decreases |doors|
  {
    if |doors| == 0 then st
    else
      var d := doors[0];
      var st' := if d in st then st[d := DoorState(open, SwingTarget(open, IsRightOfCar(scene[d], carX)))] else st;
      SetDoors(st', doors[1..], open, scene, carX)
  }

  lemma {:induction false} SetDoorsEffect(st: map<nat, DoorState>, doors: seq<nat>, open: bool, scene: seq<Node>, carX: real)
    requires DoorsInScene(doors, scene)
    ensures var r := SetDoors(st, doors, open, scene, carX);
            && r.Keys == st.Keys
            && (forall k | k in st && k in doors :: r[k] == DoorState(open, SwingTarget(open, IsRightOfCar(scene[k], carX))))
            && (forall k | k in st && k !in doors :: r[k] == st[k])
  {
    if |doors| > 0 {
      var d := doors[0];
      var st' := if d in st then st[d := DoorState(open, SwingTarget(open, IsRightOfCar(scene[d], carX)))] else st;
      SetDoorsEffect(st', doors[1..], open, scene, carX);
      forall k | k in st && k in doors
        ensures k == d || k in doors[1..]
      {
        var j :| 0 <= j < |doors| && doors[j] == k;
        if j > 0 { assert doors[1..][j - 1] == k; }
      }
    }
  }

  /** The "all doors" flag together with the per-door table. */
  datatype DoorBoard = DoorBoard(areDoorsOpen: bool, doorState: map<nat, DoorState>)

  /** `toggleDoors`: flips the global flag and gives every listed door that
      has an entry the new flag, swinging right-hand doors to Neg and
      left-hand doors to Pos; nothing else changes. */
  function ToggleDoors(b: DoorBoard, doors: seq<nat>, scene: seq<Node>, carX: real): (r: DoorBoard)
    requires DoorsInScene(doors, scene)
    ensures r.areDoorsOpen == !b.areDoorsOpen
    ensures r.doorState.Keys == b.doorState.Keys
    ensures forall d | d in doors && d in b.doorState :: r.doorState[d].open == r.areDoorsOpen
    ensures forall d | d in doors && d in b.doorState && !r.areDoorsOpen :: r.doorState[d].target == Zero
    ensures forall d | d in doors && d in b.doorState && r.areDoorsOpen && IsRightOfCar(scene[d], carX) ::
              r.doorState[d].target == Neg
    ensures forall d | d in doors && d in b.doorState && r.areDoorsOpen && !IsRightOfCar(scene[d], carX) ::
              r.doorState[d].target == Pos
    ensures forall k | k in b.doorState && k !in doors :: r.doorState[k] == b.doorState[k]
  {
    var open := !b.areDoorsOpen;
    SetDoorsEffect(b.doorState, doors, open, scene, carX);
    DoorBoard(open, SetDoors(b.doorState, doors, open, scene, carX))
  }

}
