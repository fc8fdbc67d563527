/** Concrete models that show what the classifier does and does not
    promise. */
module Scenarios {
  import opened Wrappers
  import opened Text
  import opened Scene
  import opened Doors
  import opened Classifier

  const Origin := Vec3(0.0, 0.0, 0.0)
  const UnitCar := Vec3(2.0, 1.5, 4.0)

  /** The keyword tests are independent: a mesh called "Door_Wheel" is
      both a door and a wheel, so the part lists are not a partition. */
  lemma PartsMayOverlap()
    ensures var scene := [Node("Door_Wheel", "", true, None, 0.0, Origin, Origin)];
            var c := Categorize(scene, UnitCar, map[]);
            0 in c.parts.doors && 0 in c.parts.wheels
  {
    var scene := [Node("Door_Wheel", "", true, None, 0.0, Origin, Origin)];
    var n := LowerName(scene[0]);
    assert n == "door_wheel";
    assert OccursAt(n, "door", 0);
    assert OccursAt(n, "wheel", 5);
    assert "door" in DoorKeywords && "wheel" in WheelKeywords;
    CategorizeDoors(scene, UnitCar, map[]);
    CategorizeWheels(scene, UnitCar, map[]);
  }

  const Unnamed := Node("", "", false, None, 0.0, Origin, Origin)
  const SidePanel := Node("", "", true, Some(0), 0.8, Vec3(0.8, 0.75, 0.0), Vec3(0.2, 1.0, 1.0))
  const PanelScene := [Unnamed, SidePanel]

  lemma PanelFacts()
    ensures !IsKeywordBody(PanelScene[0]) && !IsKeywordBody(PanelScene[1])
    ensures IsDoorBySpace(PanelScene, UnitCar, 1)
    ensures !IsKeywordWheel(SidePanel) && !ContainsAny(LowerName(SidePanel), FallbackExcludedKeywords)
  {
    assert LowerName(Unnamed) == "" && LowerName(SidePanel) == "" && LowerMaterial(SidePanel) == "";
  }

  /** The body fallback runs after the spatial pass, so a door found by
      position can land in the body list: an unnamed mesh at door height
      on the side of the car is both a door and a body part. */
  lemma SpatialDoorMayEndInBody()
    ensures var c := Categorize(PanelScene, UnitCar, map[]);
            1 in c.parts.doors && 1 in c.parts.body && 1 !in AfterSpatial(PanelScene, UnitCar).body
  {
    PanelFacts();
    CategorizeDoors(PanelScene, UnitCar, map[]);
    CategorizeBody(PanelScene, UnitCar, map[]);
    SpatialDoorLeavesBody(PanelScene, UnitCar);
  }

  const ScenarioCar := Node("Car", "", false, None, 0.0, Origin, Origin)
  const FrontDoorL := Node("FrontDoor_L", "", true, Some(0), -0.6, Vec3(-0.6, 0.7, 0.3), Origin)
  const RearLightTail := Node("RearLight_Tail", "", true, Some(0), 0.0, Vec3(0.5, 0.8, -1.9), Origin)
  const Scenario := [ScenarioCar, FrontDoorL, RearLightTail]

  lemma FrontDoorIsNamed()
    ensures IsNamedDoor(FrontDoorL)
  {
    var door := LowerName(FrontDoorL);
    assert door == "frontdoor_l";
    assert OccursAt(door, "door", 5) && "door" in DoorKeywords;
  }

  lemma TailLowerName()
    ensures LowerName(RearLightTail) == "rearlight_tail"
  {
  }

  lemma TailNotExcluded()
    ensures !ContainsAny("rearlight_tail", ExcludedKeywords)
  {
    var tail := "rearlight_tail";
    OccurringKeywordChars(tail, "disc", 0);
    OccurringKeywordChars(tail, "caliper", 0);
    OccurringKeywordChars(tail, "rotor", 1);
    OccurringKeywordChars(tail, "hub", 1);
    OccurringKeywordChars(tail, "logo", 1);
    OccurringKeywordChars(tail, "badge", 0);
    OccurringKeywordChars(tail, "emblem", 1);
    OccurringKeywordChars(tail, "text", 2);
    OccurringKeywordChars(tail, "plate", 0);
  }

  lemma TailIsRearLightByName()
    ensures IsLightName(LowerName(RearLightTail), LowerMaterial(RearLightTail))
    ensures ContainsAny(LowerName(RearLightTail), RearKeywords)
  {
    TailLowerName();
    TailNotExcluded();
    var tail := "rearlight_tail";
    assert OccursAt(tail, "light", 4) && "light" in LightKeywords;
    assert OccursAt(tail, "rear", 0) && "rear" in RearKeywords;
  }

  /** A mesh named "FrontDoor_L" left of the car's centre is a door, and
      "toggle all doors" swings it to +π/3. */
  lemma FrontDoorSwingsOut()
    ensures var c := Categorize(Scenario, UnitCar, map[]);
            && 1 in c.parts.doors
            && DoorsInScene(c.parts.doors, Scenario)
            && ToggleDoors(DoorBoard(false, c.doorState), c.parts.doors, Scenario, 0.0).doorState[1] == DoorState(true, Pos)
  {
    FrontDoorIsNamed();
    CategorizeDoors(Scenario, UnitCar, map[]);
    var c := Categorize(Scenario, UnitCar, map[]);
    assert 1 in c.parts.doors && c.doorState[1] == Closed;
    assert !IsRightOfCar(Scenario[1], 0.0);
  }

  /** A mesh named "RearLight_Tail" is a rear light and not a front light. */
  lemma TailLightIsRear()
    ensures var c := Categorize(Scenario, UnitCar, map[]);
            2 in c.parts.rearLights && 2 !in c.parts.frontLights
  {
    TailIsRearLightByName();
    CategorizeLights(Scenario, UnitCar, map[]);
  }
}
