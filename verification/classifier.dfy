/** `categorizeParts` (useCarModel.ts): sorts the nodes of a loaded model
    into door, wheel, front-light, rear-light and body lists in three
    passes over the traversal order: a keyword pass, a spatial pass that
    finds doors among still-unclassified meshes, and a body fallback that
    runs when no body mesh was found. The lists are NOT a partition: the
    keyword pass uses independent tests, so one node may be a door, a
    wheel and a body part at once. */
module Classifier {
  import opened Text
  import opened Scene
  import opened Doors

  const DoorKeywords: seq<string> := ["door", "车门", "520", "polysurface535"]
  const WheelKeywords: seq<string> := ["wheel", "tire", "rim", "轮胎", "车轮"]
  const BodyKeywords: seq<string> := ["body", "paint", "chassis", "车身"]
  const LightKeywords: seq<string> :=
    ["light", "lamp", "lantern", "led", "emit", "bulb", "灯", "head", "tail", "brake", "fog", "signal", "blinn12"]
  /** Brake discs, calipers, badges and the like: never lights, whatever their material says. */
  const ExcludedKeywords: seq<string> :=
    ["disc", "caliper", "rotor", "hub", "logo", "badge", "emblem", "text", "plate"]
  const RearKeywords: seq<string> := ["tail", "brake", "rear", "back", "stop", "尾", "后"]
  const FrontKeywords: seq<string> := ["head", "front", "led", "daytime", "running", "前", "大灯", "blinn12"]
  /** Names the body fallback leaves out. */
  const FallbackExcludedKeywords: seq<string> := ["window", "glass", "light", "chrome", "tire"]

  datatype Parts = Parts(
    doors: seq<nat>,
    wheels: seq<nat>,
    frontLights: seq<nat>,
    rearLights: seq<nat>,
    body: seq<nat>)

  const NoParts := Parts([], [], [], [], [])

  predicate NoDup(s: seq<nat>)
  {
    forall a, b | 0 <= a < b < |s| :: s[a] != s[b]
  }

  /** In strictly increasing traversal order (hence duplicate-free). */
  predicate Ascending(s: seq<nat>)
  {
    forall a, b | 0 <= a < b < |s| :: s[a] < s[b]
  }

  predicate Below(s: seq<nat>, n: nat)
  {
    forall x | x in s :: x < n
  }

  // ---------------------------------------------------------------------
  // Keyword pass

  function LowerName(node: Node): string
  {
    ToLower(node.name)
  }

  function LowerMaterial(node: Node): string
  {
    ToLower(node.materialName)
  }

  /** `n + ' ' + matName`, the text the front/rear split searches. */
  function FullName(node: Node): string
  {
    LowerName(node) + " " + LowerMaterial(node)
  }

  /** The name matches a door keyword; the node need not be a mesh. */
  predicate IsNamedDoor(node: Node)
  {
    ContainsAny(LowerName(node), DoorKeywords)
  }

  predicate IsKeywordWheel(node: Node)
  {
    node.isMesh && ContainsAny(LowerName(node), WheelKeywords)
  }

  /** The exclusion looks at the name only; the light keywords at the name
      and the material name. */
  predicate IsLightName(name: string, material: string)
  {
    !ContainsAny(name, ExcludedKeywords)
    && (ContainsAny(name, LightKeywords) || ContainsAny(material, LightKeywords))
  }

  predicate IsKeywordLight(node: Node)
  {
    node.isMesh && IsLightName(LowerName(node), LowerMaterial(node))
  }

  predicate IsKeywordBody(node: Node)
  {
    node.isMesh && ContainsAny(LowerName(node), BodyKeywords)
  }

  datatype LightSide = RearSide | FrontSide | Unresolved

  /** Rear keywords are tried first, then front keywords. */
  function LightSideOf(fullName: string): LightSide
  {
    if ContainsAny(fullName, RearKeywords) then RearSide
    else if ContainsAny(fullName, FrontKeywords) then FrontSide
    else Unresolved
  }

  /** A light mesh with a rear keyword in its name or material. */
  predicate IsKeywordRearLight(node: Node)
  {
    IsKeywordLight(node) && LightSideOf(FullName(node)) == RearSide
  }

  /** A light mesh without a rear keyword: front keywords and unresolved
      lights alike. */
  predicate IsKeywordFrontLight(node: Node)
  {
    IsKeywordLight(node) && LightSideOf(FullName(node)) != RearSide
  }

  /** The five lists the keyword pass builds. */
  datatype PartList = DoorList | WheelList | FrontLightList | RearLightList | BodyList

  function ListOf(p: Parts, kind: PartList): seq<nat>
  {
    match kind
    case DoorList => p.doors
    case WheelList => p.wheels
    case FrontLightList => p.frontLights
    case RearLightList => p.rearLights
    case BodyList => p.body
  }

  /** The outcome of the keyword pass's five tests on one node. */
  datatype Verdict = Verdict(door: bool, wheel: bool, frontLight: bool, rearLight: bool, body: bool)

  function Admits(v: Verdict, kind: PartList): bool
  {
    match kind
    case DoorList => v.door
    case WheelList => v.wheel
    case FrontLightList => v.frontLight
    case RearLightList => v.rearLight
    case BodyList => v.body
  }

  function VerdictOf(node: Node): Verdict
  {
    Verdict(IsNamedDoor(node), IsKeywordWheel(node), IsKeywordFrontLight(node),
            IsKeywordRearLight(node), IsKeywordBody(node))
  }

  /** The keyword test that admits a node to a list. */
  predicate Passes(kind: PartList, node: Node)
  {
    Admits(VerdictOf(node), kind)
  }

  function Verdicts(scene: seq<Node>): seq<Verdict>
  {
    seq(|scene|, i requires 0 <= i < |scene| => VerdictOf(scene[i]))
  }

  /** One visit of the keyword pass: the independent `if`s of the
      traversal callback. A light whose side is unresolved joins the front
      lights. */
  function KeywordStep(p: Parts, i: nat, v: Verdict): Parts
  {
    Parts(
      if v.door then p.doors + [i] else p.doors,
      if v.wheel then p.wheels + [i] else p.wheels,
      if v.frontLight then p.frontLights + [i] else p.frontLights,
      if v.rearLight then p.rearLights + [i] else p.rearLights,
      if v.body then p.body + [i] else p.body)
  }

  /** The keyword pass over the first `n` verdicts. */
  function KeywordPassOver(vs: seq<Verdict>, n: nat): Parts
    requires n <= |vs|
  {
    if n == 0 then NoParts else KeywordStep(KeywordPassOver(vs, n - 1), n - 1, vs[n - 1])
  }

  /** The keyword pass over the first `n` nodes. */
  function KeywordPass(scene: seq<Node>, n: nat): Parts
    requires n <= |scene|
  {
    KeywordPassOver(Verdicts(scene), n)
  }

  /** What the keyword pass has produced after `n` visits: each list holds
      exactly the visited nodes passing its test, once each, in traversal
      order. */
  predicate KeywordPassed(scene: seq<Node>, n: nat, p: Parts)
    requires n <= |scene|
  {
    && Below(p.doors, n) && NoDup(p.doors) && Ascending(p.doors)
    && Below(p.wheels, n) && NoDup(p.wheels) && Ascending(p.wheels)
    && Below(p.frontLights, n) && NoDup(p.frontLights) && Ascending(p.frontLights)
    && Below(p.rearLights, n) && NoDup(p.rearLights) && Ascending(p.rearLights)
    && Below(p.body, n) && NoDup(p.body) && Ascending(p.body)
    && (forall i | 0 <= i < n :: i in p.doors <==> IsNamedDoor(scene[i]))
    && (forall i | 0 <= i < n :: i in p.wheels <==> IsKeywordWheel(scene[i]))
    && (forall i | 0 <= i < n ::
          i in p.frontLights <==> IsKeywordFrontLight(scene[i]))
    && (forall i | 0 <= i < n ::
          i in p.rearLights <==> IsKeywordRearLight(scene[i]))
    && (forall i | 0 <= i < n :: i in p.body <==> IsKeywordBody(scene[i]))
  }

  /** One visit grows a list by the visited node or leaves it alone; the
      list stays duplicate-free, ordered and bounded by the visit count. */
  lemma Grow(s: seq<nat>, t: seq<nat>, i: nat, c: bool)
    requires Below(s, i) && NoDup(s)
    requires t == if c then s + [i] else s
    ensures Below(t, i + 1) && NoDup(t)
    ensures Ascending(s) ==> Ascending(t)
    ensures forall x :: x in t <==> x in s || (c && x == i)
  {
    if c {
      forall a, b | 0 <= a < b < |t|
        ensures t[a] != t[b]
      {
        if b == |s| {
          assert t[a] == s[a] && s[a] in s;
        }
      }
      if Ascending(s) {
        forall a, b | 0 <= a < b < |t|
          ensures t[a] < t[b]
        {
          if b == |s| {
            assert t[a] == s[a] && s[a] in s;
          }
        }
      }
    }
  }

  /** Appending a node not yet in a duplicate-free list keeps it so. */
  lemma AppendFresh(s: seq<nat>, i: nat, n: nat)
    requires Below(s, n) && NoDup(s) && i !in s && i < n
    ensures Below(s + [i], n) && NoDup(s + [i])
  {
    forall a, b | 0 <= a < b < |s + [i]|
      ensures (s + [i])[a] != (s + [i])[b]
    {
      if b == |s| {
        assert (s + [i])[a] == s[a] && s[a] in s;
      }
    }
  }

  /** The indices whose test holds, in increasing order. */
  function Picked(tests: seq<bool>): seq<nat>
    decreases |tests|
  {
    if |tests| == 0 then []
    else
      var s := Picked(tests[..|tests| - 1]);
      if tests[|tests| - 1] then s + [|tests| - 1] else s
  }

  /** `Picked` holds exactly the passing indices, once each and in order. */
  lemma {:induction false} PickedCorrect(tests: seq<bool>)
    ensures var s := Picked(tests);
            && Below(s, |tests|) && NoDup(s) && Ascending(s)
            && forall i | 0 <= i < |tests| :: i in s <==> tests[i]
    decreases |tests|
  {
    if |tests| > 0 {
      var n := |tests|;
      var init := tests[..n - 1];
      PickedCorrect(init);
      Grow(Picked(init), Picked(tests), n - 1, tests[n - 1]);
      assert forall i | 0 <= i < n - 1 :: init[i] == tests[i];
    }
  }

  /** The outcome of one list's test on each of the first `n` verdicts. */
  function TestResults(vs: seq<Verdict>, n: nat, kind: PartList): seq<bool>
    requires n <= |vs|
  {
    seq(n, i requires 0 <= i < n => Admits(vs[i], kind))
  }

  /** Each list of the keyword pass picks the nodes passing its test. */
  lemma {:induction false} KeywordList(vs: seq<Verdict>, n: nat, kind: PartList)
    requires n <= |vs|
    ensures ListOf(KeywordPassOver(vs, n), kind) == Picked(TestResults(vs, n, kind))
  {
    if n > 0 {
      KeywordList(vs, n - 1, kind);
      assert TestResults(vs, n, kind)[..n - 1] == TestResults(vs, n - 1, kind);
    }
  }

  /** One list after the keyword pass: the visited nodes passing its
      test, once each, in traversal order. */
  lemma KeywordListCorrect(scene: seq<Node>, n: nat, kind: PartList)
    requires n <= |scene|
    ensures var s := ListOf(KeywordPass(scene, n), kind);
            && Below(s, n) && NoDup(s) && Ascending(s)
            && forall i | 0 <= i < n :: i in s <==> Passes(kind, scene[i])
  {
    var vs := Verdicts(scene);
    KeywordList(vs, n, kind);
    PickedCorrect(TestResults(vs, n, kind));
  }

  lemma KeywordPassCorrect(scene: seq<Node>, n: nat)
    requires n <= |scene|
    ensures KeywordPassed(scene, n, KeywordPass(scene, n))
  {
    KeywordListCorrect(scene, n, DoorList);
    KeywordListCorrect(scene, n, WheelList);
    KeywordListCorrect(scene, n, FrontLightList);
    KeywordListCorrect(scene, n, RearLightList);
    KeywordListCorrect(scene, n, BodyList);
  }


  // ---------------------------------------------------------------------
  // Spatial door pass

  function Abs(x: real): real
  {
    if x < 0.0 then -x else x
  }

  /** The four spatial tests for a door: on the side, in the middle along
      the car, within the body's height band and not too small. */
  predicate IsSpatialDoor(node: Node, carSize: Vec3)
  {
    var c := node.boxCenter;
    var size := node.boxSize;
    && Abs(c.x) > carSize.x * 0.25
    && Abs(c.z) < carSize.z * 0.45
    && c.y > carSize.y * 0.1 && c.y < carSize.y * 0.9
    && (size.x > 0.1 || size.z > 0.3)
  }

  /** `isClassified`: membership of the body list does not count. */
  predicate IsClassified(p: Parts, i: nat)
  {
    i in p.doors || i in p.wheels || i in p.frontLights || i in p.rearLights
  }

  /** `indexOf` followed by `splice(idx, 1)`: drops the first occurrence. */
  function RemoveFirst(s: seq<nat>, x: nat): seq<nat>
  {
    if |s| == 0 then s
    else if s[0] == x then s[1..]
    else [s[0]] + RemoveFirst(s[1..], x)
  }

  /** In a duplicate-free list, dropping the first `x` drops every `x` and
      nothing else. */
  lemma {:induction false} RemoveFirstMembers(s: seq<nat>, x: nat)
    requires NoDup(s)
    ensures NoDup(RemoveFirst(s, x))
    ensures forall y :: y in RemoveFirst(s, x) <==> y in s && y != x
  {
    if |s| > 0 {
      var t := s[1..];
      assert NoDup(t) by {
        forall a, b | 0 <= a < b < |t| ensures t[a] != t[b] { assert t[a] == s[a + 1] && t[b] == s[b + 1]; }
      }
      assert forall y :: y in s <==> y == s[0] || y in t;
      assert s[0] !in t by {
        forall j | 0 <= j < |t| ensures t[j] != s[0] { assert t[j] == s[j + 1]; }
      }
      if s[0] != x {
        RemoveFirstMembers(t, x);
        var r := RemoveFirst(t, x);
        assert RemoveFirst(s, x) == [s[0]] + r;
        forall a, b | 0 <= a < b < |[s[0]] + r| ensures ([s[0]] + r)[a] != ([s[0]] + r)[b] {
          if a == 0 {
            assert ([s[0]] + r)[b] == r[b - 1] && r[b - 1] in r;
          }
        }
      }
    }
  }

  function SpatialStep(p: Parts, i: nat, node: Node, carSize: Vec3): Parts
  {
    if node.isMesh && !IsClassified(p, i) && IsSpatialDoor(node, carSize) then
      p.(doors := p.doors + [i], body := RemoveFirst(p.body, i))
    else p
  }

  /** The spatial pass over the first `n` nodes, starting from `p0`. */
  function SpatialPass(scene: seq<Node>, carSize: Vec3, p0: Parts, n: nat): Parts
    requires n <= |scene|
  {
    if n == 0 then p0 else SpatialStep(SpatialPass(scene, carSize, p0, n - 1), n - 1, scene[n - 1], carSize)
  }

  /** A mesh the spatial pass turns into a door, judged against the lists
      the keyword pass left. */
  predicate IsSpatialCandidate(scene: seq<Node>, carSize: Vec3, p0: Parts, i: nat)
    requires i < |scene|
  {
    scene[i].isMesh && !IsClassified(p0, i) && IsSpatialDoor(scene[i], carSize)
  }

  predicate SpatialPassed(scene: seq<Node>, carSize: Vec3, p0: Parts, n: nat, p: Parts)
    requires n <= |scene|
  {
    && p.wheels == p0.wheels && p.frontLights == p0.frontLights && p.rearLights == p0.rearLights
    && Below(p.doors, |scene|) && NoDup(p.doors)
    && Below(p.body, |scene|) && NoDup(p.body)
    && (forall i | 0 <= i < |scene| ::
          i in p.doors <==> i in p0.doors || (i < n && IsSpatialCandidate(scene, carSize, p0, i)))
    && (forall i | 0 <= i < |scene| ::
          i in p.body <==> i in p0.body && !(i < n && IsSpatialCandidate(scene, carSize, p0, i)))
  }

  lemma {:induction false} SpatialPassCorrect(scene: seq<Node>, carSize: Vec3, p0: Parts, n: nat)
    requires n <= |scene|
    requires Below(p0.doors, |scene|) && NoDup(p0.doors)
    requires Below(p0.body, |scene|) && NoDup(p0.body)
    ensures SpatialPassed(scene, carSize, p0, n, SpatialPass(scene, carSize, p0, n))
  {
    if n > 0 {
      var i := n - 1;
      SpatialPassCorrect(scene, carSize, p0, i);
      var p := SpatialPass(scene, carSize, p0, i);
      RemoveFirstMembers(p.body, i);
      assert IsClassified(p, i) <==> IsClassified(p0, i);
      if scene[i].isMesh && !IsClassified(p, i) && IsSpatialDoor(scene[i], carSize) {
        AppendFresh(p.doors, i, |scene|);
      }
    }
  }

  // ---------------------------------------------------------------------
  // Body fallback

  /** A mesh the fallback adds to the body: not a wheel, and no glass,
      lights, chrome or tyres by name. */
  predicate IsFallbackBody(node: Node, i: nat, wheels: seq<nat>)
  {
    node.isMesh && i !in wheels && !ContainsAny(LowerName(node), FallbackExcludedKeywords)
  }

  function FallbackBody(scene: seq<Node>, wheels: seq<nat>, n: nat): (r: seq<nat>)
    requires n <= |scene|
    ensures Below(r, n) && NoDup(r) && Ascending(r)
    ensures forall i | 0 <= i < n :: i in r <==> IsFallbackBody(scene[i], i, wheels)
  {
    if n == 0 then []
    else
      var r := FallbackBody(scene, wheels, n - 1);
      var c := IsFallbackBody(scene[n - 1], n - 1, wheels);
      var t := if c then r + [n - 1] else r;
      Grow(r, t, n - 1, c);
      t
  }

  /** Runs the fallback only when the body list is empty. */
  function BodyFallback(scene: seq<Node>, p: Parts): Parts
  {
    if |p.body| == 0 then p.(body := FallbackBody(scene, p.wheels, |scene|)) else p
  }

  // ---------------------------------------------------------------------
  // The whole classification

  datatype Classification = Classification(parts: Parts, doorState: map<nat, DoorState>)

  /** `categorizeParts`. The lists are rebuilt from scratch; `doorState` is
      not cleared by the source, so the earlier table is an input. */
  function Categorize(scene: seq<Node>, carSize: Vec3, doorState: map<nat, DoorState>): Classification
  {
    var p1 := KeywordPass(scene, |scene|);
    var p2 := SpatialPass(scene, carSize, p1, |scene|);
    var p3 := BodyFallback(scene, p2);
    Classification(p3, RegisterDoors(doorState, p3.doors))
  }

  /** The parts after the first two passes. */
  function AfterSpatial(scene: seq<Node>, carSize: Vec3): Parts
  {
    SpatialPass(scene, carSize, KeywordPass(scene, |scene|), |scene|)
  }

  lemma PassesCorrect(scene: seq<Node>, carSize: Vec3)
    ensures KeywordPassed(scene, |scene|, KeywordPass(scene, |scene|))
    ensures SpatialPassed(scene, carSize, KeywordPass(scene, |scene|), |scene|, AfterSpatial(scene, carSize))
  {
    KeywordPassCorrect(scene, |scene|);
    SpatialPassCorrect(scene, carSize, KeywordPass(scene, |scene|), |scene|);
  }

  // ---------------------------------------------------------------------
  // Properties of the classification

  /** A mesh that no keyword made a door, wheel or light and that passes
      the spatial tests. */
  predicate IsDoorBySpace(scene: seq<Node>, carSize: Vec3, i: nat)
    requires i < |scene|
  {
    var node := scene[i];
    && node.isMesh
    && !IsNamedDoor(node) && !IsKeywordWheel(node) && !IsKeywordLight(node)
    && IsSpatialDoor(node, carSize)
  }

  lemma SpatialCandidateIff(scene: seq<Node>, carSize: Vec3, i: nat)
    requires i < |scene|
    ensures IsSpatialCandidate(scene, carSize, KeywordPass(scene, |scene|), i) <==> IsDoorBySpace(scene, carSize, i)
  {
    KeywordPassCorrect(scene, |scene|);
  }

  /** The doors are the named doors (mesh or not) and the meshes the
      spatial pass picks; each once. Every door is registered closed and
      no other entry of the door table changes. */
  lemma CategorizeDoors(scene: seq<Node>, carSize: Vec3, doorState: map<nat, DoorState>)
    ensures var c := Categorize(scene, carSize, doorState);
            && NoDup(c.parts.doors)
            && DoorsInScene(c.parts.doors, scene)
            && (forall i | 0 <= i < |scene| ::
                  i in c.parts.doors <==> IsNamedDoor(scene[i]) || IsDoorBySpace(scene, carSize, i))
            && (forall i | i in c.parts.doors :: i < |scene| && i in c.doorState && c.doorState[i] == Closed)
            && (forall k | k !in c.parts.doors :: (k in c.doorState <==> k in doorState)
                                                 && (k in doorState ==> c.doorState[k] == doorState[k]))
  {
    PassesCorrect(scene, carSize);
    forall i | 0 <= i < |scene| {
      SpatialCandidateIff(scene, carSize, i);
    }
    var doors := Categorize(scene, carSize, doorState).parts.doors;
    assert forall j | 0 <= j < |doors| :: doors[j] in doors;
  }

  /** A light's list is decided by the rear keywords, searched in the
      name and the material name: rear when one occurs, front otherwise,
      including the light that matches no side keyword at all. */
  lemma CategorizeLights(scene: seq<Node>, carSize: Vec3, doorState: map<nat, DoorState>)
    ensures var c := Categorize(scene, carSize, doorState);
            && NoDup(c.parts.frontLights) && NoDup(c.parts.rearLights)
            && (forall i | i in c.parts.frontLights :: i < |scene|)
            && (forall i | i in c.parts.rearLights :: i < |scene|)
            && (forall i | 0 <= i < |scene| ::
                  i in c.parts.rearLights <==>
                    && scene[i].isMesh
                    && IsLightName(LowerName(scene[i]), LowerMaterial(scene[i]))
                    && (ContainsAny(LowerName(scene[i]), RearKeywords)
                        || ContainsAny(LowerMaterial(scene[i]), RearKeywords)))
            && (forall i | 0 <= i < |scene| ::
                  i in c.parts.frontLights <==>
                    && scene[i].isMesh
                    && IsLightName(LowerName(scene[i]), LowerMaterial(scene[i]))
                    && !ContainsAny(LowerName(scene[i]), RearKeywords)
                    && !ContainsAny(LowerMaterial(scene[i]), RearKeywords))
  {
    PassesCorrect(scene, carSize);
    RearKeywordsHaveNoBlank();
    forall i | 0 <= i < |scene|
      ensures ContainsAny(FullName(scene[i]), RearKeywords) <==>
                ContainsAny(LowerName(scene[i]), RearKeywords) || ContainsAny(LowerMaterial(scene[i]), RearKeywords)
    {
      ContainsAnyJoin(LowerName(scene[i]), LowerMaterial(scene[i]), RearKeywords);
    }
  }

  lemma RearKeywordsHaveNoBlank()
    ensures forall k | k in RearKeywords :: ' ' !in k
  {
  }

  /** A node whose name holds an excluded keyword is never a light, even
      when its material name holds a light keyword; and no node is both a
      front and a rear light. */
  lemma ExcludedNeverLight(scene: seq<Node>, carSize: Vec3, doorState: map<nat, DoorState>, i: nat)
    requires i < |scene|
    ensures var c := Categorize(scene, carSize, doorState);
            && (ContainsAny(LowerName(scene[i]), ExcludedKeywords) ==>
                  i !in c.parts.frontLights && i !in c.parts.rearLights)
            && !(i in c.parts.frontLights && i in c.parts.rearLights)
  {
    PassesCorrect(scene, carSize);
  }

  /** Wheels are exactly the meshes with a wheel keyword in their name. */
  lemma CategorizeWheels(scene: seq<Node>, carSize: Vec3, doorState: map<nat, DoorState>)
    ensures var c := Categorize(scene, carSize, doorState);
            && NoDup(c.parts.wheels)
            && forall i | 0 <= i < |scene| ::
                 i in c.parts.wheels <==> scene[i].isMesh && ContainsAny(LowerName(scene[i]), WheelKeywords)
  {
    PassesCorrect(scene, carSize);
  }

  /** A mesh the spatial pass makes a door is gone from the body list once
      that pass is over, and nothing else leaves it. */
  lemma SpatialDoorLeavesBody(scene: seq<Node>, carSize: Vec3)
    ensures forall i | 0 <= i < |scene| ::
              i in AfterSpatial(scene, carSize).body <==> IsKeywordBody(scene[i]) && !IsDoorBySpace(scene, carSize, i)
  {
    PassesCorrect(scene, carSize);
    forall i | 0 <= i < |scene| {
      SpatialCandidateIff(scene, carSize, i);
    }
  }

  /** The body list: the keyword body meshes the spatial pass left, or,
      when there are none, every mesh that is not a wheel and whose name
      holds none of window/glass/light/chrome/tire. */
  lemma CategorizeBody(scene: seq<Node>, carSize: Vec3, doorState: map<nat, DoorState>)
    ensures var c := Categorize(scene, carSize, doorState);
            var kept := exists j | 0 <= j < |scene| :: IsKeywordBody(scene[j]) && !IsDoorBySpace(scene, carSize, j);
            && NoDup(c.parts.body)
            && (forall i | i in c.parts.body :: i < |scene|)
            && (kept ==> forall i | 0 <= i < |scene| ::
                  i in c.parts.body <==> IsKeywordBody(scene[i]) && !IsDoorBySpace(scene, carSize, i))
            && (!kept ==> forall i | 0 <= i < |scene| ::
                  i in c.parts.body <==>
                    && scene[i].isMesh
                    && !IsKeywordWheel(scene[i])
                    && !ContainsAny(LowerName(scene[i]), FallbackExcludedKeywords))
  {
    PassesCorrect(scene, carSize);
    SpatialDoorLeavesBody(scene, carSize);
    var p2 := AfterSpatial(scene, carSize);
    var kept := exists j | 0 <= j < |scene| :: IsKeywordBody(scene[j]) && !IsDoorBySpace(scene, carSize, j);
    if kept {
      var j :| 0 <= j < |scene| && IsKeywordBody(scene[j]) && !IsDoorBySpace(scene, carSize, j);
      assert j in p2.body;
    }
    if |p2.body| > 0 {
      var x := p2.body[0];
      assert x in p2.body && x < |scene|;
    }
  }
}
