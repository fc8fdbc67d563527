/** The bookkeeping of `toggleFrontLights` (useCarModel.ts): the helper
    objects (a light beam, a spotlight and the spotlight's target) created
    for the left and right clusters of front-light meshes, kept in
    `lightObjects` and attached to the car model. Placement at the cluster
    average and the emissive colour are not part of this model. */
module Lights {
  import opened Collections

  datatype Side = Left | Right

  datatype HelperKind = Beam | Spot | SpotTarget

  /** A helper object; `id` stands for its object identity. */
  datatype Helper = Helper(id: nat, kind: HelperKind, side: Side)

  datatype FrontLightRig = FrontLightRig(
    on: bool,
    /** `lightObjects`. */
    lightObjects: seq<Helper>,
    /** The helper objects currently attached to the car model. */
    attached: seq<Helper>,
    /** The identity the next created helper gets. */
    nextId: nat)

  /** A light mesh whose car-local centre has positive X is on the left. */
  function SideOf(x: real): Side
  {
    if x > 0.0 then Left else Right
  }

  /** The front-light meshes of one side, in list order. */
  function Cluster(meshes: seq<nat>, localX: nat -> real, side: Side): (c: seq<nat>)
    ensures forall m :: m in c <==> m in meshes && SideOf(localX(m)) == side
  {
    if |meshes| == 0 then []
    else
      var rest := Cluster(meshes[1..], localX, side);
      assert forall m :: m in meshes <==> m == meshes[0] || m in meshes[1..];
      if SideOf(localX(meshes[0])) == side then [meshes[0]] + rest else rest
  }

  predicate HasCluster(meshes: seq<nat>, localX: nat -> real, side: Side)
  {
    exists m | m in meshes :: SideOf(localX(m)) == side
  }

  /** `createLightAt`: nothing for an empty cluster, else a beam, a
      spotlight and its target. */
  function CreateLightAt(cluster: seq<nat>, side: Side, id: nat): (r: seq<Helper>)
    ensures |cluster| == 0 ==> r == []
    ensures |cluster| > 0 ==> |r| == 3 && forall a, b | 0 <= a < b < |r| :: r[a].kind != r[b].kind
    ensures forall h | h in r :: h.side == side && id <= h.id < id + |r|
    ensures forall a, b | 0 <= a < b < |r| :: r[a].id != r[b].id
  {
    if |cluster| == 0 then []
    else [Helper(id, Beam, side), Helper(id + 1, Spot, side), Helper(id + 2, SpotTarget, side)]
  }

  /** Every helper known to the rig was created before `nextId`. */
  predicate IdsIssued(rig: FrontLightRig)
  {
    && (forall h | h in rig.lightObjects :: h.id < rig.nextId)
    && (forall h | h in rig.attached :: h.id < rig.nextId)
  }

  /** `toggleFrontLights`: flips the switch, detaches and forgets every
      previous helper, and, when the lights are now on and a model is
      loaded, creates the helpers of the left cluster, then the right. */
  function ToggleFrontLights(rig: FrontLightRig, frontLights: seq<nat>, localX: nat -> real, hasModel: bool): FrontLightRig
  {
    var on := !rig.on;
    var remaining := Without(rig.attached, rig.lightObjects);
    if on && hasModel then
      var l := CreateLightAt(Cluster(frontLights, localX, Left), Left, rig.nextId);
      var rt := CreateLightAt(Cluster(frontLights, localX, Right), Right, rig.nextId + |l|);
      FrontLightRig(on, l + rt, remaining + l + rt, rig.nextId + |l| + |rt|)
    else
      FrontLightRig(on, [], remaining, rig.nextId)
  }

  lemma ClusterNonEmpty(meshes: seq<nat>, localX: nat -> real, side: Side)
    ensures |Cluster(meshes, localX, side)| > 0 <==> HasCluster(meshes, localX, side)
  {
    var c := Cluster(meshes, localX, side);
    if |c| > 0 {
      assert c[0] in c;
    }
  }

  /** The switch flips; with the lights off (or no model) the list is
      empty; with them on it holds three helpers for each side that has a
      front-light mesh, so at most six, and a side has helpers exactly
      when it has a mesh. */
  lemma FrontLightHelpers(rig: FrontLightRig, frontLights: seq<nat>, localX: nat -> real, hasModel: bool)
    ensures var r := ToggleFrontLights(rig, frontLights, localX, hasModel);
            && r.on == !rig.on
            && (!(r.on && hasModel) ==> r.lightObjects == [])
            && (r.on && hasModel ==>
                  |r.lightObjects| == 3 * ((if HasCluster(frontLights, localX, Left) then 1 else 0)
                                         + (if HasCluster(frontLights, localX, Right) then 1 else 0)))
            && |r.lightObjects| <= 6
            && (forall side :: (exists h | h in r.lightObjects :: h.side == side) <==>
                  r.on && hasModel && HasCluster(frontLights, localX, side))
  {
    ClusterNonEmpty(frontLights, localX, Left);
    ClusterNonEmpty(frontLights, localX, Right);
    var r := ToggleFrontLights(rig, frontLights, localX, hasModel);
    if r.on && hasModel {
      var l := CreateLightAt(Cluster(frontLights, localX, Left), Left, rig.nextId);
      var rt := CreateLightAt(Cluster(frontLights, localX, Right), Right, rig.nextId + |l|);
      assert r.lightObjects == l + rt;
      assert |l| > 0 ==> l[0] in r.lightObjects;
      assert |rt| > 0 ==> rt[0] in r.lightObjects;
    }
  }

  /** Every previous helper is detached, every new one attached, and new
      helpers get identities no earlier helper had. */
  lemma FrontLightHelpersReplaced(rig: FrontLightRig, frontLights: seq<nat>, localX: nat -> real, hasModel: bool)
    ensures var r := ToggleFrontLights(rig, frontLights, localX, hasModel);
            && (forall h | h in r.lightObjects :: h in r.attached)
            && (IdsIssued(rig) ==>
                  && IdsIssued(r)
                  && (forall h | h in rig.lightObjects :: h !in r.attached)
                  && (forall h | h in r.lightObjects :: h !in rig.attached))
  {
  }

  /** The helpers attached to the car are exactly `lightObjects`, and all
      were issued. */
  predicate Consistent(rig: FrontLightRig)
  {
    && IdsIssued(rig)
    && (forall h | h in rig.attached :: h in rig.lightObjects)
    && (forall h | h in rig.lightObjects :: h in rig.attached)
  }

  /** Toggling keeps the rig consistent, so no helper outlives the toggle
      that replaced it: with the lights off nothing is attached. */
  lemma ToggleKeepsConsistent(rig: FrontLightRig, frontLights: seq<nat>, localX: nat -> real, hasModel: bool)
    requires Consistent(rig)
    ensures var r := ToggleFrontLights(rig, frontLights, localX, hasModel);
            Consistent(r) && (!r.on ==> r.attached == [])
  {
    var r := ToggleFrontLights(rig, frontLights, localX, hasModel);
    FrontLightHelpersReplaced(rig, frontLights, localX, hasModel);
    NoMembersMeansEmpty(r.attached);
  }

  /** Switching the front lights on and off again, starting from the
      initial rig, leaves no helper attached and none listed. */
  lemma OnOffLeavesNoHelpers(frontLights: seq<nat>, localX: nat -> real, hasModel: bool, nextId: nat)
    ensures var r := ToggleFrontLights(ToggleFrontLights(FrontLightRig(false, [], [], nextId), frontLights, localX, hasModel),
                                       frontLights, localX, hasModel);
            !r.on && r.lightObjects == [] && r.attached == []
  {
    var r1 := ToggleFrontLights(FrontLightRig(false, [], [], nextId), frontLights, localX, hasModel);
    ToggleKeepsConsistent(FrontLightRig(false, [], [], nextId), frontLights, localX, hasModel);
    ToggleKeepsConsistent(r1, frontLights, localX, hasModel);
  }
}
