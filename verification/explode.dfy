/** The layout half of `prepareExplosion` (useCarModel.ts): which meshes
    explode, the normalising maximum distance, and how far each mesh
    travels. The direction vectors (the centre-to-mesh ray, or a
    Fibonacci-sphere point for a mesh at the centre) and the transforms
    into local space are not part of this model; each mesh's distance from
    the model's centre is a given value. */
module Explode {
  import opened Scene

  const MinExplosionDistance: real := 53.0
  const BaseExplosionScale: real := 305.0
  /** A mesh closer to the centre than this gets a sphere-lattice direction. */
  const NearCentre: real := 0.1

  /** `minExplosionDistance + normalizedDistance * baseExplosionScale`,
      where the normalised distance is 0 when the maximum is not positive. */
  function ExplosionDistance(d: real, maxDistance: real): (r: real)
    ensures maxDistance == 0.0 ==> r == MinExplosionDistance
    ensures 0.0 <= d <= maxDistance ==> MinExplosionDistance <= r <= MinExplosionDistance + BaseExplosionScale
  {
    var normalized := if maxDistance > 0.0 then d / maxDistance else 0.0;
    assert 0.0 <= d <= maxDistance ==> 0.0 <= normalized <= 1.0;
    MinExplosionDistance + normalized * BaseExplosionScale
  }

  /** A mesh farther from the centre never travels less far. */
  lemma ExplosionDistanceMonotone(d1: real, d2: real, maxDistance: real)
    requires d1 <= d2
    ensures ExplosionDistance(d1, maxDistance) <= ExplosionDistance(d2, maxDistance)
  {
    if maxDistance > 0.0 {
      assert d2 / maxDistance - d1 / maxDistance == (d2 - d1) / maxDistance;
    }
  }

  /** The running `Math.max`, started at 0. */
  method MaxDistance(ds: seq<real>) returns (m: real)
    ensures m >= 0.0
    ensures forall i | 0 <= i < |ds| :: ds[i] <= m
    ensures m == 0.0 || exists i | 0 <= i < |ds| :: ds[i] == m
  {
    m := 0.0;
    for i := 0 to |ds|
      invariant m >= 0.0
      invariant forall j | 0 <= j < i :: ds[j] <= m
      invariant m == 0.0 || exists j | 0 <= j < i :: ds[j] == m
    {
      if ds[i] > m {
        m := ds[i];
      }
    }
  }

  /** The explode record of one mesh: how far it travels, whether its
      direction comes from the sphere lattice, and its animation progress. */
  datatype ExplodeEntry = ExplodeEntry(part: nat, distance: real, onSphere: bool, progress: real)

  predicate Explodable(scene: seq<Node>, i: nat)
  {
    0 < i < |scene| && scene[i].isMesh
  }

  /** The first traversal of `prepareExplosion`: the meshes other than
      the model root, in order. */
  method CollectMeshes(scene: seq<Node>) returns (meshes: seq<nat>)
    ensures forall k | 0 <= k < |meshes| :: meshes[k] < |scene| && Explodable(scene, meshes[k])
    ensures forall i | Explodable(scene, i) :: i in meshes
    ensures forall a, b | 0 <= a < b < |meshes| :: meshes[a] < meshes[b]
  {
    meshes := [];
    for i := 0 to |scene|
      invariant forall k | 0 <= k < |meshes| :: meshes[k] < i && Explodable(scene, meshes[k])
      invariant forall j | 0 <= j < i && Explodable(scene, j) :: j in meshes
      invariant forall a, b | 0 <= a < b < |meshes| :: meshes[a] < meshes[b]
    {
      if Explodable(scene, i) {
        meshes := meshes + [i];
      }
    }
  }

  /** The second traversal: one entry per mesh, all normalised by the
      same maximum, all at progress 0. */
  method Layout(meshes: seq<nat>, dist: seq<real>, maxDistance: real) returns (entries: seq<ExplodeEntry>)
    requires forall k | 0 <= k < |meshes| :: meshes[k] < |dist|
    ensures |entries| == |meshes|
    ensures forall k | 0 <= k < |entries| ::
              && entries[k].part == meshes[k]
              && entries[k].distance == ExplosionDistance(dist[meshes[k]], maxDistance)
              && (entries[k].onSphere <==> dist[meshes[k]] < NearCentre)
              && entries[k].progress == 0.0
  {
    entries := [];
    for k := 0 to |meshes|
      invariant |entries| == k
      invariant forall j | 0 <= j < k ::
                  && entries[j].part == meshes[j]
                  && entries[j].distance == ExplosionDistance(dist[meshes[j]], maxDistance)
                  && (entries[j].onSphere <==> dist[meshes[j]] < NearCentre)
                  && entries[j].progress == 0.0
    {
      var d := dist[meshes[k]];
      entries := entries + [ExplodeEntry(meshes[k], ExplosionDistance(d, maxDistance), d < NearCentre, 0.0)];
    }
  }

  /** Of two exploding meshes, the one farther from the centre travels at
      least as far. */
  predicate FartherTravelsFarther(entries: seq<ExplodeEntry>, dist: seq<real>)
    requires forall k | 0 <= k < |entries| :: entries[k].part < |dist|
  {
    forall a, b | 0 <= a < |entries| && 0 <= b < |entries| ::
      dist[entries[a].part] <= dist[entries[b].part] ==> entries[a].distance <= entries[b].distance
  }

  lemma LayoutMonotone(entries: seq<ExplodeEntry>, dist: seq<real>, maxDistance: real)
    requires forall k | 0 <= k < |entries| :: entries[k].part < |dist|
    requires forall k | 0 <= k < |entries| :: entries[k].distance == ExplosionDistance(dist[entries[k].part], maxDistance)
    ensures FartherTravelsFarther(entries, dist)
  {
    forall a, b | 0 <= a < |entries| && 0 <= b < |entries| && dist[entries[a].part] <= dist[entries[b].part]
      ensures entries[a].distance <= entries[b].distance
    {
      ExplosionDistanceMonotone(dist[entries[a].part], dist[entries[b].part], maxDistance);
    }
  }

  /** `prepareExplosion`: every mesh except the model root gets an entry,
      in traversal order; `dist[i]` is node `i`'s distance from the model's
      centre. Each mesh travels the distance the formula gives for its own
      distance and the shared maximum: between 53 and 358 units, a mesh farther
      from the centre travels at least as far, and when every mesh sits at
      the centre all travel the minimum. */
  method PrepareExplosion(scene: seq<Node>, dist: seq<real>) returns (entries: seq<ExplodeEntry>, maxDistance: real)
    requires |dist| == |scene|
    requires forall i | 0 <= i < |dist| :: dist[i] >= 0.0
    ensures forall k | 0 <= k < |entries| :: entries[k].part < |scene| && Explodable(scene, entries[k].part)
    ensures forall i | Explodable(scene, i) :: exists k | 0 <= k < |entries| :: entries[k].part == i
    ensures forall a, b | 0 <= a < b < |entries| :: entries[a].part < entries[b].part
    ensures maxDistance >= 0.0
    ensures forall k | 0 <= k < |entries| :: dist[entries[k].part] <= maxDistance
    ensures maxDistance == 0.0 || exists k | 0 <= k < |entries| :: dist[entries[k].part] == maxDistance
    ensures forall k | 0 <= k < |entries| ::
              && entries[k].distance == ExplosionDistance(dist[entries[k].part], maxDistance)
              && MinExplosionDistance <= entries[k].distance <= MinExplosionDistance + BaseExplosionScale
              && (maxDistance == 0.0 ==> entries[k].distance == MinExplosionDistance)
              && (entries[k].onSphere <==> dist[entries[k].part] < NearCentre)
              && entries[k].progress == 0.0
    ensures FartherTravelsFarther(entries, dist)
  {
    var meshes := CollectMeshes(scene);
    var ds := seq(|meshes|, k requires 0 <= k < |meshes| => dist[meshes[k]]);
    maxDistance := MaxDistance(ds);
    entries := Layout(meshes, dist, maxDistance);
    forall i | Explodable(scene, i)
      ensures exists k | 0 <= k < |entries| :: entries[k].part == i
    {
      var k :| 0 <= k < |meshes| && meshes[k] == i;
      assert entries[k].part == i;
    }
    forall k | 0 <= k < |entries|
      ensures dist[entries[k].part] <= maxDistance
      ensures MinExplosionDistance <= entries[k].distance <= MinExplosionDistance + BaseExplosionScale
    {
      var d := dist[meshes[k]];
      assert ds[k] == d && 0.0 <= d <= maxDistance;
      assert entries[k].distance == ExplosionDistance(d, maxDistance);
    }
    if maxDistance != 0.0 {
      var k :| 0 <= k < |ds| && ds[k] == maxDistance;
      assert dist[entries[k].part] == maxDistance;
    }
    LayoutMonotone(entries, dist, maxDistance);
  }
}
