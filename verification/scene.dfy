/** The part of the loaded car model the classifier and the click handler
    look at. A scene is the list of nodes in the order `model.traverse`
    visits them: index 0 is the model root, and a node's parent comes
    before it. A node is identified by its index. Geometry (bounding-box
    centres and sizes, world positions) is computed by the rendering engine
    and enters the model as given values. */
module Scene {
  import opened Wrappers

  datatype Vec3 = Vec3(x: real, y: real, z: real)

  datatype Node = Node(
    name: string,
    /** The material's name, or "" when the node has no material or an unnamed one. */
    materialName: string,
    isMesh: bool,
    /** None for the model root: its parent is the rotation container, outside the model. */
    parent: Option<nat>,
    /** World X of the node's origin (`getWorldPosition`). */
    originX: real,
    /** World-space centre of the geometry's bounding box. */
    boxCenter: Vec3,
    /** Size of the geometry's bounding box. */
    boxSize: Vec3)

  /** Every parent reference points at an earlier node, as in a pre-order traversal. */
  predicate WellFormed(scene: seq<Node>)
  {
    forall i | 0 <= i < |scene| :: scene[i].parent.Some? ==> scene[i].parent.value < i
  }

  /** The node `i` followed by its ancestors up to the model root: the
      objects the click handler's `p = p.parent` walk visits. */
  function Chain(scene: seq<Node>, i: nat): (c: seq<nat>)
    requires WellFormed(scene)
    requires i < |scene|
    ensures |c| >= 1 && c[0] == i
    ensures forall j | 0 <= j < |c| :: c[j] < |scene|
    ensures forall j | 0 <= j < |c| - 1 :: scene[c[j]].parent == Some(c[j + 1])
    ensures scene[c[|c| - 1]].parent.None?
    decreases i
  {
    match scene[i].parent
    case None => [i]
    case Some(p) => [i] + Chain(scene, p)
  }

}
