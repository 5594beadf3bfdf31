/** The collision-layer filters of Renderer/Physics.cpp: which object layers may
    collide, which broad-phase layer each object layer lives in, and which
    object-layer/broad-phase-layer pairs the broad phase lets through. */
module CollisionLayers {

  /** Jolt's ObjectLayer, an unsigned 16-bit integer. */
  newtype ObjectLayer = x: int | 0 <= x < 0x1_0000

  /** The value inside Jolt's BroadPhaseLayer, an unsigned 8-bit integer. */
  newtype Byte = x: int | 0 <= x < 0x100

  /** Jolt's BroadPhaseLayer: an 8-bit value compared by value. */
  datatype BroadPhaseLayer = BroadPhaseLayer(value: Byte)

  // namespace Layers
  const NON_MOVING: ObjectLayer := 0
  const MOVING: ObjectLayer := 1
  const NUM_LAYERS: ObjectLayer := 2

  // namespace BroadPhaseLayers
  const BP_NON_MOVING: BroadPhaseLayer := BroadPhaseLayer(0)
  const BP_MOVING: BroadPhaseLayer := BroadPhaseLayer(1)
  const BP_NUM_LAYERS: nat := 2

  /** Whether two object layers may collide: non-moving objects only meet moving ones,
      moving objects meet everything, and any other first layer is refused (the
      JPH_ASSERT(false) of the default branch is compiled out, so it returns false). */
  function MyObjectCanCollide(inObject1: ObjectLayer, inObject2: ObjectLayer): (r: bool)
    ensures inObject1 == NON_MOVING ==> (r <==> inObject2 == MOVING)
    ensures inObject1 == MOVING ==> r
    ensures inObject1 != NON_MOVING && inObject1 != MOVING ==> !r
  {
    match inObject1
    case 0 => inObject2 == MOVING
    case 1 => true
    case _ => false
  }

  /** Whether an object layer may collide with a broad-phase layer, by the same table as
      MyObjectCanCollide with the second layer read as a broad-phase layer. */
  function MyBroadPhaseCanCollide(inLayer1: ObjectLayer, inLayer2: BroadPhaseLayer): (r: bool)
    ensures inLayer1 == NON_MOVING ==> (r <==> inLayer2 == BP_MOVING)
    ensures inLayer1 == MOVING ==> r
    ensures inLayer1 != NON_MOVING && inLayer1 != MOVING ==> !r
  {
    match inLayer1
    case 0 => inLayer2 == BP_MOVING
    case 1 => true
    case _ => false
  }

  /** The broad-phase layer interface: a table from object layer to broad-phase layer. */
  class BPLayerInterfaceImpl {
    var mObjectToBroadPhase: array<BroadPhaseLayer>

    /** The table maps NON_MOVING and MOVING to the broad-phase layers of the same name. */
    ghost predicate Valid()
      reads this, mObjectToBroadPhase
    {
      && mObjectToBroadPhase.Length == NUM_LAYERS as int
      && mObjectToBroadPhase[NON_MOVING as int] == BP_NON_MOVING
      && mObjectToBroadPhase[MOVING as int] == BP_MOVING
    }

    /** Fills the mapping table. */
    constructor ()
      ensures Valid() && fresh(mObjectToBroadPhase)
    {
      var table := new BroadPhaseLayer[NUM_LAYERS as int];
      table[NON_MOVING as int] := BP_NON_MOVING;
      table[MOVING as int] := BP_MOVING;
      mObjectToBroadPhase := table;
    }

    /** Two broad-phase layers, one per object layer. */
    function GetNumBroadPhaseLayers(): (n: nat)
      ensures n == NUM_LAYERS as nat
    {
      BP_NUM_LAYERS
    }

    /** The broad-phase layer of an object layer. The source asserts inLayer < NUM_LAYERS
        and otherwise reads past the table, so that is required here. */
    function GetBroadPhaseLayer(inLayer: ObjectLayer): (r: BroadPhaseLayer)
      requires Valid() && inLayer < NUM_LAYERS
      reads this, mObjectToBroadPhase
      ensures r.value as int == inLayer as int
      ensures r == BP_NON_MOVING || r == BP_MOVING
    {
      mObjectToBroadPhase[inLayer as int]
    }
  }

  /** For valid layers the broad-phase filter applied to the broad-phase layer of the
      second object agrees with the object filter. */
  lemma FiltersAgree(impl: BPLayerInterfaceImpl, a: ObjectLayer, b: ObjectLayer)
    requires impl.Valid() && a < NUM_LAYERS && b < NUM_LAYERS
    ensures MyBroadPhaseCanCollide(a, impl.GetBroadPhaseLayer(b)) == MyObjectCanCollide(a, b)
  {
  }

  /** Over the valid layers the object filter is symmetric. */
  lemma ObjectFilterSymmetric(a: ObjectLayer, b: ObjectLayer)
    requires a < NUM_LAYERS && b < NUM_LAYERS
    ensures MyObjectCanCollide(a, b) == MyObjectCanCollide(b, a)
  {
  }

  /** Outside the valid layers symmetry fails: MOVING accepts layer 2, layer 2 refuses
      MOVING. */
  lemma ObjectFilterAsymmetricOutsideLayers()
    ensures MyObjectCanCollide(MOVING, 2) && !MyObjectCanCollide(2, MOVING)
  {
  }
}
