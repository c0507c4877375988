/** Appearance assignment and disposal of a loaded model instance:
    `applyATVMaterials` gives every mesh a material chosen by the name
    classifier, and `disposeATV` releases geometries and the materials that
    are not members of the shared `materialCache`.

    A material is identified, not described: colours, roughness and the
    other physical parameters are not modelled. */
module Materials {
  import opened Wrappers
  import opened Classifier

  /** The entries of the module-level `materialCache`. */
  datatype CacheKey = Frame | ChromeKey | RubberKey | Plastic | SeatKey | LightKey
                    | TailLight | BatteryKey | Spring | Stitch | Screen

  /** A material object: either one created by a call of `applyATVMaterials`
      (the call and the slot inside it tell two materials apart) or a shared
      cache entry. */
  datatype Material = Created(call: nat, slot: nat) | Shared(key: CacheKey)

  /** `Mesh.material` is a single material or an array of them. */
  datatype MeshMaterial = NoMaterial | Single(m: Material) | Multi(ms: seq<Material>)

  /** A node visited by `traverse`; only meshes are touched by either operation. */
  datatype Node = MeshNode(name: string, geometry: Option<nat>, material: MeshMaterial) | OtherNode

  /** The materials a node holds. */
  function MaterialsOf(n: Node): (r: seq<Material>)
    ensures n.OtherNode? ==> r == []
  {
    if n.OtherNode? then []
    else match n.material
      case NoMaterial => []
      case Single(m) => [m]
      case Multi(ms) => ms
  }

  /** The slot of the shared per-call material of each category; every light
      mesh gets a material of its own, in slots from 4 up. */
  function Slot(c: PartCategory, index: nat): (r: nat)
    ensures c == Light <==> r >= 4
  {
    match c
    case Body => 0
    case Rubber => 1
    case Chrome => 2
    case Seat => 3
    case Light => 4 + index
  }

  /** The category a slot was created for: the inverse of `Slot`. */
  function SlotCategory(slot: nat): PartCategory {
    if slot == 0 then Body
    else if slot == 1 then Rubber
    else if slot == 2 then Chrome
    else if slot == 3 then Seat
    else Light
  }

  lemma SlotCategoryInverts(c: PartCategory, index: nat)
    ensures SlotCategory(Slot(c, index)) == c
  {
  }

  /** `applyATVMaterials` for call number `call`: every mesh gets the material
      of its name's category, the non-mesh nodes are unchanged. The position
      of a node in the traversal tells the light meshes' materials apart. */
  function ApplyMaterials(nodes: seq<Node>, call: nat): (r: seq<Node>)
    ensures |r| == |nodes|
    ensures forall i :: 0 <= i < |nodes| ==> r[i].OtherNode? == nodes[i].OtherNode?
    ensures forall i :: 0 <= i < |nodes| && nodes[i].MeshNode? ==>
              && r[i].name == nodes[i].name && r[i].geometry == nodes[i].geometry
              && r[i].material == Single(Created(call, Slot(Classify(nodes[i].name), i)))
  {
    seq(|nodes|, i requires 0 <= i < |nodes| =>
      match nodes[i]
      case OtherNode => OtherNode
      case MeshNode(name, g, _) => MeshNode(name, g, Single(Created(call, Slot(Classify(name), i)))))
  }

  /** The category of every mesh can be read back from the material it was
      given, and no mesh is given a shared cache entry. */
  lemma AppliedMaterialShowsCategory(nodes: seq<Node>, call: nat, i: nat)
    requires i < |nodes| && nodes[i].MeshNode?
    ensures ApplyMaterials(nodes, call)[i].material.Single?
    ensures ApplyMaterials(nodes, call)[i].material.m.Created?
    ensures SlotCategory(ApplyMaterials(nodes, call)[i].material.m.slot) == Classify(nodes[i].name)
  {
    SlotCategoryInverts(Classify(nodes[i].name), i);
  }

  /** Two meshes share a material exactly when they fall in the same category
      and it is not the light category; a light mesh's material is its own. */
  lemma SharingFollowsCategory(nodes: seq<Node>, call: nat, i: nat, j: nat)
    requires i < |nodes| && j < |nodes| && i != j
    requires nodes[i].MeshNode? && nodes[j].MeshNode?
    ensures ApplyMaterials(nodes, call)[i].material == ApplyMaterials(nodes, call)[j].material
            <==> Classify(nodes[i].name) == Classify(nodes[j].name) && Classify(nodes[i].name) != Light
  {
    var ci, cj := Classify(nodes[i].name), Classify(nodes[j].name);
    SlotCategoryInverts(ci, i);
    SlotCategoryInverts(cj, j);
  }

  /** Materials from two different calls are never the same object. */
  lemma CallsDoNotShare(nodes: seq<Node>, c1: nat, c2: nat, i: nat, j: nat)
    requires c1 != c2 && i < |nodes| && j < |nodes| && nodes[i].MeshNode? && nodes[j].MeshNode?
    ensures ApplyMaterials(nodes, c1)[i].material != ApplyMaterials(nodes, c2)[j].material
  {
  }

  /** The cache as the set `cachedMaterials` built in `disposeATV`. */
  const cachedMaterials: set<Material> :=
    set k: CacheKey | k in [Frame, ChromeKey, RubberKey, Plastic, SeatKey, LightKey,
                            TailLight, BatteryKey, Spring, Stitch, Screen] :: Shared(k)

  lemma CachedMaterialsAreShared(m: Material)
    ensures m in cachedMaterials <==> m.Shared?
  {
    if m.Shared? {
      var keys := [Frame, ChromeKey, RubberKey, Plastic, SeatKey, LightKey,
                   TailLight, BatteryKey, Spring, Stitch, Screen];
      match m.key
      case Frame => assert keys[0] == m.key;
      case ChromeKey => assert keys[1] == m.key;
      case RubberKey => assert keys[2] == m.key;
      case Plastic => assert keys[3] == m.key;
      case SeatKey => assert keys[4] == m.key;
      case LightKey => assert keys[5] == m.key;
      case TailLight => assert keys[6] == m.key;
      case BatteryKey => assert keys[7] == m.key;
      case Spring => assert keys[8] == m.key;
      case Stitch => assert keys[9] == m.key;
      case Screen => assert keys[10] == m.key;
    }
  }

  /** What one traversal releases, in visiting order. A material shared by
      several meshes is released once per mesh, as in the source. */
  datatype Released = Released(geometries: seq<nat>, materials: seq<Material>)

  function Keep(ms: seq<Material>, cache: set<Material>): (r: seq<Material>)
    ensures forall m :: m in r <==> m in ms && m !in cache
  {
    if |ms| == 0 then []
    else (if ms[0] in cache then [] else [ms[0]]) + Keep(ms[1..], cache)
  }

  /** `disposeATV` on the nodes of one instance, with `cache` the set of
      materials it must not release. */
  function Dispose(nodes: seq<Node>, cache: set<Material>): (r: Released)
    ensures forall m :: m in r.materials ==> m !in cache
    ensures |r.geometries| <= |nodes|
  {
    if |nodes| == 0 then Released([], [])
    else
      var rest := Dispose(nodes[1..], cache);
      var n := nodes[0];
      var g := if n.MeshNode? && n.geometry.Some? then [n.geometry.value] else [];
      Released(g + rest.geometries, Keep(MaterialsOf(n), cache) + rest.materials)
  }

  /** Every geometry of every mesh is released, and nothing else. */
  lemma {:induction false} DisposeReleasesGeometries(nodes: seq<Node>, cache: set<Material>, g: nat)
    ensures g in Dispose(nodes, cache).geometries <==>
            exists i :: 0 <= i < |nodes| && nodes[i].MeshNode? && nodes[i].geometry == Some(g)
  {
    if |nodes| > 0 {
      DisposeReleasesGeometries(nodes[1..], cache, g);
      if g in Dispose(nodes[1..], cache).geometries {
        var i :| 1 <= i + 1 < |nodes| && nodes[1..][i].MeshNode? && nodes[1..][i].geometry == Some(g);
        assert nodes[i + 1] == nodes[1..][i];
      }
      if exists i :: 0 <= i < |nodes| && nodes[i].MeshNode? && nodes[i].geometry == Some(g) {
        var i :| 0 <= i < |nodes| && nodes[i].MeshNode? && nodes[i].geometry == Some(g);
        if i > 0 {
          assert nodes[1..][i - 1] == nodes[i];
        }
      }
    }
  }

  /** A material is released exactly when some mesh holds it and it is not a
      cache member; in particular a cache member is never released. */
  lemma {:induction false} DisposeReleasesUncachedMaterials(nodes: seq<Node>, cache: set<Material>, m: Material)
    ensures m in Dispose(nodes, cache).materials <==>
            m !in cache && exists i :: 0 <= i < |nodes| && m in MaterialsOf(nodes[i])
  {
    if |nodes| > 0 {
      DisposeReleasesUncachedMaterials(nodes[1..], cache, m);
      if exists i :: 0 <= i < |nodes[1..]| && m in MaterialsOf(nodes[1..][i]) {
        var i :| 0 <= i < |nodes[1..]| && m in MaterialsOf(nodes[1..][i]);
        assert MaterialsOf(nodes[i + 1]) == MaterialsOf(nodes[1..][i]);
      }
      if exists i :: 0 <= i < |nodes| && m in MaterialsOf(nodes[i]) {
        var i :| 0 <= i < |nodes| && m in MaterialsOf(nodes[i]);
        if i > 0 {
          assert MaterialsOf(nodes[1..][i - 1]) == MaterialsOf(nodes[i]);
        }
      }
    }
  }

  /** On an instance dressed by `applyATVMaterials` the cache check never
      spares anything: every material of every mesh is released. */
  lemma DisposeReleasesAllApplied(nodes: seq<Node>, call: nat, i: nat)
    requires i < |nodes| && nodes[i].MeshNode?
    ensures ApplyMaterials(nodes, call)[i].material.m in Dispose(ApplyMaterials(nodes, call), cachedMaterials).materials
  {
    var dressed := ApplyMaterials(nodes, call);
    var m := dressed[i].material.m;
    assert m in MaterialsOf(dressed[i]);
    CachedMaterialsAreShared(m);
    DisposeReleasesUncachedMaterials(dressed, cachedMaterials, m);
  }

  /** Instances are clones of one cached base, and cloning copies each mesh's
      geometry by reference: disposing an old instance releases every geometry
      a mesh of the base holds, which the base and every other instance dressed
      from it still hold. */
  lemma DisposeReleasesSharedGeometry(base: seq<Node>, c1: nat, c2: nat, i: nat, g: nat)
    requires i < |base| && base[i].MeshNode? && base[i].geometry == Some(g)
    ensures ApplyMaterials(base, c2)[i].geometry == Some(g)
    ensures g in Dispose(ApplyMaterials(base, c1), cachedMaterials).geometries
  {
    var old1 := ApplyMaterials(base, c1);
    assert old1[i].MeshNode? && old1[i].geometry == Some(g);
    DisposeReleasesGeometries(old1, cachedMaterials, g);
  }
}
