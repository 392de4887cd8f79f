/**
 * The glTF side of gltfLoader.js: the accessor tables getElementSize and
 * getTypedArrayConstructor, the element count of handleAttribute, the material defaults of
 * handleGLTF and its loop that turns every three indices of a primitive into a triangle.
 *
 * Accessor types and component types follow section 3.6.2.2 ("Accessor Data Types") of the
 * glTF 2.0 specification.
 */
module Gltf {
  import opened Common
  import opened Geometry

  // ---- Accessors ----

  /** getElementSize: components per element; SCALAR and every unlisted type count as 1. */
  function ElementSize(accessorType: string): (r: nat)
    ensures 1 <= r <= 4
    ensures r == 2 <==> accessorType == "VEC2"
    ensures r == 3 <==> accessorType == "VEC3"
    ensures r == 4 <==> accessorType == "VEC4"
  {
    match accessorType
    case "SCALAR" => 1
    case "VEC2" => 2
    case "VEC3" => 3
    case "VEC4" => 4
    case _ => 1
  }

  /** The typed arrays getTypedArrayConstructor can return. */
  datatype ArrayKind = Int8 | Uint8 | Int16 | Uint16 | Uint32 | Float32

  /** getTypedArrayConstructor: the array for a component type, None (null) for any other code. */
  function ArrayFor(componentType: int): Option<ArrayKind> {
    match componentType
    case 5120 => Some(Int8)
    case 5121 => Some(Uint8)
    case 5122 => Some(Int16)
    case 5123 => Some(Uint16)
    case 5125 => Some(Uint32)
    case 5126 => Some(Float32)
    case _ => None
  }

  /** The component type code of an array kind in the glTF 2.0 table. */
  function ComponentCode(k: ArrayKind): int {
    match k
    case Int8 => 5120
    case Uint8 => 5121
    case Int16 => 5122
    case Uint16 => 5123
    case Uint32 => 5125
    case Float32 => 5126
  }

  /** Bytes per component in the glTF 2.0 table. */
  function ComponentBytes(k: ArrayKind): nat {
    match k
    case Int8 => 1
    case Uint8 => 1
    case Int16 => 2
    case Uint16 => 2
    case Uint32 => 4
    case Float32 => 4
  }

  /** The table is a bijection between the six codes and the six kinds. */
  lemma ArrayForInverts(k: ArrayKind, code: int)
    ensures ArrayFor(ComponentCode(k)) == Some(k)
    ensures ArrayFor(code) == Some(k) ==> ComponentCode(k) == code
  {
  }

  /** Codes outside the table, 5124 (the unsigned-int gap) among them, are rejected. */
  lemma ArrayForRejects(code: int)
    ensures ArrayFor(code).None? <==> code !in {5120, 5121, 5122, 5123, 5125, 5126}
  {
  }

  /** An accessor: its element type, component type and element count. */
  datatype Accessor = Accessor(accessorType: string, componentType: int, count: nat)

  /**
   * handleAttribute: the length of the typed array it reads, count * elementSize, or None when
   * the component type is unknown (the function then returns undefined).
   */
  function AttributeLength(a: Accessor): (r: Option<nat>)
    ensures r.Some? <==> ArrayFor(a.componentType).Some?
    ensures r.Some? ==> r.value == a.count * ElementSize(a.accessorType)
    ensures r.Some? ==> a.count <= r.value <= 4 * a.count && r.value % ElementSize(a.accessorType) == 0
  {
    if ArrayFor(a.componentType).None? then None else Some(a.count * ElementSize(a.accessorType))
  }

  // ---- Materials ----

  /** A texture as handleGLTF records it: the image file name, or -1. */
  datatype TexRef = NoTex | Tex(file: string)

  /** The part of pbrMetallicRoughness handleGLTF reads; textures are texture indices. */
  datatype Pbr = Pbr(baseColorTexture: Option<nat>, baseColorFactor: Option<V4>,
                     metallicRoughnessTexture: Option<nat>, metallicFactor: Option<real>,
                     roughnessFactor: Option<real>)

  /**
   * The extensions handleGLTF reads. emissiveStrength is None when either the extension or its
   * field is absent (`?.` reads both as undefined). For ior and transmission the outer Option
   * says whether KHR_materials_ior / KHR_materials_transmission is present and the inner one
   * whether it has its ior / transmissionFactor field, which the extensions make optional.
   */
  datatype Extensions = Extensions(emissiveStrength: Option<real>, ior: Option<Option<real>>,
                                   transmission: Option<Option<real>>)

  datatype GltfMaterial = GltfMaterial(name: string, pbr: Option<Pbr>, emissiveFactor: Option<V3>,
                                       extensions: Option<Extensions>, normalTexture: Option<nat>)

  /** A loaded material: only a name when pbrMetallicRoughness is missing, every field otherwise. */
  datatype Mat =
    | NameOnly(name: string)
    | Full(name: string, albedoTex: TexRef, albedo: V3, metallic: real, roughness: real, mrTex: TexRef,
           emissive: V3, ior: Num, transmission: Num, normal: TexRef)

  /** The document tables a texture index goes through: texture -> image source -> uri. */
  datatype Doc = Doc(textureSources: seq<nat>, imageUris: seq<string>)

  /** `uri.split('/').pop()`: the part after the last slash, the whole string if there is none. */
  function Basename(uri: string): (r: string)
    ensures '/' !in r && |r| <= |uri| && uri[|uri| - |r|..] == r
    ensures |r| < |uri| ==> uri[|uri| - |r| - 1] == '/'
  {
    if |uri| == 0 || uri[|uri| - 1] == '/' then []
    else Basename(uri[..|uri| - 1]) + [uri[|uri| - 1]]
  }

  predicate TextureOk(doc: Doc, t: Option<nat>) {
    t.Some? ==> t.value < |doc.textureSources| && doc.textureSources[t.value] < |doc.imageUris|
  }

  /** images[textures[index].source].uri.split('/').pop(). */
  function TextureFile(doc: Doc, t: nat): string
    requires TextureOk(doc, Some(t))
  {
    Basename(doc.imageUris[doc.textureSources[t]])
  }

  /** Every texture a material names resolves to an image (a valid glTF file guarantees it). */
  predicate RefsOk(doc: Doc, m: GltfMaterial) {
    TextureOk(doc, m.normalTexture) &&
    (m.pbr.Some? ==> TextureOk(doc, m.pbr.value.baseColorTexture) && TextureOk(doc, m.pbr.value.metallicRoughnessTexture))
  }

  /** metallicFactor: 0 when absent, 1 above 0.9 (a Blender exporter drops a factor of 1), else as given. */
  function Metallic(f: Option<real>): real {
    if f.None? then 0.0 else if f.value > 0.9 then 1.0 else f.value
  }

  /** `emissiveStrength || 1`: a missing or zero strength counts as 1. */
  function Strength(e: Option<Extensions>): real {
    if e.Some? && e.value.emissiveStrength.Some? && e.value.emissiveStrength.value != 0.0 then e.value.emissiveStrength.value
    else 1.0
  }

  /**
   * The value copied out of a present extension: its field, or `undefined` when the field is
   * absent; `undefined` becomes NaN once it is stored in a Float32Array, so it is NaN here.
   */
  function Field(f: Option<real>): (r: Num)
    ensures r.NaN? <==> f.None?
  {
    if f.Some? then Val(f.value) else NaN
  }

  /** The material loop body of handleGLTF. */
  function MaterialOf(doc: Doc, m: GltfMaterial): Mat
    requires RefsOk(doc, m)
  {
    match m.pbr
    case None => NameOnly(m.name)
    case Some(p) =>
      var albedoTex := if p.baseColorTexture.Some? then Tex(TextureFile(doc, p.baseColorTexture.value)) else NoTex;
      var albedo :=
        if p.baseColorTexture.Some? then V3(0.0, 0.0, 0.0)
        else if p.baseColorFactor.None? then V3(1.0, 1.0, 1.0)
        else V3(p.baseColorFactor.value.x, p.baseColorFactor.value.y, p.baseColorFactor.value.z);
      var mrTex := if p.metallicRoughnessTexture.Some? then Tex(TextureFile(doc, p.metallicRoughnessTexture.value)) else NoTex;
      var metallic := if p.metallicRoughnessTexture.Some? then 0.0 else Metallic(p.metallicFactor);
      var roughness :=
        if p.metallicRoughnessTexture.Some? then 1.0
        else if p.roughnessFactor.None? then 0.5 else p.roughnessFactor.value;
      var emissive :=
        if m.emissiveFactor.None? then V3(0.0, 0.0, 0.0)
        else var s := Strength(m.extensions); V3(m.emissiveFactor.value.x * s, m.emissiveFactor.value.y * s, m.emissiveFactor.value.z * s);
      var ior := if m.extensions.Some? && m.extensions.value.ior.Some? then Field(m.extensions.value.ior.value) else Val(1.5);
      var transmission :=
        if m.extensions.Some? && m.extensions.value.transmission.Some? then Field(m.extensions.value.transmission.value)
        else Val(0.0);
      var normal := if m.normalTexture.Some? then Tex(TextureFile(doc, m.normalTexture.value)) else NoTex;
      Full(m.name, albedoTex, albedo, metallic, roughness, mrTex, emissive, ior, transmission, normal)
  }

  predicate Unit(r: real) {
    0.0 <= r <= 1.0
  }

  predicate UnitV3(v: V3) {
    Unit(v.x) && Unit(v.y) && Unit(v.z)
  }

  /** The factors glTF 2.0 bounds to [0, 1]. */
  predicate FactorsInUnit(m: GltfMaterial) {
    (m.pbr.Some? ==>
      (m.pbr.value.baseColorFactor.Some? ==> var c := m.pbr.value.baseColorFactor.value; Unit(c.x) && Unit(c.y) && Unit(c.z)) &&
      (m.pbr.value.metallicFactor.Some? ==> Unit(m.pbr.value.metallicFactor.value)) &&
      (m.pbr.value.roughnessFactor.Some? ==> Unit(m.pbr.value.roughnessFactor.value))) &&
    (m.extensions.Some? && m.extensions.value.transmission.Some? && m.extensions.value.transmission.value.Some? ==>
      Unit(m.extensions.value.transmission.value.value))
  }

  /**
   * With factors in [0, 1], every default and every copied value of a loaded material stays in
   * [0, 1], and metallic is never strictly between 0.9 and 1; a transmission that is NaN comes
   * from a transmission extension without its factor (ExtensionFields).
   */
  lemma MaterialInUnit(doc: Doc, m: GltfMaterial)
    requires RefsOk(doc, m) && FactorsInUnit(m) && m.pbr.Some?
    ensures var r := MaterialOf(doc, m);
      r.Full? && UnitV3(r.albedo) && Unit(r.metallic) && Unit(r.roughness) &&
      (r.transmission.Val? ==> Unit(r.transmission.v)) &&
      (r.metallic <= 0.9 || r.metallic == 1.0)
  {
  }

  /**
   * ior is 1.5 and transmission 0 unless their extension is present; a present extension
   * gives its field, and NaN (undefined in the JavaScript) when the field is absent.
   */
  lemma ExtensionFields(doc: Doc, m: GltfMaterial)
    requires RefsOk(doc, m) && m.pbr.Some?
    ensures var r, e := MaterialOf(doc, m), m.extensions;
      (r.ior.NaN? <==> e.Some? && e.value.ior == Some(None)) &&
      (r.transmission.NaN? <==> e.Some? && e.value.transmission == Some(None)) &&
      (e.None? || e.value.ior.None? ==> r.ior == Val(1.5)) &&
      (e.None? || e.value.transmission.None? ==> r.transmission == Val(0.0)) &&
      (e.Some? && e.value.ior.Some? && e.value.ior.value.Some? ==> r.ior == Val(e.value.ior.value.value)) &&
      (e.Some? && e.value.transmission.Some? && e.value.transmission.value.Some? ==>
        r.transmission == Val(e.value.transmission.value.value))
  {
  }

  /** A textured base colour leaves the albedo black, an untextured one without factor white. */
  lemma AlbedoDefaults(doc: Doc, m: GltfMaterial)
    requires RefsOk(doc, m) && m.pbr.Some?
    ensures var r := MaterialOf(doc, m);
      (r.albedoTex.Tex? <==> m.pbr.value.baseColorTexture.Some?) &&
      (r.albedoTex.Tex? ==> r.albedo == V3(0.0, 0.0, 0.0)) &&
      (m.pbr.value.baseColorTexture.None? && m.pbr.value.baseColorFactor.None? ==> r.albedo == V3(1.0, 1.0, 1.0))
  {
  }

  /** An emissive strength of 0 behaves as no strength at all: the emission is the factor itself. */
  lemma ZeroStrengthIsOne(doc: Doc, m: GltfMaterial, e: Extensions)
    requires RefsOk(doc, m) && m.pbr.Some? && m.emissiveFactor.Some?
    requires m.extensions == Some(e) && e.emissiveStrength == Some(0.0)
    ensures MaterialOf(doc, m).emissive == m.emissiveFactor.value
  {
  }

  /** handleGLTF's material loop: one loaded material per glTF material, in order. */
  method LoadMaterials(doc: Doc, ms: seq<GltfMaterial>) returns (materials: seq<Mat>)
    requires forall i :: 0 <= i < |ms| ==> RefsOk(doc, ms[i])
    ensures |materials| == |ms| && forall i :: 0 <= i < |ms| ==> materials[i] == MaterialOf(doc, ms[i])
  {
    materials := [];
    for i := 0 to |ms|
      invariant |materials| == i && forall k :: 0 <= k < i ==> materials[k] == MaterialOf(doc, ms[k])
    {
      materials := materials + [MaterialOf(doc, ms[i])];
    }
  }

  // ---- Triangles ----

  /**
   * One primitive after handleAttribute: the index list, the flat attribute arrays and the
   * material index (undefined -> None).
   */
  datatype Primitive = Primitive(indices: seq<nat>, positions: seq<real>, normals: seq<real>,
                                 uvs: seq<real>, tangents: seq<real>, material: Option<nat>)

  /**
   * The node transform: `place` stands for scale, quaternion rotation and translation of a
   * position, `orient` for scale, rotation and normalisation of a normal (gl-matrix).
   */
  datatype Transform = Transform(place: V3 -> V3, orient: V3 -> V3)

  /** A node, with the index of its mesh when it has one. */
  datatype Node = Node(mesh: Option<nat>, xf: Transform)

  /** Every index addresses a vertex present in all four attribute arrays. */
  predicate IndexOk(p: Primitive, index: nat) {
    3 * index + 2 < |p.positions| && 3 * index + 2 < |p.normals| && 2 * index + 1 < |p.uvs| && 4 * index + 3 < |p.tangents|
  }

  predicate PrimitiveOk(p: Primitive) {
    forall i :: 0 <= i < |p.indices| ==> IndexOk(p, p.indices[i])
  }

  /** The vertex handleGLTF builds for one index. */
  function VertexAt(p: Primitive, index: nat, xf: Transform): Vertex
    requires IndexOk(p, index)
  {
    var k3, k2, k4 := 3 * index, 2 * index, 4 * index;
    Vertex(xf.place(V3(p.positions[k3], p.positions[k3 + 1], p.positions[k3 + 2])),
           p.uvs[k2], p.uvs[k2 + 1],
           xf.orient(V3(p.normals[k3], p.normals[k3 + 1], p.normals[k3 + 2])),
           V4(p.tangents[k4], p.tangents[k4 + 1], p.tangents[k4 + 2], p.tangents[k4 + 3]))
  }

  /** The material of a primitive's triangles: its material index, 0 when undefined. */
  function MaterialIndex(p: Primitive): nat {
    if p.material.None? then 0 else p.material.value
  }

  /** The vertices of the first n indices of a primitive, in index order. */
  function Verts(p: Primitive, xf: Transform, n: nat): (r: seq<Vertex>)
    requires PrimitiveOk(p) && n <= |p.indices|
    ensures |r| == n
  {
    if n == 0 then [] else Verts(p, xf, n - 1) + [VertexAt(p, p.indices[n - 1], xf)]
  }

  /** Vertex i of the list is the vertex of index i. */
  lemma {:induction false} VertsAt(p: Primitive, xf: Transform, n: nat, i: nat)
    requires PrimitiveOk(p) && i < n <= |p.indices|
    ensures Verts(p, xf, n)[i] == VertexAt(p, p.indices[i], xf)
  {
    if i < n - 1 {
      VertsAt(p, xf, n - 1, i);
    }
  }

  /** The first n triangles cut from consecutive vertex triples. */
  function Group(vs: seq<Vertex>, material: int, n: nat): seq<Triangle>
    requires 3 * n <= |vs|
  {
    if n == 0 then [] else Group(vs, material, n - 1) + [Triangle(vs[3 * n - 3], vs[3 * n - 2], vs[3 * n - 1], material)]
  }

  /** The vertices of a list of triangles, three per triangle, in order. */
  function Ungroup(ts: seq<Triangle>): seq<Vertex> {
    if |ts| == 0 then [] else Ungroup(ts[..|ts| - 1]) + [ts[|ts| - 1].v0, ts[|ts| - 1].v1, ts[|ts| - 1].v2]
  }

  /**
   * Grouping loses nothing but the leftover indices: the triangles give back the first
   * 3 * n vertices, in order, and all carry the primitive's material.
   */
  lemma {:induction false} GroupUngroup(vs: seq<Vertex>, material: int, n: nat)
    requires 3 * n <= |vs|
    ensures |Group(vs, material, n)| == n
    ensures Ungroup(Group(vs, material, n)) == vs[..3 * n]
    ensures forall t :: 0 <= t < n ==> Group(vs, material, n)[t].material == material
  {
    if n > 0 {
      var g := Group(vs, material, n);
      GroupUngroup(vs, material, n - 1);
      assert g[..n - 1] == Group(vs, material, n - 1);
      assert vs[..3 * n] == vs[..3 * n - 3] + [vs[3 * n - 3], vs[3 * n - 2], vs[3 * n - 1]];
    }
  }

  /** One index of the loop: the vertex joins the open triangle, which closes on its third vertex. */
  lemma TriangleStep(vs: seq<Vertex>, material: int, done: nat, tri: seq<Vertex>, tris: seq<Triangle>)
    requires |tri| == 3 && 3 * done + 3 <= |vs|
    requires forall k :: 0 <= k < 3 ==> tri[k] == vs[3 * done + k]
    requires tris == Group(vs, material, done)
    ensures tris + [Triangle(tri[0], tri[1], tri[2], material)] == Group(vs, material, done + 1)
  {
  }

  /** Position i in the index list is slot r of triangle t. */
  lemma ThirdIndex(i: int, t: nat, r: int)
    requires i == 3 * t + r && 0 <= r < 3
    ensures i % 3 == r && i / 3 == t
  {
  }

  /** The triangles of one primitive: floor(|indices| / 3) of them, the leftover indices dropped. */
  function PrimitiveTris(p: Primitive, xf: Transform): seq<Triangle>
    requires PrimitiveOk(p)
  {
    Group(Verts(p, xf, |p.indices|), MaterialIndex(p), |p.indices| / 3)
  }

  /**
   * The index loop of handleGLTF for one primitive: each vertex is pushed onto `tri`, and on
   * every third index `tri` becomes a triangle and starts over.
   */
  method PrimitiveTriangles(p: Primitive, xf: Transform) returns (tris: seq<Triangle>)
    requires PrimitiveOk(p)
    ensures tris == PrimitiveTris(p, xf)
  {
    var materialIndex := if p.material.None? then 0 else p.material.value;
    ghost var vs := Verts(p, xf, |p.indices|);
    ghost var done: nat := 0;
    tris := [];
    var tri: seq<Vertex> := [];
    for i := 0 to |p.indices|
      invariant i == 3 * done + |tri| && |tri| < 3
      invariant forall k :: 0 <= k < |tri| ==> tri[k] == vs[3 * done + k]
      invariant tris == Group(vs, materialIndex, done)
    {
      var vert := VertexAt(p, p.indices[i], xf);
      VertsAt(p, xf, |p.indices|, i);
      tri := tri + [vert];
      ThirdIndex(i, done, |tri| - 1);
      if i % 3 == 2 {
        TriangleStep(vs, materialIndex, done, tri, tris);
        tris := tris + [Triangle(tri[0], tri[1], tri[2], materialIndex)];
        tri := [];
        done := done + 1;
      }
    }
    ThirdIndex(|p.indices|, done, |tri|);
  }

  /** The glTF document as handleGLTF walks it for triangles. */
  datatype Scene = Scene(nodes: seq<Node>, meshes: seq<seq<Primitive>>)

  predicate SceneOk(s: Scene) {
    forall i :: 0 <= i < |s.nodes| && s.nodes[i].mesh.Some? ==>
      s.nodes[i].mesh.value < |s.meshes| && forall j :: 0 <= j < |s.meshes[s.nodes[i].mesh.value]| ==> PrimitiveOk(s.meshes[s.nodes[i].mesh.value][j])
  }

  /** The triangles of the first n primitives of a mesh, under one node's transform. */
  function MeshTris(prims: seq<Primitive>, xf: Transform, n: nat): seq<Triangle>
    requires n <= |prims| && forall j :: 0 <= j < |prims| ==> PrimitiveOk(prims[j])
  {
    if n == 0 then [] else MeshTris(prims, xf, n - 1) + PrimitiveTris(prims[n - 1], xf)
  }

  /** The triangles of one node: none without a mesh. */
  function NodeTris(s: Scene, i: nat): seq<Triangle>
    requires SceneOk(s) && i < |s.nodes|
  {
    var node := s.nodes[i];
    if node.mesh.None? then [] else MeshTris(s.meshes[node.mesh.value], node.xf, |s.meshes[node.mesh.value]|)
  }

  /** The triangles of the first n nodes, in node order. */
  function SceneTris(s: Scene, n: nat): seq<Triangle>
    requires SceneOk(s) && n <= |s.nodes|
  {
    if n == 0 then [] else SceneTris(s, n - 1) + NodeTris(s, n - 1)
  }

  /** Every triangle of a mesh carries the material index of a primitive, or 0. */
  lemma {:induction false} MeshMaterials(prims: seq<Primitive>, xf: Transform, n: nat, bound: nat)
    requires n <= |prims| && forall j :: 0 <= j < |prims| ==> PrimitiveOk(prims[j])
    requires 0 < bound && forall j :: 0 <= j < |prims| && prims[j].material.Some? ==> prims[j].material.value < bound
    ensures forall t :: 0 <= t < |MeshTris(prims, xf, n)| ==> 0 <= MeshTris(prims, xf, n)[t].material < bound
  {
    if n > 0 {
      MeshMaterials(prims, xf, n - 1, bound);
      var p := prims[n - 1];
      GroupUngroup(Verts(p, xf, |p.indices|), MaterialIndex(p), |p.indices| / 3);
    }
  }

  /**
   * When every primitive names one of the document's materials (as glTF requires), every
   * triangle's material indexes the loaded materials.
   */
  lemma {:induction false} SceneMaterials(s: Scene, n: nat, numMaterials: nat)
    requires SceneOk(s) && n <= |s.nodes| && 0 < numMaterials
    requires forall m, j :: 0 <= m < |s.meshes| && 0 <= j < |s.meshes[m]| && s.meshes[m][j].material.Some? ==>
      s.meshes[m][j].material.value < numMaterials
    ensures forall t :: 0 <= t < |SceneTris(s, n)| ==> 0 <= SceneTris(s, n)[t].material < numMaterials
  {
    if n > 0 {
      SceneMaterials(s, n - 1, numMaterials);
      var pre, last := SceneTris(s, n - 1), NodeTris(s, n - 1);
      var node := s.nodes[n - 1];
      if node.mesh.Some? {
        var prims := s.meshes[node.mesh.value];
        MeshMaterials(prims, node.xf, |prims|, numMaterials);
        assert last == MeshTris(prims, node.xf, |prims|);
      }
      assert forall t :: 0 <= t < |last| ==> 0 <= last[t].material < numMaterials;
      forall t | 0 <= t < |pre + last| ensures 0 <= (pre + last)[t].material < numMaterials {
        if t >= |pre| {
          assert (pre + last)[t] == last[t - |pre|];
        }
      }
    }
  }

  /** handleGLTF's primitive loop for one node with a mesh. */
  method MeshTriangles(prims: seq<Primitive>, xf: Transform) returns (triangles: seq<Triangle>)
    requires forall j :: 0 <= j < |prims| ==> PrimitiveOk(prims[j])
    ensures triangles == MeshTris(prims, xf, |prims|)
  {
    triangles := [];
    for j := 0 to |prims|
      invariant triangles == MeshTris(prims, xf, j)
    {
      var tris := PrimitiveTriangles(prims[j], xf);
      triangles := triangles + tris;
    }
  }

  /** handleGLTF's node loop; numTris is the length of the result. */
  method LoadTriangles(s: Scene) returns (triangles: seq<Triangle>, numTris: nat)
    requires SceneOk(s)
    ensures triangles == SceneTris(s, |s.nodes|) && numTris == |triangles|
  {
    triangles := [];
    for i := 0 to |s.nodes|
      invariant triangles == SceneTris(s, i)
    {
      var node := s.nodes[i];
      var tris := [];
      if node.mesh.Some? {
        tris := MeshTriangles(s.meshes[node.mesh.value], node.xf);
      }
      assert tris == NodeTris(s, i);
      triangles := triangles + tris;
    }
    numTris := |triangles|;
  }
}
