/**
 * loadMaterials in compile.js: the loaded materials are packed into the MaterialData uniform
 * buffer, four vec4 arrays of one entry per material, and every texture a material names is
 * given the next layer of the texture array.
 */
module MaterialBuffer {
  import opened Common
  import opened Geometry
  import opened Gltf

  /**
   * The arrays loadMaterials builds: adata, bdata, cdata, ddata and the image list. Their
   * entries end up in a Float32Array, where an `undefined` ior or transmission is NaN.
   */
  datatype Packing = Packing(a: seq<Num>, b: seq<Num>, c: seq<Num>, d: seq<Num>, images: seq<string>)

  /** Spreading the albedo of a material that has only a name throws a TypeError. */
  datatype PackError = NoAlbedo(index: nat)

  /** What loadMaterials hands to WebGL: the uniform buffer and, in layer order, the images. */
  datatype Upload = Upload(buffer: seq<Num>, images: seq<string>)

  /** A texture pointer: the layer the texture is about to get, or -1 when there is none. */
  function Pointer(t: TexRef, next: nat): (r: Num)
    ensures r.Val? && (r.v < 0.0 <==> t.NoTex?)
  {
    if t.Tex? then Val(next as real) else Val(-1.0)
  }

  /** What `images.push` adds for a texture reference. */
  function Pushed(t: TexRef): (r: seq<string>)
    ensures |r| <= 1
  {
    if t.Tex? then [t.file] else []
  }

  /** 1 for a texture reference, 0 for none. */
  function Count(t: TexRef): nat {
    if t.Tex? then 1 else 0
  }

  /** The number of textures a material references. */
  function TexCount(m: Mat): nat {
    if m.Full? then Count(m.albedoTex) + Count(m.mrTex) + Count(m.normal) else 0
  }

  /** The textures a material uses, in the order loadMaterials visits them. */
  function Textures(m: Mat): (r: seq<string>)
    ensures |r| == TexCount(m) <= 3
  {
    if m.Full? then Pushed(m.albedoTex) + Pushed(m.mrTex) + Pushed(m.normal) else []
  }

  /**
   * What loadMaterials pushes for one material when `images.length` is next: its four entries
   * of each array, each texture pointing at the layer it is about to get, and its textures.
   */
  function Blocks(m: Mat, next: nat): (r: Packing)
    requires m.Full?
    ensures |r.a| == 4 && |r.b| == 4 && |r.c| == 4 && |r.d| == 4 && r.images == Textures(m)
  {
    var i1 := next + |Pushed(m.albedoTex)|;
    var i2 := i1 + |Pushed(m.mrTex)|;
    Packing([Val(m.albedo.x), Val(m.albedo.y), Val(m.albedo.z), Pointer(m.albedoTex, next)],
            [Val(m.metallic), Val(m.roughness), m.ior, Pointer(m.mrTex, i1)],
            [Val(m.emissive.x), Val(m.emissive.y), Val(m.emissive.z), m.transmission],
            [Val(1.0), Val(1.0), Val(1.0), Pointer(m.normal, i2)],
            Pushed(m.albedoTex) + Pushed(m.mrTex) + Pushed(m.normal))
  }

  /** Every array grown by the matching part of e. */
  function Append(p: Packing, e: Packing): Packing {
    Packing(p.a + e.a, p.b + e.b, p.c + e.c, p.d + e.d, p.images + e.images)
  }

  /** The loop body of loadMaterials for one material. */
  function PackStep(p: Packing, m: Mat): Packing
    requires m.Full?
  {
    Append(p, Blocks(m, |p.images|))
  }

  /** The first n materials all have their properties. */
  predicate FullBefore(ms: seq<Mat>, n: nat)
    requires n <= |ms|
  {
    forall k :: 0 <= k < n ==> ms[k].Full?
  }

  /** The number of texture references in the first n materials. */
  function Refs(ms: seq<Mat>, n: nat): nat
    requires n <= |ms|
  {
    if n == 0 then 0 else Refs(ms, n - 1) + TexCount(ms[n - 1])
  }

  /**
   * The arrays after the loop has visited the first n materials: four entries per material,
   * one layer per reference.
   */
  function Packed(ms: seq<Mat>, n: nat): (r: Packing)
    requires n <= |ms| && FullBefore(ms, n)
    ensures |r.a| == 4 * n && |r.b| == 4 * n && |r.c| == 4 * n && |r.d| == 4 * n
    ensures |r.images| == Refs(ms, n)
  {
    if n == 0 then Packing([], [], [], [], [])
    else PackStep(Packed(ms, n - 1), ms[n - 1])
  }

  /** One entry of each array. */
  predicate Fours(e: Packing) {
    |e.a| == 4 && |e.b| == 4 && |e.c| == 4 && |e.d| == 4
  }

  predicate Uniform(es: seq<Packing>) {
    forall i :: 0 <= i < |es| ==> Fours(es[i])
  }

  /** The first n parts of es appended one after the other. */
  function Concat(es: seq<Packing>, n: nat): (r: Packing)
    requires n <= |es| && Uniform(es)
    ensures |r.a| == 4 * n && |r.b| == 4 * n && |r.c| == 4 * n && |r.d| == 4 * n
  {
    if n == 0 then Packing([], [], [], [], []) else Append(Concat(es, n - 1), es[n - 1])
  }

  /** What each material contributes: its blocks with the layer counter at the references before it. */
  function Layout(ms: seq<Mat>): (r: seq<Packing>)
    requires FullBefore(ms, |ms|)
    ensures |r| == |ms| && Uniform(r)
    ensures forall i :: 0 <= i < |ms| ==> r[i] == Blocks(ms[i], Refs(ms, i))
  {
    seq(|ms|, (i: int) requires 0 <= i < |ms| => Blocks(ms[i], Refs(ms, i)))
  }

  /** `[...adata, ...bdata, ...cdata, ...ddata]`. */
  function Buffer(p: Packing): seq<Num> {
    p.a + p.b + p.c + p.d
  }

  /** Entries 4k..4k+3 of each array and the images r..r+t-1. */
  function EntryOf(p: Packing, k: nat, r: nat, t: nat): Packing
    requires 4 * k + 4 <= |p.a| && 4 * k + 4 <= |p.b| && 4 * k + 4 <= |p.c| && 4 * k + 4 <= |p.d|
    requires r + t <= |p.images|
  {
    Packing(p.a[4 * k..4 * k + 4], p.b[4 * k..4 * k + 4], p.c[4 * k..4 * k + 4], p.d[4 * k..4 * k + 4],
            p.images[r..r + t])
  }

  /** Appending leaves what was there. */
  lemma AppendKeeps(p: Packing, e: Packing, k: nat, r: nat, t: nat)
    requires 4 * k + 4 <= |p.a| && 4 * k + 4 <= |p.b| && 4 * k + 4 <= |p.c| && 4 * k + 4 <= |p.d|
    requires r + t <= |p.images|
    ensures EntryOf(Append(p, e), k, r, t) == EntryOf(p, k, r, t)
  {
    var q := Append(p, e);
    assert q.a[4 * k..4 * k + 4] == p.a[4 * k..4 * k + 4];
    assert q.b[4 * k..4 * k + 4] == p.b[4 * k..4 * k + 4];
    assert q.c[4 * k..4 * k + 4] == p.c[4 * k..4 * k + 4];
    assert q.d[4 * k..4 * k + 4] == p.d[4 * k..4 * k + 4];
    assert q.images[r..r + t] == p.images[r..r + t];
  }

  /** Appending four entries to arrays of 4k entries puts them at entry k. */
  lemma AppendLands(p: Packing, e: Packing, k: nat)
    requires |p.a| == 4 * k && |p.b| == 4 * k && |p.c| == 4 * k && |p.d| == 4 * k
    requires |e.a| == 4 && |e.b| == 4 && |e.c| == 4 && |e.d| == 4
    ensures EntryOf(Append(p, e), k, |p.images|, |e.images|) == e
  {
    var q := Append(p, e);
    assert q.a[4 * k..4 * k + 4] == e.a;
    assert q.b[4 * k..4 * k + 4] == e.b;
    assert q.c[4 * k..4 * k + 4] == e.c;
    assert q.d[4 * k..4 * k + 4] == e.d;
    assert q.images[|p.images|..|p.images| + |e.images|] == e.images;
  }

  /** The loop's step-by-step arrays are the materials' contributions appended in order. */
  lemma {:induction false} PackedIsConcat(ms: seq<Mat>, n: nat)
    requires FullBefore(ms, |ms|) && n <= |ms|
    ensures Packed(ms, n) == Concat(Layout(ms), n)
  {
    if n > 0 {
      var es, q := Layout(ms), Packed(ms, n - 1);
      PackedIsConcat(ms, n - 1);
      assert es[n - 1] == Blocks(ms[n - 1], |q.images|);
      assert Packed(ms, n) == Append(q, es[n - 1]);
      assert Concat(es, n) == Append(Concat(es, n - 1), es[n - 1]);
      assert Packed(ms, n) == Concat(es, n);
    }
  }

  /** The references of the first k parts come before part k's, and all within the first n. */
  lemma {:induction false} ImagesGrow(es: seq<Packing>, k: nat, n: nat)
    requires k < n <= |es| && Uniform(es)
    ensures |Concat(es, k).images| + |es[k].images| <= |Concat(es, n).images|
  {
    if n != k + 1 {
      ImagesGrow(es, k, n - 1);
    }
  }

  /** Part k of a concatenation sits at entry k, and at its offset in the image list. */
  lemma {:induction false} ConcatAt(es: seq<Packing>, n: nat, k: nat)
    requires k < n <= |es| && Uniform(es)
    ensures |Concat(es, k).images| + |es[k].images| <= |Concat(es, n).images|
    ensures EntryOf(Concat(es, n), k, |Concat(es, k).images|, |es[k].images|) == es[k]
  {
    ImagesGrow(es, k, n);
    if n == k + 1 {
      AppendLands(Concat(es, k), es[k], k);
    } else {
      ConcatAt(es, n - 1, k);
      AppendKeeps(Concat(es, n - 1), es[n - 1], k, |Concat(es, k).images|, |es[k].images|);
    }
  }

  /**
   * Material k's entries in each array are its blocks, with the layer counter at the number of
   * texture references before it, and its textures sit at those layers of the image list.
   */
  lemma PackedAt(ms: seq<Mat>, k: nat)
    requires FullBefore(ms, |ms|) && k < |ms|
    ensures Refs(ms, k) + TexCount(ms[k]) <= Refs(ms, |ms|)
    ensures EntryOf(Packed(ms, |ms|), k, Refs(ms, k), TexCount(ms[k])) == Blocks(ms[k], Refs(ms, k))
  {
    var es := Layout(ms);
    PackedIsConcat(ms, |ms|);
    PackedIsConcat(ms, k);
    ConcatAt(es, |ms|, k);
  }

  /** Refs grows with the prefix, by at least the references of every material it passes. */
  lemma {:induction false} RefsGrow(ms: seq<Mat>, k1: nat, k2: nat)
    requires k1 < k2 <= |ms|
    ensures Refs(ms, k1) + TexCount(ms[k1]) <= Refs(ms, k2)
  {
    if k2 != k1 + 1 {
      RefsGrow(ms, k1, k2 - 1);
    }
  }

  /**
   * What the shader's `ptr < 0` test sees: a negative pointer for no texture, otherwise a
   * whole number naming the layer that holds the referenced image.
   */
  predicate Resolves(images: seq<string>, ptr: Num, t: TexRef) {
    ptr.Val? &&
    if t.NoTex? then ptr.v < 0.0
    else 0.0 <= ptr.v && ptr.v == ptr.v.Floor as real && ptr.v.Floor < |images| && images[ptr.v.Floor] == t.file
  }

  /** Every pointer of every material resolves to the image it references, or to "none". */
  lemma PointersResolve(ms: seq<Mat>, k: nat)
    requires FullBefore(ms, |ms|) && k < |ms|
    ensures var p := Packed(ms, |ms|);
      Resolves(p.images, p.a[4 * k + 3], ms[k].albedoTex) &&
      Resolves(p.images, p.b[4 * k + 3], ms[k].mrTex) &&
      Resolves(p.images, p.d[4 * k + 3], ms[k].normal)
  {
    PackedAt(ms, k);
    EntryResolves(Packed(ms, |ms|), k, Refs(ms, k), ms[k]);
  }

  /** The pointers of an entry that holds a material's blocks resolve to its textures. */
  lemma EntryResolves(p: Packing, k: nat, r: nat, m: Mat)
    requires m.Full? && 4 * k + 4 <= |p.a| && 4 * k + 4 <= |p.b| && 4 * k + 4 <= |p.c| && 4 * k + 4 <= |p.d|
    requires r + TexCount(m) <= |p.images| && EntryOf(p, k, r, TexCount(m)) == Blocks(m, r)
    ensures Resolves(p.images, p.a[4 * k + 3], m.albedoTex)
    ensures Resolves(p.images, p.b[4 * k + 3], m.mrTex)
    ensures Resolves(p.images, p.d[4 * k + 3], m.normal)
    ensures p.a[4 * k + 3] == Pointer(m.albedoTex, r)
  {
    var e := EntryOf(p, k, r, TexCount(m));
    assert p.a[4 * k + 3] == e.a[3] && p.b[4 * k + 3] == e.b[3] && p.d[4 * k + 3] == e.d[3];
    assert p.images[r..r + TexCount(m)] == e.images;
    BlocksResolve(p.images, r, m);
  }

  /** The pointers of a material's blocks resolve when its textures sit at r.. of the image list. */
  lemma BlocksResolve(images: seq<string>, r: nat, m: Mat)
    requires m.Full? && r + TexCount(m) <= |images| && images[r..r + TexCount(m)] == Textures(m)
    ensures var e := Blocks(m, r);
      Resolves(images, e.a[3], m.albedoTex) && Resolves(images, e.b[3], m.mrTex) && Resolves(images, e.d[3], m.normal)
  {
    var pa, pm, pn := Pushed(m.albedoTex), Pushed(m.mrTex), Pushed(m.normal);
    var all := images[r..r + TexCount(m)];
    assert all == pa + pm + pn;
    if m.albedoTex.Tex? {
      assert images[r] == all[0] == m.albedoTex.file;
    }
    if m.mrTex.Tex? {
      assert images[r + |pa|] == all[|pa|] == m.mrTex.file;
    }
    if m.normal.Tex? {
      assert images[r + |pa| + |pm|] == all[|pa| + |pm|] == m.normal.file;
    }
    PointerResolves(images, r, m.albedoTex);
    PointerResolves(images, r + |pa|, m.mrTex);
    PointerResolves(images, r + |pa| + |pm|, m.normal);
  }

  /** A pointer written when the referenced image is at index `at` resolves to it. */
  lemma PointerResolves(images: seq<string>, at: nat, t: TexRef)
    requires t.Tex? ==> at < |images| && images[at] == t.file
    ensures Resolves(images, Pointer(t, at), t)
  {
    if t.Tex? {
      assert (at as real).Floor == at;
    }
  }

  /**
   * No deduplication: two materials with albedo textures get distinct layers, in material
   * order, even when they name the same image file.
   */
  lemma AlbedoLayersIncrease(ms: seq<Mat>, k1: nat, k2: nat)
    requires FullBefore(ms, |ms|) && k1 < k2 < |ms|
    requires ms[k1].albedoTex.Tex? && ms[k2].albedoTex.Tex?
    ensures var a := Packed(ms, |ms|).a; a[4 * k1 + 3].Val? && a[4 * k2 + 3].Val? && a[4 * k1 + 3].v < a[4 * k2 + 3].v
  {
    PackedAt(ms, k1);
    PackedAt(ms, k2);
    RefsGrow(ms, k1, k2);
    EntryResolves(Packed(ms, |ms|), k1, Refs(ms, k1), ms[k1]);
    EntryResolves(Packed(ms, |ms|), k2, Refs(ms, k2), ms[k2]);
  }

  /** One more material with its properties extends the prefix that has them. */
  lemma FullSnoc(ms: seq<Mat>, k: nat)
    requires k < |ms| && FullBefore(ms, k) && ms[k].Full?
    ensures FullBefore(ms, k + 1) && Packed(ms, k + 1) == PackStep(Packed(ms, k), ms[k])
  {
  }

  /** `if (tex == -1) data.push(-1) else { data.push(images.length); images.push(...) }` */
  method PushPointer(data: seq<Num>, images: seq<string>, t: TexRef) returns (data': seq<Num>, images': seq<string>)
    ensures data' == data + [Pointer(t, |images|)] && images' == images + Pushed(t)
  {
    if t.NoTex? {
      data', images' := data + [Val(-1.0)], images;
    } else {
      data', images' := data + [Val(|images| as real)], images + [t.file];
    }
  }

  /** The pushes of the loop body of loadMaterials for one material. */
  method PushBlocks(a: seq<Num>, b: seq<Num>, c: seq<Num>, d: seq<Num>, images: seq<string>, m: Mat)
    returns (a': seq<Num>, b': seq<Num>, c': seq<Num>, d': seq<Num>, images': seq<string>)
    requires m.Full?
    ensures Packing(a', b', c', d', images') == PackStep(Packing(a, b, c, d, images), m)
  {
    ghost var e := Blocks(m, |images|);
    a' := a + [Val(m.albedo.x), Val(m.albedo.y), Val(m.albedo.z)];
    a', images' := PushPointer(a', images, m.albedoTex);
    assert a' == a + e.a;
    b' := b + [Val(m.metallic), Val(m.roughness), m.ior];
    b', images' := PushPointer(b', images', m.mrTex);
    assert b' == b + e.b;
    c' := c + [Val(m.emissive.x), Val(m.emissive.y), Val(m.emissive.z), m.transmission];
    d' := d + [Val(1.0), Val(1.0), Val(1.0)];
    d', images' := PushPointer(d', images', m.normal);
    assert d' == d + e.d;
    assert images' == images + e.images;
  }

  /**
   * The loop body of loadMaterials for material k: when the arrays hold the packing of the
   * materials before k, they end up holding the packing up to and including k.
   */
  method PushMaterial(a: seq<Num>, b: seq<Num>, c: seq<Num>, d: seq<Num>, images: seq<string>, ghost ms: seq<Mat>, ghost k: nat, m: Mat)
    returns (a': seq<Num>, b': seq<Num>, c': seq<Num>, d': seq<Num>, images': seq<string>)
    requires k < |ms| && m == ms[k] && m.Full? && FullBefore(ms, k)
    requires Packing(a, b, c, d, images) == Packed(ms, k)
    ensures FullBefore(ms, k + 1) && Packing(a', b', c', d', images') == Packed(ms, k + 1)
  {
    a', b', c', d', images' := PushBlocks(a, b, c, d, images, m);
    PackedNext(ms, k, Packing(a, b, c, d, images), Packing(a', b', c', d', images'));
  }

  /** One PackStep on the packing of the materials before k gives the packing up to k. */
  lemma PackedNext(ms: seq<Mat>, k: nat, before: Packing, after: Packing)
    requires k < |ms| && ms[k].Full? && FullBefore(ms, k) && before == Packed(ms, k)
    requires after == PackStep(before, ms[k])
    ensures FullBefore(ms, k + 1) && after == Packed(ms, k + 1)
  {
    FullSnoc(ms, k);
  }

  /** A material with only a name means not every material has its properties. */
  lemma NotAllFull(ms: seq<Mat>, k: nat)
    requires k < |ms| && ms[k].NameOnly?
    ensures !FullBefore(ms, |ms|)
  {
    assert !ms[k].Full?;
  }

  /** The loop of loadMaterials, with the uniform buffer it builds. */
  method LoadMaterials(materials: seq<Mat>) returns (r: Result<Upload, PackError>)
    ensures r.Ok? <==> FullBefore(materials, |materials|)
    ensures r.Ok? ==> r.value == Upload(Buffer(Packed(materials, |materials|)), Packed(materials, |materials|).images)
    ensures r.Ok? ==> |r.value.buffer| == 16 * |materials|
    ensures r.Err? ==> r.error.index < |materials| && materials[r.error.index].NameOnly? &&
                       FullBefore(materials, r.error.index)
  {
    var adata: seq<Num> := [];
    var bdata: seq<Num> := [];
    var cdata: seq<Num> := [];
    var ddata: seq<Num> := [];
    var images: seq<string> := [];
    for k := 0 to |materials|
      invariant FullBefore(materials, k)
      invariant Packing(adata, bdata, cdata, ddata, images) == Packed(materials, k)
    {
      var material := materials[k];
      if material.NameOnly? {
        r := Err(NoAlbedo(k));
        NotAllFull(materials, k);
        return;
      }
      adata, bdata, cdata, ddata, images := PushMaterial(adata, bdata, cdata, ddata, images, materials, k, material);
    }
    ghost var p := Packed(materials, |materials|);
    assert adata == p.a && bdata == p.b && cdata == p.c && ddata == p.d && images == p.images;
    r := Ok(Upload(adata + bdata + cdata + ddata, images));
  }

  // ---- The shader's view of the buffer ----

  /**
   * Entry k of the q-th vec4 array of the std140 block MaterialData with NUM_MATERIALS = n:
   * colAlbedoP, rmIORP, emissiveAndAlpha, blankAndNormal for q = 0..3.
   */
  function Block(buffer: seq<Num>, n: nat, q: nat, k: nat): (r: seq<Num>)
    requires q < 4 && k < n && |buffer| == 16 * n
    ensures |r| == 4
  {
    buffer[4 * n * q + 4 * k..4 * n * q + 4 * k + 4]
  }

  /** The constant part of a material as getMaterial unpacks it, and the texture layers it samples. */
  datatype MatView = MatView(albedo: NumV3, albedoLayer: Option<int>, metallic: Num, roughness: Num,
                             mrLayer: Option<int>, ior: Num, emissive: NumV3, transmission: Num,
                             normalLayer: Option<int>)

  /** A vec3 read from the buffer, whose components may be NaN. */
  datatype NumV3 = NumV3(x: Num, y: Num, z: Num)

  /** A vector of numbers as the buffer holds it. */
  function Nums(v: V3): NumV3 {
    NumV3(Val(v.x), Val(v.y), Val(v.z))
  }

  /**
   * A pointer read by the shader: no texture when negative, else the layer it names. Pointers
   * are never NaN (Pointer), so a NaN is read as no texture here.
   */
  function Layer(ptr: Num): Option<int> {
    if ptr.NaN? || ptr.v < 0.0 then None else Some(ptr.v.Floor)
  }

  /** The reads of getMaterial for material k, without the texture sampling. */
  function ReadMaterial(buffer: seq<Num>, n: nat, k: nat): MatView
    requires k < n && |buffer| == 16 * n
  {
    var a, b, c, d := Block(buffer, n, 0, k), Block(buffer, n, 1, k), Block(buffer, n, 2, k), Block(buffer, n, 3, k);
    MatView(NumV3(a[0], a[1], a[2]), Layer(a[3]), b[0], b[1], Layer(b[3]), b[2], NumV3(c[0], c[1], c[2]), c[3], Layer(d[3]))
  }

  /** Where a texture reference lands: None when absent, else the layer holding its image. */
  predicate LayerOk(images: seq<string>, l: Option<int>, t: TexRef) {
    if t.NoTex? then l.None? else l.Some? && 0 <= l.value < |images| && images[l.value] == t.file
  }

  /**
   * Reading the buffer back with NUM_MATERIALS equal to the number of materials returns each
   * material's values, and each texture test sees exactly the textures the material has.
   */
  lemma ReadBack(ms: seq<Mat>, k: nat)
    requires FullBefore(ms, |ms|) && k < |ms|
    ensures var p, m := Packed(ms, |ms|), ms[k];
      var v := ReadMaterial(Buffer(p), |ms|, k);
      v.albedo == Nums(m.albedo) && v.metallic == Val(m.metallic) && v.roughness == Val(m.roughness) && v.ior == m.ior &&
      v.emissive == Nums(m.emissive) && v.transmission == m.transmission &&
      LayerOk(p.images, v.albedoLayer, m.albedoTex) && LayerOk(p.images, v.mrLayer, m.mrTex) &&
      LayerOk(p.images, v.normalLayer, m.normal)
  {
    PackedAt(ms, k);
    EntryResolves(Packed(ms, |ms|), k, Refs(ms, k), ms[k]);
    EntryRead(Packed(ms, |ms|), |ms|, k, Refs(ms, k), ms[k]);
  }

  /** Reading back an entry that holds a material's blocks gives the material's values and pointers. */
  lemma EntryRead(p: Packing, n: nat, k: nat, r: nat, m: Mat)
    requires m.Full? && k < n && |p.a| == 4 * n && |p.b| == 4 * n && |p.c| == 4 * n && |p.d| == 4 * n
    requires r + TexCount(m) <= |p.images| && EntryOf(p, k, r, TexCount(m)) == Blocks(m, r)
    ensures var v := ReadMaterial(Buffer(p), n, k);
      v.albedo == Nums(m.albedo) && v.metallic == Val(m.metallic) && v.roughness == Val(m.roughness) && v.ior == m.ior &&
      v.emissive == Nums(m.emissive) && v.transmission == m.transmission &&
      v.albedoLayer == Layer(p.a[4 * k + 3]) && v.mrLayer == Layer(p.b[4 * k + 3]) && v.normalLayer == Layer(p.d[4 * k + 3])
  {
    BufferBlocks(p, n, k);
    BlocksRead(Buffer(p), n, k, Blocks(m, r), m, r);
  }

  /** Entry k of array q sits at 4·n·q + 4k of the concatenated buffer. */
  lemma BufferBlocks(p: Packing, n: nat, k: nat)
    requires k < n && |p.a| == 4 * n && |p.b| == 4 * n && |p.c| == 4 * n && |p.d| == 4 * n
    ensures Block(Buffer(p), n, 0, k) == p.a[4 * k..4 * k + 4]
    ensures Block(Buffer(p), n, 1, k) == p.b[4 * k..4 * k + 4]
    ensures Block(Buffer(p), n, 2, k) == p.c[4 * k..4 * k + 4]
    ensures Block(Buffer(p), n, 3, k) == p.d[4 * k..4 * k + 4]
  {
    var buf := Buffer(p);
    assert Block(buf, n, 0, k) == p.a[4 * k..4 * k + 4];
    assert Block(buf, n, 1, k) == p.b[4 * k..4 * k + 4];
    assert Block(buf, n, 2, k) == p.c[4 * k..4 * k + 4];
    assert Block(buf, n, 3, k) == p.d[4 * k..4 * k + 4];
  }

  /** The shader's reads of four blocks that hold a material's pushes give back its values. */
  lemma BlocksRead(buf: seq<Num>, n: nat, k: nat, e: Packing, m: Mat, r: nat)
    requires m.Full? && k < n && |buf| == 16 * n && e == Blocks(m, r)
    requires Block(buf, n, 0, k) == e.a && Block(buf, n, 1, k) == e.b
    requires Block(buf, n, 2, k) == e.c && Block(buf, n, 3, k) == e.d
    ensures var v := ReadMaterial(buf, n, k);
      v.albedo == Nums(m.albedo) && v.metallic == Val(m.metallic) && v.roughness == Val(m.roughness) && v.ior == m.ior &&
      v.emissive == Nums(m.emissive) && v.transmission == m.transmission &&
      v.albedoLayer == Layer(e.a[3]) && v.mrLayer == Layer(e.b[3]) && v.normalLayer == Layer(e.d[3])
  {
  }
}
