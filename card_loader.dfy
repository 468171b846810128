/**
 * Binding the configured names of the business-card model to its scene-graph nodes:
 * the descriptor loops of `loadModel2` (index.js:146-186) and the prefix filters and
 * texture choice of `loadModel1` (index.js:110-143).
 */
module CardLoader {
  import opened Wrappers
  import opened SceneTree
  import opened Materials

  /** A surface to texture: the node name from the authoring tool and the image file for it. */
  datatype SurfaceDesc = SurfaceDesc(name: string, textureFile: string)

  /** A sheet object that gets the plain material. */
  datatype ObjectDesc = ObjectDesc(name: string)

  /** `surfaceDics` of `loadModel2`. */
  const SurfaceDescs: seq<SurfaceDesc> := [
    SurfaceDesc("Surface_main_front", "./models/hcard_page1.png"),
    SurfaceDesc("Surface_main_back", "./models/hcard_page2.png"),
    SurfaceDesc("Surface_main_in_up", "./models/hcard_page4.png"),
    SurfaceDesc("Surface_main_in_down", "./models/hcard_page4.png")
  ]

  /** `sheetObjectDics` of `loadModel2`. */
  const SheetObjectDescs: seq<ObjectDesc> := [ObjectDesc("Object_main1"), ObjectDesc("Object_main2")]

  /** The two page images of `loadModel1`. */
  const TextureFileP1: string := "./models/hcard_page1.png"
  const TextureFileP2: string := "./models/hcard_page2.png"

  function ObjectNames(descs: seq<ObjectDesc>): seq<string>
  {
    seq(|descs|, j requires 0 <= j < |descs| => descs[j].name)
  }

  function SurfaceNames(descs: seq<SurfaceDesc>): seq<string>
  {
    seq(|descs|, j requires 0 <= j < |descs| => descs[j].name)
  }

  function TextureFiles(descs: seq<SurfaceDesc>): seq<string>
  {
    seq(|descs|, j requires 0 <= j < |descs| => descs[j].textureFile)
  }

  // ---------------------------------------------------------------------------
  // loadModel2: lookup by exact name
  // ---------------------------------------------------------------------------

  /** Every name is found by the search under `root`. */
  ghost predicate AllFound(root: Node, names: seq<string>)
  {
    forall j :: 0 <= j < |names| ==> Lookup(root, names[j]).Some?
  }

  /** How many leading names the search finds before the first one it misses. */
  function FoundPrefix(root: Node, names: seq<string>): (k: nat)
    ensures k <= |names|
    ensures forall j :: 0 <= j < k ==> Lookup(root, names[j]).Some?
    ensures k < |names| ==> Lookup(root, names[k]).None?
  {
    if names == [] then 0
    else if Lookup(root, names[0]).None? then 0
    else 1 + FoundPrefix(root, names[1..])
  }

  /** The position of the first name the search misses, if any: where the loops of `loadModel2` fault. */
  function FirstMiss(root: Node, names: seq<string>): Option<nat>
  {
    var k := FoundPrefix(root, names);
    if k < |names| then Some(k) else None
  }

  /** The nodes the search finds for names that are all found, in name order. */
  function Resolve(root: Node, names: seq<string>): seq<Node>
    requires AllFound(root, names)
  {
    seq(|names|, j requires 0 <= j < |names| => Lookup(root, names[j]).value)
  }

  /** The identities of the nodes found for the names that are found. */
  function NamedIds(root: Node, names: seq<string>): set<NodeId>
  {
    set j | 0 <= j < |names| && Lookup(root, names[j]).Some? :: Lookup(root, names[j]).value.id
  }

  /** The plain-material assignments to `nodes`, in order. */
  function ObjectWrites(nodes: seq<Node>): seq<Write>
  {
    seq(|nodes|, j requires 0 <= j < |nodes| => Write(nodes[j].id, PlainMaterial()))
  }

  /** The textured-material assignments: `nodes[j]` gets `textures[j]`. */
  function SurfaceWrites(nodes: seq<Node>, textures: seq<Texture>): seq<Write>
    requires |nodes| == |textures|
  {
    seq(|nodes|, j requires 0 <= j < |nodes| => Write(nodes[j].id, TexturedMaterial(textures[j])))
  }

  /** The handles of the load requests numbered `first`, `first + 1`, … for `files`. */
  function LoadedTextures(first: nat, files: seq<string>): seq<Texture>
  {
    seq(|files|, j requires 0 <= j < |files| => Texture(first + j, files[j]))
  }

  /** The materials after the object loop (index.js:169-173) ran from `m` until it bound every descriptor or met the first miss. */
  function ObjectLoop(root: Node, descs: seq<ObjectDesc>, m: map<NodeId, Material>): map<NodeId, Material>
  {
    var names := ObjectNames(descs);
    AssignAll(m, ObjectWrites(Resolve(root, names[..FoundPrefix(root, names)])))
  }

  /** The nodes the surface loop (index.js:176-186) pushes into `surfaces`. */
  function SurfaceLoopNodes(root: Node, descs: seq<SurfaceDesc>): seq<Node>
  {
    var names := SurfaceNames(descs);
    Resolve(root, names[..FoundPrefix(root, names)])
  }

  /** The image files the surface loop requests: each descriptor's file is requested before its lookup, the missed one included. */
  function SurfaceLoopRequests(root: Node, descs: seq<SurfaceDesc>): seq<string>
  {
    var k := FoundPrefix(root, SurfaceNames(descs));
    TextureFiles(descs)[..if k < |descs| then k + 1 else k]
  }

  /** The materials after the surface loop, when the texture loads it makes are numbered from `first`. */
  function SurfaceLoopMaterials(root: Node, descs: seq<SurfaceDesc>, m: map<NodeId, Material>, first: nat): map<NodeId, Material>
  {
    var k := FoundPrefix(root, SurfaceNames(descs));
    AssignAll(m, SurfaceWrites(SurfaceLoopNodes(root, descs), LoadedTextures(first, TextureFiles(descs)[..k])))
  }

  lemma ResolveSnoc(root: Node, names: seq<string>, i: nat)
    requires i < |names| && AllFound(root, names[..i + 1])
    ensures AllFound(root, names[..i])
    ensures Resolve(root, names[..i + 1]) == Resolve(root, names[..i]) + [Lookup(root, names[i]).value]
  {
    assert forall j :: 0 <= j < i ==> names[..i][j] == names[..i + 1][j];
  }

  lemma AllFoundSnoc(root: Node, names: seq<string>, i: nat)
    requires i < |names| && AllFound(root, names[..i]) && Lookup(root, names[i]).Some?
    ensures AllFound(root, names[..i + 1])
  {
    var pre, longer := names[..i], names[..i + 1];
    forall j | 0 <= j < |longer| ensures Lookup(root, longer[j]).Some? {
      if j < i { assert longer[j] == pre[j]; }
    }
  }

  lemma ObjectWritesSnoc(nodes: seq<Node>, n: Node)
    ensures ObjectWrites(nodes + [n]) == ObjectWrites(nodes) + [Write(n.id, PlainMaterial())]
  {
  }

  lemma SurfaceWritesSnoc(nodes: seq<Node>, textures: seq<Texture>, n: Node, t: Texture)
    requires |nodes| == |textures|
    ensures SurfaceWrites(nodes + [n], textures + [t]) == SurfaceWrites(nodes, textures) + [Write(n.id, TexturedMaterial(t))]
  {
  }

  lemma LoadedTexturesSnoc(first: nat, files: seq<string>, i: nat)
    requires i < |files|
    ensures LoadedTextures(first, files[..i + 1]) == LoadedTextures(first, files[..i]) + [Texture(first + i, files[i])]
  {
  }

  lemma SurfaceChoicesSnoc(surfs: seq<Node>, i: nat, p1: Texture, p2: Texture)
    requires i < |surfs|
    ensures SurfaceChoices(surfs[..i + 1], p1, p2) == SurfaceChoices(surfs[..i], p1, p2) + [ChooseTexture(surfs[i].name, p1, p2)]
  {
  }

  /** One pass of the object loop that finds descriptor `i`: its node gets the plain material. */
  lemma ObjectLoopStep(root: Node, descs: seq<ObjectDesc>, m: map<NodeId, Material>, i: nat)
    requires i < |descs| && AllFound(root, ObjectNames(descs)[..i]) && Lookup(root, descs[i].name).Some?
    ensures AllFound(root, ObjectNames(descs)[..i + 1])
    ensures AssignAll(m, ObjectWrites(Resolve(root, ObjectNames(descs)[..i + 1]))) ==
      AssignAll(m, ObjectWrites(Resolve(root, ObjectNames(descs)[..i])))[Lookup(root, descs[i].name).value.id := PlainMaterial()]
  {
    var names := ObjectNames(descs);
    assert names[i] == descs[i].name;
    AllFoundSnoc(root, names, i);
    ResolveSnoc(root, names, i);
    var before := Resolve(root, names[..i]);
    var n := Lookup(root, descs[i].name).value;
    ObjectWritesSnoc(before, n);
    AssignAllSnoc(m, ObjectWrites(before), Write(n.id, PlainMaterial()));
  }

  /** The object loop, stopped after binding the first `k` descriptors because the next one is missed or none is left. */
  lemma ObjectLoopStopsAt(root: Node, descs: seq<ObjectDesc>, m: map<NodeId, Material>, k: nat)
    requires k <= |descs|
    requires AllFound(root, ObjectNames(descs)[..k])
    requires k < |descs| ==> Lookup(root, descs[k].name).None?
    ensures FirstMiss(root, ObjectNames(descs)) == if k < |descs| then Some(k) else None
    ensures ObjectLoop(root, descs, m) == AssignAll(m, ObjectWrites(Resolve(root, ObjectNames(descs)[..k])))
  {
    var names := ObjectNames(descs);
    assert forall j :: 0 <= j < k ==> names[..k][j] == names[j];
    assert k < |descs| ==> names[k] == descs[k].name;
    assert FoundPrefix(root, names) == k;
  }

  /** One pass of the surface loop that finds descriptor `i`: its node is pushed and given the texture of request `first + i`. */
  lemma SurfaceLoopStep(root: Node, descs: seq<SurfaceDesc>, m: map<NodeId, Material>, first: nat, i: nat)
    requires i < |descs| && AllFound(root, SurfaceNames(descs)[..i]) && Lookup(root, descs[i].name).Some?
    ensures AllFound(root, SurfaceNames(descs)[..i + 1])
    ensures Resolve(root, SurfaceNames(descs)[..i + 1]) ==
      Resolve(root, SurfaceNames(descs)[..i]) + [Lookup(root, descs[i].name).value]
    ensures TextureFiles(descs)[..i + 1] == TextureFiles(descs)[..i] + [descs[i].textureFile]
    ensures AssignAll(m, SurfaceWrites(Resolve(root, SurfaceNames(descs)[..i + 1]), LoadedTextures(first, TextureFiles(descs)[..i + 1]))) ==
      AssignAll(m, SurfaceWrites(Resolve(root, SurfaceNames(descs)[..i]), LoadedTextures(first, TextureFiles(descs)[..i])))
        [Lookup(root, descs[i].name).value.id := TexturedMaterial(Texture(first + i, descs[i].textureFile))]
  {
    var names, files := SurfaceNames(descs), TextureFiles(descs);
    assert names[i] == descs[i].name;
    AllFoundSnoc(root, names, i);
    ResolveSnoc(root, names, i);
    assert files[i] == descs[i].textureFile;
    assert files[..i + 1] == files[..i] + [files[i]];
    var before := Resolve(root, names[..i]);
    var textures := LoadedTextures(first, files[..i]);
    var n := Lookup(root, descs[i].name).value;
    var t := Texture(first + i, descs[i].textureFile);
    LoadedTexturesSnoc(first, files, i);
    SurfaceWritesSnoc(before, textures, n, t);
    AssignAllSnoc(m, SurfaceWrites(before, textures), Write(n.id, TexturedMaterial(t)));
  }

  /** The surface loop, stopped after binding the first `k` descriptors because the next one is missed or none is left. */
  lemma SurfaceLoopStopsAt(root: Node, descs: seq<SurfaceDesc>, m: map<NodeId, Material>, first: nat, k: nat)
    requires k <= |descs|
    requires AllFound(root, SurfaceNames(descs)[..k])
    requires k < |descs| ==> Lookup(root, descs[k].name).None?
    ensures FirstMiss(root, SurfaceNames(descs)) == if k < |descs| then Some(k) else None
    ensures SurfaceLoopNodes(root, descs) == Resolve(root, SurfaceNames(descs)[..k])
    ensures SurfaceLoopRequests(root, descs) == TextureFiles(descs)[..if k < |descs| then k + 1 else k]
    ensures SurfaceLoopMaterials(root, descs, m, first) ==
      AssignAll(m, SurfaceWrites(Resolve(root, SurfaceNames(descs)[..k]), LoadedTextures(first, TextureFiles(descs)[..k])))
  {
    var names := SurfaceNames(descs);
    assert forall j :: 0 <= j < k ==> names[..k][j] == names[j];
    assert k < |descs| ==> names[k] == descs[k].name;
    assert FoundPrefix(root, names) == k;
  }

  /** A loop of `loadModel2` faults exactly when some name is not found, and then at the first such name. */
  lemma FoundPrefixIsFirstMiss(root: Node, names: seq<string>)
    ensures FirstMiss(root, names).None? <==> AllFound(root, names)
    ensures FirstMiss(root, names).Some? ==>
      var k := FirstMiss(root, names).value;
      k < |names| && Lookup(root, names[k]).None? && forall j :: 0 <= j < k ==> Lookup(root, names[j]).Some?
  {
  }

  /** Searches for pairwise different names that all succeed find pairwise different objects. */
  lemma ResolvedIdsDistinct(root: Node, names: seq<string>)
    requires UniqueIds(root) && AllFound(root, names)
    requires forall a, b :: 0 <= a < b < |names| ==> names[a] != names[b]
    ensures forall a, b :: 0 <= a < b < |names| ==> Resolve(root, names)[a].id != Resolve(root, names)[b].id
  {
    forall a, b | 0 <= a < b < |names|
      ensures Resolve(root, names)[a].id != Resolve(root, names)[b].id
    {
      DifferentNamesDifferentIds(root, names[a], names[b]);
    }
  }

  /** The nodes the object loop writes are exactly the nodes named by its descriptors. */
  lemma WrittenIdsOfObjects(root: Node, names: seq<string>)
    requires AllFound(root, names)
    ensures WrittenIds(ObjectWrites(Resolve(root, names))) == NamedIds(root, names)
  {
    var ow := ObjectWrites(Resolve(root, names));
    forall id | id in NamedIds(root, names) ensures id in WrittenIds(ow) {
      var j :| 0 <= j < |names| && Lookup(root, names[j]).Some? && Lookup(root, names[j]).value.id == id;
      assert ow[j].id == id;
    }
  }

  /** The nodes the surface loop writes are exactly the nodes named by its descriptors. */
  lemma WrittenIdsOfSurfaces(root: Node, names: seq<string>, textures: seq<Texture>)
    requires AllFound(root, names) && |textures| == |names|
    ensures WrittenIds(SurfaceWrites(Resolve(root, names), textures)) == NamedIds(root, names)
  {
    var sw := SurfaceWrites(Resolve(root, names), textures);
    forall id | id in NamedIds(root, names) ensures id in WrittenIds(sw) {
      var j :| 0 <= j < |names| && Lookup(root, names[j]).Some? && Lookup(root, names[j]).value.id == id;
      assert sw[j].id == id;
    }
  }

  /** When every object name is found, the object loop performs one plain-material assignment per descriptor. */
  lemma ObjectLoopAllFound(root: Node, objs: seq<ObjectDesc>, m: map<NodeId, Material>)
    requires AllFound(root, ObjectNames(objs))
    ensures ObjectLoop(root, objs, m) == AssignAll(m, ObjectWrites(Resolve(root, ObjectNames(objs))))
  {
    FoundPrefixIsFirstMiss(root, ObjectNames(objs));
    assert ObjectNames(objs)[..|objs|] == ObjectNames(objs);
  }

  /** When every surface name is found, the surface loop binds every descriptor to the texture loaded for it. */
  lemma SurfaceLoopAllFound(root: Node, surfs: seq<SurfaceDesc>, m: map<NodeId, Material>, first: nat)
    requires AllFound(root, SurfaceNames(surfs))
    ensures SurfaceLoopNodes(root, surfs) == Resolve(root, SurfaceNames(surfs))
    ensures SurfaceLoopRequests(root, surfs) == TextureFiles(surfs)
    ensures SurfaceLoopMaterials(root, surfs, m, first) ==
      AssignAll(m, SurfaceWrites(Resolve(root, SurfaceNames(surfs)), LoadedTextures(first, TextureFiles(surfs))))
  {
    FoundPrefixIsFirstMiss(root, SurfaceNames(surfs));
    assert SurfaceNames(surfs)[..|surfs|] == SurfaceNames(surfs);
    assert TextureFiles(surfs)[..|surfs|] == TextureFiles(surfs);
  }

  /** The surface loop never touches a node found for an object name that no surface descriptor shares. */
  lemma SurfacesSpareObjects(root: Node, objs: seq<ObjectDesc>, surfs: seq<SurfaceDesc>, textures: seq<Texture>)
    requires UniqueIds(root)
    requires AllFound(root, ObjectNames(objs)) && AllFound(root, SurfaceNames(surfs))
    requires |textures| == |surfs|
    ensures forall j :: 0 <= j < |objs| && (forall b :: 0 <= b < |surfs| ==> objs[j].name != surfs[b].name) ==>
      Resolve(root, ObjectNames(objs))[j].id !in WrittenIds(SurfaceWrites(Resolve(root, SurfaceNames(surfs)), textures))
  {
    var sw := SurfaceWrites(Resolve(root, SurfaceNames(surfs)), textures);
    forall j, l | 0 <= j < |objs| && (forall b :: 0 <= b < |surfs| ==> objs[j].name != surfs[b].name) && 0 <= l < |surfs|
      ensures sw[l].id != Resolve(root, ObjectNames(objs))[j].id
    {
      assert ObjectNames(objs)[j] == objs[j].name && SurfaceNames(surfs)[l] == surfs[l].name;
      DifferentNamesDifferentIds(root, ObjectNames(objs)[j], SurfaceNames(surfs)[l]);
    }
  }

  /** What the wiring lemmas of `loadModel2` assume: all names found, ids are identities, no surface name repeats or names an object. */
  ghost predicate WellConfigured(root: Node, objs: seq<ObjectDesc>, surfs: seq<SurfaceDesc>)
  {
    && UniqueIds(root)
    && AllFound(root, ObjectNames(objs)) && AllFound(root, SurfaceNames(surfs))
    && (forall a, b :: 0 <= a < b < |surfs| ==> surfs[a].name != surfs[b].name)
    && (forall a, b :: 0 <= a < |objs| && 0 <= b < |surfs| ==> objs[a].name != surfs[b].name)
  }

  /** After both loops of `loadModel2`, every node named by an object descriptor has the plain material. */
  lemma BoundObjectsPlain(root: Node, objs: seq<ObjectDesc>, surfs: seq<SurfaceDesc>, m: map<NodeId, Material>, first: nat)
    requires WellConfigured(root, objs, surfs)
    ensures var r := SurfaceLoopMaterials(root, surfs, ObjectLoop(root, objs, m), first);
      forall j :: 0 <= j < |objs| ==>
        var n := Resolve(root, ObjectNames(objs))[j];
        n.name == objs[j].name && n.id in r && r[n.id] == PlainMaterial()
  {
    var textures := LoadedTextures(first, TextureFiles(surfs));
    var ow := ObjectWrites(Resolve(root, ObjectNames(objs)));
    var sw := SurfaceWrites(Resolve(root, SurfaceNames(surfs)), textures);
    var m1 := AssignAll(m, ow);
    ObjectLoopAllFound(root, objs, m);
    SurfaceLoopAllFound(root, surfs, m1, first);
    AssignAllUniform(m, ow, PlainMaterial());
    SurfacesSpareObjects(root, objs, surfs, textures);
    var r := AssignAll(m1, sw);
    assert SurfaceLoopMaterials(root, surfs, ObjectLoop(root, objs, m), first) == r;
    forall j | 0 <= j < |objs|
      ensures var n := Resolve(root, ObjectNames(objs))[j];
        n.name == objs[j].name && n.id in r && r[n.id] == PlainMaterial()
    {
      var n := Resolve(root, ObjectNames(objs))[j];
      assert ObjectNames(objs)[j] == objs[j].name;
      assert ow[j].id == n.id;
      AssignAllSpares(m1, sw, n.id);
    }
  }

  /** After both loops of `loadModel2`, every surface node maps the texture loaded from its own descriptor's file. */
  lemma BoundSurfacesTextured(root: Node, objs: seq<ObjectDesc>, surfs: seq<SurfaceDesc>, m: map<NodeId, Material>, first: nat)
    requires UniqueIds(root)
    requires AllFound(root, ObjectNames(objs)) && AllFound(root, SurfaceNames(surfs))
    requires forall a, b :: 0 <= a < b < |surfs| ==> surfs[a].name != surfs[b].name
    ensures var r := SurfaceLoopMaterials(root, surfs, ObjectLoop(root, objs, m), first);
      forall j :: 0 <= j < |surfs| ==>
        var n := Resolve(root, SurfaceNames(surfs))[j];
        n.name == surfs[j].name && n.id in r &&
        r[n.id] == TexturedMaterial(Texture(first + j, surfs[j].textureFile))
  {
    var sn := SurfaceNames(surfs);
    var nodes := Resolve(root, sn);
    var ts := LoadedTextures(first, TextureFiles(surfs));
    var sw := SurfaceWrites(nodes, ts);
    var m1 := ObjectLoop(root, objs, m);
    SurfaceLoopAllFound(root, surfs, m1, first);
    ResolvedIdsDistinct(root, sn);
    var r := AssignAll(m1, sw);
    assert SurfaceLoopMaterials(root, surfs, m1, first) == r;
    forall j | 0 <= j < |surfs|
      ensures nodes[j].name == surfs[j].name && nodes[j].id in r &&
        r[nodes[j].id] == TexturedMaterial(Texture(first + j, surfs[j].textureFile))
    {
      assert sn[j] == surfs[j].name;
      assert ts[j] == Texture(first + j, surfs[j].textureFile);
      assert sw[j].id == nodes[j].id && sw[j].material == TexturedMaterial(ts[j]);
      assert forall l :: j < l < |sw| ==> sw[l].id == nodes[l].id;
      AssignAllLastWrite(m1, sw, j);
    }
  }

  /** Both loops of `loadModel2` change the material of the nodes named by descriptors and of no other node. */
  lemma BindingFrame(root: Node, objs: seq<ObjectDesc>, surfs: seq<SurfaceDesc>, m: map<NodeId, Material>, first: nat)
    requires AllFound(root, ObjectNames(objs)) && AllFound(root, SurfaceNames(surfs))
    ensures var r := SurfaceLoopMaterials(root, surfs, ObjectLoop(root, objs, m), first);
      var bound := NamedIds(root, ObjectNames(objs)) + NamedIds(root, SurfaceNames(surfs));
      r.Keys == m.Keys + bound && r - bound == m - bound
  {
    var on, sn := ObjectNames(objs), SurfaceNames(surfs);
    var textures := LoadedTextures(first, TextureFiles(surfs));
    var ow := ObjectWrites(Resolve(root, on));
    var sw := SurfaceWrites(Resolve(root, sn), textures);
    var m1 := AssignAll(m, ow);
    var r := AssignAll(m1, sw);
    ObjectLoopAllFound(root, objs, m);
    SurfaceLoopAllFound(root, surfs, m1, first);
    AssignAllFrame(m, ow);
    AssignAllFrame(m1, sw);
    WrittenIdsOfObjects(root, on);
    WrittenIdsOfSurfaces(root, sn, textures);
    MinusCompose(m, m1, r, NamedIds(root, on), NamedIds(root, sn));
  }

  /**
   * What the surface loop leaves in `surfaces` and in the request list: one node per descriptor
   * before the first miss, found under `root` and carrying that descriptor's name, and one request
   * per descriptor it reached, the faulting one included.
   */
  lemma SurfaceLoopShape(root: Node, descs: seq<SurfaceDesc>)
    ensures var nodes := SurfaceLoopNodes(root, descs);
      && |nodes| == FoundPrefix(root, SurfaceNames(descs))
      && forall j :: 0 <= j < |nodes| ==> nodes[j] in Descendants(root) && nodes[j].name == descs[j].name
    ensures var reqs := SurfaceLoopRequests(root, descs);
      && |reqs| == |SurfaceLoopNodes(root, descs)| + (if FirstMiss(root, SurfaceNames(descs)).Some? then 1 else 0)
      && forall j :: 0 <= j < |reqs| ==> reqs[j] == descs[j].textureFile
  {
    var names := SurfaceNames(descs);
    var k := FoundPrefix(root, names);
    forall j | 0 <= j < k
      ensures SurfaceLoopNodes(root, descs)[j] in Descendants(root) && SurfaceLoopNodes(root, descs)[j].name == descs[j].name
    {
      assert names[..k][j] == names[j] == descs[j].name;
      LookupIsProperDescendant(root, names[j]);
    }
  }

  /** The found names of a prefix of `names` are found names of `names`. */
  lemma NamedIdsOfPrefix(root: Node, names: seq<string>, k: nat)
    requires k <= |names|
    ensures NamedIds(root, names[..k]) <= NamedIds(root, names)
  {
    forall id | id in NamedIds(root, names[..k]) ensures id in NamedIds(root, names) {
      var j :| 0 <= j < k && Lookup(root, names[..k][j]).Some? && Lookup(root, names[..k][j]).value.id == id;
      assert names[..k][j] == names[j];
    }
  }

  /** The object loop, whether it binds every descriptor or faults, changes no node but those found for its names. */
  lemma ObjectLoopFrame(root: Node, objs: seq<ObjectDesc>, m: map<NodeId, Material>)
    ensures var named := NamedIds(root, ObjectNames(objs));
      ObjectLoop(root, objs, m) - named == m - named
  {
    var names := ObjectNames(objs);
    var pre := names[..FoundPrefix(root, names)];
    var ws := ObjectWrites(Resolve(root, pre));
    WrittenIdsOfObjects(root, pre);
    AssignAllFrame(m, ws);
    NamedIdsOfPrefix(root, names, FoundPrefix(root, names));
    MinusWiden(m, AssignAll(m, ws), WrittenIds(ws), NamedIds(root, names));
  }

  /** The surface loop, whether it binds every descriptor or faults, changes no node but those found for its names. */
  lemma SurfaceLoopFrame(root: Node, surfs: seq<SurfaceDesc>, m: map<NodeId, Material>, first: nat)
    ensures var named := NamedIds(root, SurfaceNames(surfs));
      SurfaceLoopMaterials(root, surfs, m, first) - named == m - named
  {
    var names := SurfaceNames(surfs);
    var k := FoundPrefix(root, names);
    var ts := LoadedTextures(first, TextureFiles(surfs)[..k]);
    var ws := SurfaceWrites(Resolve(root, names[..k]), ts);
    WrittenIdsOfSurfaces(root, names[..k], ts);
    AssignAllFrame(m, ws);
    NamedIdsOfPrefix(root, names, k);
    MinusWiden(m, AssignAll(m, ws), WrittenIds(ws), NamedIds(root, names));
  }

  /** A run of `loadModel2` that faults in the surface loop, or finishes, changes no node but those found for a descriptor name. */
  lemma PartialBindingFrame(root: Node, objs: seq<ObjectDesc>, surfs: seq<SurfaceDesc>, m: map<NodeId, Material>, first: nat)
    ensures var r := SurfaceLoopMaterials(root, surfs, ObjectLoop(root, objs, m), first);
      var named := NamedIds(root, ObjectNames(objs)) + NamedIds(root, SurfaceNames(surfs));
      r - named == m - named
  {
    var m1 := ObjectLoop(root, objs, m);
    ObjectLoopFrame(root, objs, m);
    SurfaceLoopFrame(root, surfs, m1, first);
    MinusCompose(m, m1, SurfaceLoopMaterials(root, surfs, m1, first), NamedIds(root, ObjectNames(objs)), NamedIds(root, SurfaceNames(surfs)));
  }

  /** The configured descriptor names of `loadModel2` are pairwise different, as `WellConfigured` asks. */
  lemma ConfiguredNamesDistinct()
    ensures forall a, b :: 0 <= a < b < |SurfaceDescs| ==> SurfaceDescs[a].name != SurfaceDescs[b].name
    ensures forall a, b :: 0 <= a < |SheetObjectDescs| && 0 <= b < |SurfaceDescs| ==>
      SheetObjectDescs[a].name != SurfaceDescs[b].name
  {
  }

  /** The wiring of `loadModel2` for its configured objects: once all six names are found in a scene whose ids are identities, both sheet objects are plain. */
  lemma ConfiguredObjectsPlain(root: Node, m: map<NodeId, Material>, first: nat)
    requires UniqueIds(root)
    requires AllFound(root, ObjectNames(SheetObjectDescs)) && AllFound(root, SurfaceNames(SurfaceDescs))
    ensures var r := SurfaceLoopMaterials(root, SurfaceDescs, ObjectLoop(root, SheetObjectDescs, m), first);
      forall j :: 0 <= j < 2 ==>
        var n := Resolve(root, ObjectNames(SheetObjectDescs))[j];
        n.id in r && r[n.id] == PlainMaterial()
  {
    ConfiguredWellConfigured(root);
    BoundObjectsPlain(root, SheetObjectDescs, SurfaceDescs, m, first);
  }

  /**
   * The wiring of `loadModel2` for its configured surfaces: once all six names are found in a scene
   * whose ids are identities, the front surface maps page 1, the back surface page 2 and the two
   * inner surfaces page 4, each through its own texture load.
   */
  lemma ConfiguredSurfacesTextured(root: Node, m: map<NodeId, Material>, first: nat)
    requires UniqueIds(root)
    requires AllFound(root, ObjectNames(SheetObjectDescs)) && AllFound(root, SurfaceNames(SurfaceDescs))
    ensures var r := SurfaceLoopMaterials(root, SurfaceDescs, ObjectLoop(root, SheetObjectDescs, m), first);
      var ns := Resolve(root, SurfaceNames(SurfaceDescs));
      && ns[0].id in r && r[ns[0].id] == TexturedMaterial(Texture(first, "./models/hcard_page1.png"))
      && ns[1].id in r && r[ns[1].id] == TexturedMaterial(Texture(first + 1, "./models/hcard_page2.png"))
      && ns[2].id in r && r[ns[2].id] == TexturedMaterial(Texture(first + 2, "./models/hcard_page4.png"))
      && ns[3].id in r && r[ns[3].id] == TexturedMaterial(Texture(first + 3, "./models/hcard_page4.png"))
  {
    ConfiguredWellConfigured(root);
    BoundSurfacesTextured(root, SheetObjectDescs, SurfaceDescs, m, first);
  }

  /** The configured descriptors meet what the wiring lemmas assume, once their names are found in a scene whose ids are identities. */
  lemma ConfiguredWellConfigured(root: Node)
    requires UniqueIds(root)
    requires AllFound(root, ObjectNames(SheetObjectDescs)) && AllFound(root, SurfaceNames(SurfaceDescs))
    ensures WellConfigured(root, SheetObjectDescs, SurfaceDescs)
  {
    ConfiguredNamesDistinct();
  }

  // ---------------------------------------------------------------------------
  // loadModel1: prefix filters over the direct children
  // ---------------------------------------------------------------------------

  /** `s.startsWith(prefix)`. */
  predicate StartsWith(s: string, prefix: string)
  {
    prefix <= s
  }

  /** `s.endsWith(suffix)`. */
  predicate EndsWith(s: string, suffix: string)
  {
    |suffix| <= |s| && s[|s| - |suffix|..] == suffix
  }

  /** The filter condition `child.isMesh && child.name.startsWith(prefix)`. */
  predicate Selects(c: Node, prefix: string)
  {
    c.isMesh && StartsWith(c.name, prefix)
  }

  /** `cs.filter(child => Selects(child, prefix))`. */
  function Filter(cs: seq<Node>, prefix: string): (r: seq<Node>)
    ensures |r| <= |cs|
    ensures forall x :: x in r <==> x in cs && Selects(x, prefix)
  {
    if cs == [] then []
    else (if Selects(cs[0], prefix) then [cs[0]] else []) + Filter(cs[1..], prefix)
  }

  /** The nodes `loadModel1` keeps from the direct children of the loaded scene (index.js:126-127). */
  function Selected(scene: Node, prefix: string): (r: seq<Node>)
    ensures forall c :: c in r <==> c in scene.children && c.isMesh && StartsWith(c.name, prefix)
  {
    Filter(scene.children, prefix)
  }

  /** `(name.endsWith('front')) ? textureP1 : textureP2` (index.js:138). */
  function ChooseTexture(name: string, p1: Texture, p2: Texture): Texture
  {
    if EndsWith(name, "front") then p1 else p2
  }

  /** The texture each selected surface gets. */
  function SurfaceChoices(surfs: seq<Node>, p1: Texture, p2: Texture): seq<Texture>
  {
    seq(|surfs|, j requires 0 <= j < |surfs| => ChooseTexture(surfs[j].name, p1, p2))
  }

  /** The material assignments of the two `forEach` loops of `loadModel1` (index.js:129-141), in order. */
  function Model1Writes(scene: Node, p1: Texture, p2: Texture): seq<Write>
  {
    var surfs := Selected(scene, "Surface");
    ObjectWrites(Selected(scene, "Object")) + SurfaceWrites(surfs, SurfaceChoices(surfs, p1, p2))
  }

  /** The identities of the children `loadModel1` selects. */
  function SelectedIds(scene: Node): set<NodeId>
  {
    set c | c in scene.children && (Selects(c, "Object") || Selects(c, "Surface")) :: c.id
  }

  /** The positions in `cs` of the nodes that `Filter` keeps. */
  function KeptPositions(cs: seq<Node>, prefix: string): seq<nat>
  {
    if cs == [] then []
    else
      var rest := KeptPositions(cs[1..], prefix);
      (if Selects(cs[0], prefix) then [0] else []) + seq(|rest|, k requires 0 <= k < |rest| => rest[k] + 1)
  }

  lemma {:induction false} KeptPositionsPick(cs: seq<Node>, prefix: string)
    ensures |KeptPositions(cs, prefix)| == |Filter(cs, prefix)|
    ensures forall k :: 0 <= k < |Filter(cs, prefix)| ==>
      KeptPositions(cs, prefix)[k] < |cs| && Filter(cs, prefix)[k] == cs[KeptPositions(cs, prefix)[k]]
  {
    if cs != [] {
      KeptPositionsPick(cs[1..], prefix);
      var rest := KeptPositions(cs[1..], prefix);
      var shifted := seq(|rest|, k requires 0 <= k < |rest| => rest[k] + 1);
      var tail := Filter(cs[1..], prefix);
      var kp, f := KeptPositions(cs, prefix), Filter(cs, prefix);
      var d := if Selects(cs[0], prefix) then 1 else 0;
      assert kp == (if d == 1 then [0] else []) + shifted;
      assert f == (if d == 1 then [cs[0]] else []) + tail;
      forall k | 0 <= k < |f| ensures kp[k] < |cs| && f[k] == cs[kp[k]] {
        if k >= d {
          assert kp[k] == rest[k - d] + 1 && f[k] == tail[k - d];
          assert cs[1..][rest[k - d]] == cs[rest[k - d] + 1];
        }
      }
    }
  }

  lemma {:induction false} KeptPositionsIncrease(cs: seq<Node>, prefix: string)
    ensures forall k :: 0 <= k < |KeptPositions(cs, prefix)| ==> KeptPositions(cs, prefix)[k] < |cs|
    ensures forall k, l :: 0 <= k < l < |KeptPositions(cs, prefix)| ==>
      KeptPositions(cs, prefix)[k] < KeptPositions(cs, prefix)[l]
  {
    if cs != [] {
      KeptPositionsIncrease(cs[1..], prefix);
    }
  }

  lemma {:induction false} KeptPositionsComplete(cs: seq<Node>, prefix: string)
    ensures forall j :: 0 <= j < |cs| && Selects(cs[j], prefix) ==> j in KeptPositions(cs, prefix)
  {
    if cs != [] {
      KeptPositionsComplete(cs[1..], prefix);
      var rest := KeptPositions(cs[1..], prefix);
      var kp := KeptPositions(cs, prefix);
      forall j | 1 <= j < |cs| && Selects(cs[j], prefix) ensures j in kp {
        assert cs[1..][j - 1] == cs[j];
        var k :| 0 <= k < |rest| && rest[k] == j - 1;
        assert kp[k + |kp| - |rest|] == j;
      }
    }
  }

  /**
   * The filter keeps child order: the kept nodes sit at strictly increasing positions of `cs`,
   * and every position whose node passes the test is among them.
   */
  lemma FilterInChildOrder(cs: seq<Node>, prefix: string) returns (idx: seq<nat>)
    ensures |idx| == |Filter(cs, prefix)|
    ensures forall k :: 0 <= k < |idx| ==> idx[k] < |cs| && Filter(cs, prefix)[k] == cs[idx[k]]
    ensures forall k, l :: 0 <= k < l < |idx| ==> idx[k] < idx[l]
    ensures forall j :: 0 <= j < |cs| && Selects(cs[j], prefix) ==> j in idx
  {
    idx := KeptPositions(cs, prefix);
    KeptPositionsPick(cs, prefix);
    KeptPositionsIncrease(cs, prefix);
    KeptPositionsComplete(cs, prefix);
  }

  /** No name starts with both `Object` and `Surface`: the two selections of `loadModel1` are disjoint. */
  lemma PrefixesExclusive(name: string)
    ensures !(StartsWith(name, "Object") && StartsWith(name, "Surface"))
  {
    if StartsWith(name, "Object") {
      assert name[0] == "Object"[0] != "Surface"[0];
    }
  }

  /** In a scene with distinct child ids, different children have different ids. */
  lemma DistinctChildrenDistinctIds(scene: Node, x: Node, y: Node)
    requires DistinctChildIds(scene) && x in scene.children && y in scene.children && x != y
    ensures x.id != y.id
  {
    var a :| 0 <= a < |scene.children| && scene.children[a] == x;
    var b :| 0 <= b < |scene.children| && scene.children[b] == y;
    if a < b {
      assert scene.children[a].id != scene.children[b].id;
    } else {
      assert scene.children[b].id != scene.children[a].id;
    }
  }

  /** In a scene with distinct child ids, two children with the same id are the same child. */
  lemma ChildIdsIdentify(scene: Node, x: Node, y: Node)
    requires DistinctChildIds(scene) && x in scene.children && y in scene.children && x.id == y.id
    ensures x == y
  {
    var a :| 0 <= a < |scene.children| && scene.children[a] == x;
    var b :| 0 <= b < |scene.children| && scene.children[b] == y;
  }

  /** After both `forEach` loops of `loadModel1`, every selected object child has the plain material. */
  lemma Model1ObjectsPlain(scene: Node, m: map<NodeId, Material>, p1: Texture, p2: Texture)
    requires DistinctChildIds(scene)
    ensures var r := AssignAll(m, Model1Writes(scene, p1, p2));
      forall j :: 0 <= j < |scene.children| && Selects(scene.children[j], "Object") ==>
        scene.children[j].id in r && r[scene.children[j].id] == PlainMaterial()
  {
    var objs, surfs := Selected(scene, "Object"), Selected(scene, "Surface");
    var ow := ObjectWrites(objs);
    var sw := SurfaceWrites(surfs, SurfaceChoices(surfs, p1, p2));
    var m1 := AssignAll(m, ow);
    var r := AssignAll(m1, sw);
    AssignAllConcat(m, ow, sw);
    AssignAllUniform(m, ow, PlainMaterial());
    forall j | 0 <= j < |scene.children| && Selects(scene.children[j], "Object")
      ensures scene.children[j].id in r && r[scene.children[j].id] == PlainMaterial()
    {
      var c := scene.children[j];
      assert c in objs;
      var k :| 0 <= k < |objs| && objs[k] == c;
      assert ow[k].id == c.id;
      forall l | 0 <= l < |sw| ensures sw[l].id != c.id {
        assert surfs[l] in surfs;
        PrefixesExclusive(c.name);
        DistinctChildrenDistinctIds(scene, surfs[l], c);
      }
      AssignAllSpares(m1, sw, c.id);
    }
  }

  /** After both `forEach` loops of `loadModel1`, every selected surface child maps P1 if its name ends in `front` and P2 otherwise. */
  lemma Model1SurfacesTextured(scene: Node, m: map<NodeId, Material>, p1: Texture, p2: Texture)
    requires DistinctChildIds(scene)
    ensures var r := AssignAll(m, Model1Writes(scene, p1, p2));
      forall j :: 0 <= j < |scene.children| && Selects(scene.children[j], "Surface") ==>
        scene.children[j].id in r &&
        r[scene.children[j].id] == TexturedMaterial(ChooseTexture(scene.children[j].name, p1, p2))
  {
    var objs, surfs := Selected(scene, "Object"), Selected(scene, "Surface");
    var ow := ObjectWrites(objs);
    var sw := SurfaceWrites(surfs, SurfaceChoices(surfs, p1, p2));
    var m1 := AssignAll(m, ow);
    var r := AssignAll(m1, sw);
    AssignAllConcat(m, ow, sw);
    forall j | 0 <= j < |scene.children| && Selects(scene.children[j], "Surface")
      ensures scene.children[j].id in r &&
        r[scene.children[j].id] == TexturedMaterial(ChooseTexture(scene.children[j].name, p1, p2))
    {
      var c := scene.children[j];
      assert c in surfs;
      var k :| 0 <= k < |surfs| && surfs[k] == c;
      forall l | k < l < |sw| && sw[l].id == sw[k].id ensures sw[l].material == sw[k].material {
        assert surfs[l] in surfs;
        ChildIdsIdentify(scene, surfs[l], c);
      }
      AssignAllLastWrite(m1, sw, k);
    }
  }

  /** The identities `loadModel1` writes are exactly those of the selected children. */
  lemma Model1WrittenIds(scene: Node, p1: Texture, p2: Texture)
    ensures var surfs := Selected(scene, "Surface");
      WrittenIds(ObjectWrites(Selected(scene, "Object"))) + WrittenIds(SurfaceWrites(surfs, SurfaceChoices(surfs, p1, p2)))
        == SelectedIds(scene)
  {
    var objs, surfs := Selected(scene, "Object"), Selected(scene, "Surface");
    var ow := ObjectWrites(objs);
    var sw := SurfaceWrites(surfs, SurfaceChoices(surfs, p1, p2));
    forall id | id in SelectedIds(scene) ensures id in WrittenIds(ow) + WrittenIds(sw) {
      var c :| c in scene.children && (Selects(c, "Object") || Selects(c, "Surface")) && c.id == id;
      if Selects(c, "Object") {
        var k :| 0 <= k < |objs| && objs[k] == c;
        assert ow[k].id == id;
      } else {
        var k :| 0 <= k < |surfs| && surfs[k] == c;
        assert sw[k].id == id;
      }
    }
    forall id | id in WrittenIds(ow) + WrittenIds(sw) ensures id in SelectedIds(scene) {
      if id in WrittenIds(ow) {
        var k :| 0 <= k < |ow| && ow[k].id == id;
        assert objs[k] in objs;
      } else {
        var k :| 0 <= k < |sw| && sw[k].id == id;
        assert surfs[k] in surfs;
      }
    }
  }

  /** `loadModel1` changes the material of the selected children and of no other node. */
  lemma Model1Frame(scene: Node, m: map<NodeId, Material>, p1: Texture, p2: Texture)
    ensures var r := AssignAll(m, Model1Writes(scene, p1, p2));
      r.Keys == m.Keys + SelectedIds(scene) && r - SelectedIds(scene) == m - SelectedIds(scene)
  {
    var objs, surfs := Selected(scene, "Object"), Selected(scene, "Surface");
    var ow := ObjectWrites(objs);
    var sw := SurfaceWrites(surfs, SurfaceChoices(surfs, p1, p2));
    var m1 := AssignAll(m, ow);
    AssignAllConcat(m, ow, sw);
    AssignAllFrame(m, ow);
    AssignAllFrame(m1, sw);
    Model1WrittenIds(scene, p1, p2);
    MinusCompose(m, m1, AssignAll(m1, sw), WrittenIds(ow), WrittenIds(sw));
  }

  /** Running two batches of assignments is running their concatenation. */
  lemma {:induction false} AssignAllConcat(m: map<NodeId, Material>, xs: seq<Write>, ys: seq<Write>)
    ensures AssignAll(AssignAll(m, xs), ys) == AssignAll(m, xs + ys)
  {
    if ys == [] {
      assert xs + ys == xs;
    } else {
      var init := ys[..|ys| - 1];
      AssignAllConcat(m, xs, init);
      assert (xs + ys)[..|xs + ys| - 1] == xs + init;
    }
  }
}
