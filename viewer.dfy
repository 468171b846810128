/**
 * The page state of index.js that the two model loaders change (index.js:5-9), and the
 * loaders themselves, run from the moment the glTF loader hands over the parsed scene.
 */
module CardViewer {
  import opened Wrappers
  import opened SceneTree
  import opened Materials
  import opened CardLoader

  /**
   * How a load callback ends: normally, or with the TypeError raised by `obj.material` on the
   * `null` that `getMeshByName` returned for the descriptor at `index` (index.js:170-171, 178-179).
   */
  datatype LoadOutcome = Loaded | ObjectMissing(index: nat) | SurfaceMissing(index: nat)

  class Viewer {
    /** The glTF scenes added to the page's scene, in load order. */
    var models: seq<Node>
    /** The material of every node, by identity. */
    var materials: map<NodeId, Material>
    /** The module-level `objects` and `surfaces` arrays; `None` while still `null`. */
    var objects: Option<seq<Node>>
    var surfaces: Option<seq<Node>>
    /** The image files requested from the texture loader, in request order. */
    var textureRequests: seq<string>

    constructor ()
      ensures models == [] && materials == map[] && objects == None && surfaces == None
      ensures textureRequests == []
    {
      models, materials, objects, surfaces, textureRequests := [], map[], None, None, [];
    }

    /** `getTextureLoader` (index.js:233-240): requests `file` and returns the handle of that request. */
    method LoadTexture(file: string) returns (t: Texture)
      modifies this`textureRequests
      ensures textureRequests == old(textureRequests) + [file]
      ensures t == Texture(|old(textureRequests)|, file)
    {
      t := Texture(|textureRequests|, file);
      textureRequests := textureRequests + [file];
    }

    /** The object loop of `loadModel2` (index.js:168-173); `miss` is the descriptor at which it faults. */
    method BindObjects(root: Node, descs: seq<ObjectDesc>) returns (miss: Option<nat>)
      modifies this`materials, this`objects
      ensures objects == Some([])
      ensures miss == FirstMiss(root, ObjectNames(descs))
      ensures materials == ObjectLoop(root, descs, old(materials))
    {
      objects := Some([]);
      ghost var names := ObjectNames(descs);
      ghost var m0 := materials;
      var i := 0;
      while i < |descs|
        invariant 0 <= i <= |descs|
        invariant objects == Some([])
        invariant AllFound(root, names[..i])
        invariant materials == AssignAll(m0, ObjectWrites(Resolve(root, names[..i])))
      {
        var obj := GetMeshByName(root, descs[i].name);
        assert names[i] == descs[i].name;
        if obj == None {
          ObjectLoopStopsAt(root, descs, m0, i);
          return Some(i);
        }
        ObjectLoopStep(root, descs, m0, i);
        materials := materials[obj.value.id := PlainMaterial()];
        i := i + 1;
      }
      ObjectLoopStopsAt(root, descs, m0, |descs|);
      miss := None;
    }

    /** The surface loop of `loadModel2` (index.js:175-186); `miss` is the descriptor at which it faults. */
    method BindSurfaces(root: Node, descs: seq<SurfaceDesc>) returns (miss: Option<nat>)
      modifies this`materials, this`surfaces, this`textureRequests
      ensures miss == FirstMiss(root, SurfaceNames(descs))
      ensures surfaces == Some(SurfaceLoopNodes(root, descs))
      ensures textureRequests == old(textureRequests) + SurfaceLoopRequests(root, descs)
      ensures materials == SurfaceLoopMaterials(root, descs, old(materials), |old(textureRequests)|)
    {
      surfaces := Some([]);
      ghost var names, files := SurfaceNames(descs), TextureFiles(descs);
      ghost var m0, reqs0 := materials, textureRequests;
      ghost var first := |reqs0|;
      var i := 0;
      while i < |descs|
        invariant 0 <= i <= |descs|
        invariant AllFound(root, names[..i])
        invariant surfaces == Some(Resolve(root, names[..i]))
        invariant textureRequests == reqs0 + files[..i]
        invariant materials == AssignAll(m0, SurfaceWrites(Resolve(root, names[..i]), LoadedTextures(first, files[..i])))
      {
        var texture := LoadTexture(descs[i].textureFile);
        assert texture == Texture(first + i, descs[i].textureFile);
        var obj := GetMeshByName(root, descs[i].name);
        if obj == None {
          assert files[..i + 1] == files[..i] + [files[i]];
          SurfaceLoopStopsAt(root, descs, m0, first, i);
          return Some(i);
        }
        SurfaceLoopStep(root, descs, m0, first, i);
        assert textureRequests == reqs0 + files[..i + 1];
        materials := materials[obj.value.id := TexturedMaterial(texture)];
        surfaces := Some(surfaces.value + [obj.value]);
        i := i + 1;
      }
      SurfaceLoopStopsAt(root, descs, m0, first, |descs|);
      miss := None;
    }

    /**
     * `loadModel2` (index.js:146-186) once the glTF loader delivers `asset`, whose nodes carry the
     * materials `authored`: both loops over the configured descriptors; a fault in the object loop
     * ends the callback before the surface loop starts.
     */
    method LoadModel2(asset: Node, authored: map<NodeId, Material>) returns (outcome: LoadOutcome)
      modifies this
      ensures models == old(models) + [asset]
      ensures objects == Some([])
      ensures
        var m1 := ObjectLoop(asset, SheetObjectDescs, old(materials) + authored);
        var objMiss := FirstMiss(asset, ObjectNames(SheetObjectDescs));
        var surfMiss := FirstMiss(asset, SurfaceNames(SurfaceDescs));
        if objMiss.Some? then
          && outcome == ObjectMissing(objMiss.value)
          && materials == m1
          && surfaces == old(surfaces)
          && textureRequests == old(textureRequests)
        else
          && outcome == (if surfMiss.Some? then SurfaceMissing(surfMiss.value) else Loaded)
          && surfaces == Some(SurfaceLoopNodes(asset, SurfaceDescs))
          && textureRequests == old(textureRequests) + SurfaceLoopRequests(asset, SurfaceDescs)
          && materials == SurfaceLoopMaterials(asset, SurfaceDescs, m1, |old(textureRequests)|)
    {
      models := models + [asset];
      materials := materials + authored;
      var miss := BindObjects(asset, SheetObjectDescs);
      if miss.Some? {
        return ObjectMissing(miss.value);
      }
      miss := BindSurfaces(asset, SurfaceDescs);
      outcome := if miss.Some? then SurfaceMissing(miss.value) else Loaded;
    }

    /** The `objects.forEach` of `loadModel1` (index.js:129-132). */
    method PaintObjects(objs: seq<Node>)
      modifies this`materials
      ensures materials == AssignAll(old(materials), ObjectWrites(objs))
    {
      for i := 0 to |objs|
        invariant materials == AssignAll(old(materials), ObjectWrites(objs[..i]))
      {
        assert objs[..i + 1] == objs[..i] + [objs[i]];
        ObjectWritesSnoc(objs[..i], objs[i]);
        AssignAllSnoc(old(materials), ObjectWrites(objs[..i]), Write(objs[i].id, PlainMaterial()));
        materials := materials[objs[i].id := PlainMaterial()];
      }
      assert objs[..|objs|] == objs;
    }

    /** The `surfaces.forEach` of `loadModel1` (index.js:134-141): P1 for names ending in `front`, P2 for the rest. */
    method PaintSurfaces(surfs: seq<Node>, textureP1: Texture, textureP2: Texture)
      modifies this`materials
      ensures materials == AssignAll(old(materials), SurfaceWrites(surfs, SurfaceChoices(surfs, textureP1, textureP2)))
    {
      for i := 0 to |surfs|
        invariant materials == AssignAll(old(materials), SurfaceWrites(surfs[..i], SurfaceChoices(surfs[..i], textureP1, textureP2)))
      {
        var texture := ChooseTexture(surfs[i].name, textureP1, textureP2);
        assert surfs[..i + 1] == surfs[..i] + [surfs[i]];
        SurfaceChoicesSnoc(surfs, i, textureP1, textureP2);
        SurfaceWritesSnoc(surfs[..i], SurfaceChoices(surfs[..i], textureP1, textureP2), surfs[i], texture);
        AssignAllSnoc(old(materials), SurfaceWrites(surfs[..i], SurfaceChoices(surfs[..i], textureP1, textureP2)),
          Write(surfs[i].id, TexturedMaterial(texture)));
        materials := materials[surfs[i].id := TexturedMaterial(texture)];
      }
      assert surfs[..|surfs|] == surfs;
    }

    /**
     * `loadModel1` (index.js:110-143): requests the two page images, then, once the glTF loader
     * delivers `asset`, keeps the direct mesh children named `Object…` and `Surface…` and
     * replaces their materials.
     */
    method LoadModel1(asset: Node, authored: map<NodeId, Material>)
      modifies this
      ensures models == old(models) + [asset]
      ensures textureRequests == old(textureRequests) + [TextureFileP1, TextureFileP2]
      ensures objects == Some(Selected(asset, "Object")) && surfaces == Some(Selected(asset, "Surface"))
      ensures
        var n := |old(textureRequests)|;
        materials == AssignAll(old(materials) + authored,
          Model1Writes(asset, Texture(n, TextureFileP1), Texture(n + 1, TextureFileP2)))
    {
      var textureP1 := LoadTexture(TextureFileP1);
      var textureP2 := LoadTexture(TextureFileP2);
      models := models + [asset];
      materials := materials + authored;
      ghost var m0 := materials;
      objects := Some(Selected(asset, "Object"));
      surfaces := Some(Selected(asset, "Surface"));
      PaintObjects(objects.value);
      PaintSurfaces(surfaces.value, textureP1, textureP2);
      AssignAllConcat(m0, ObjectWrites(objects.value),
        SurfaceWrites(surfaces.value, SurfaceChoices(surfaces.value, textureP1, textureP2)));
    }
  }
}
