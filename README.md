# hcard viewer: binding configured names to scene-graph nodes

The viewer loads a glTF business-card model, finds named nodes in the loaded scene graph, and
replaces their materials. Object nodes get a plain Lambert material. Surface nodes get a Lambert
material whose texture map is a page image. This project models that name binding:

- `getMeshByName` searches a node's descendants depth-first, in pre-order. The first node whose
  name equals the requested one wins. It returns `null` when no descendant has that name.
- `loadModel2` looks up each configured descriptor by exact name.
  - Each sheet object gets the plain material.
  - Each surface first requests its own texture, then gets a textured material, and is pushed
    onto `surfaces`.
- `loadModel1` filters the direct children of the loaded scene. It keeps meshes whose name starts
  with `Object` or `Surface`, and picks page 1 or page 2 by whether the name ends in `front`.

`init` calls only `loadModel2` (index.js:40). `loadModel1` is defined but never called, so it is
modelled as an operation a page could call, not as part of start-up.

Files:

- `scene_tree.dfy` (module `SceneTree`): the scene graph as a datatype, `Node(id, name, isMesh,
  children)`.
  - `id` stands for JavaScript object identity.
  - `Descendants` lists the proper descendants in pre-order; `Lookup` is the first one with a name.
  - `GetMeshByName` keeps the source's shape: a loop over the children, early exits, recursion.
    It is proved equal to `Lookup`.
- `materials.dfy` (module `Materials`): textures, materials, and one assignment `obj.material = …`
  as a `Write`.
  - `AssignAll` gives the effect of a run of assignments on the map from node identity to material.
- `card_loader.dfy` (module `CardLoader`): the configured descriptors, and functions saying what
  each loop leaves behind.
  - It also holds lemmas that every descriptor is bound and that no other node is touched.
- `viewer.dfy` (module `CardViewer`): class `Viewer`, the page state the loaders change.
  - The fields: the added models, every node's material, the `objects` and `surfaces` arrays, and
    the texture requests made.
  - The loops and the two loaders, as methods proved against the `CardLoader` functions.

A missed name in `loadModel2` is not skipped, and the model follows the code. `getMeshByName`
returns `null`, and writing `obj.material` on it throws a TypeError (index.js:170-171, index.js:178-179).
The model calls this a fault. `LoadOutcome` records it as `ObjectMissing(i)` or
`SurfaceMissing(i)`, where `i` is the first descriptor whose name is missing. Assignments made
before the fault stay in place. The rest of the callback does not run: for an object miss, the
surface loop never starts. A surface's texture is requested before its lookup, so a texture is
also requested for the descriptor that faults.

Two details follow the code exactly:

- `loadModel2` resets `objects` to `[]` and never pushes into it, so `objects` stays empty.
- `getMeshByName` does not check `isMesh`: a group node with the requested name is found too.

Texture handles are opaque. `Texture(serial, file)` is the `serial`-th request, which asked for
`file`. Each request creates a new handle, so the two surfaces that use `hcard_page4.png` get two
different handles.

## Model

| member | source | states |
|---|---|---|
| SceneTree.Lookup | index.js:200-213 | defines what `getMeshByName` returns: the first node named `name` in the pre-order listing of the proper descendants, or `None`; its properties are the lemmas below |
| SceneTree.Descendants | index.js:202-210 | defines the order in which the search visits nodes: each child, then that child's own descendants, then the next child; the start node itself is not listed |
| SceneTree.GetMeshByName | index.js:200-213 | the result is the first proper descendant of `parent`, in pre-order, named `name`, and `None` when there is none; the method changes no state |
| SceneTree.FirstNamed | index.js:202-210 | a found node is in the searched list and has the requested name; the result is `None` exactly when no element has that name |
| SceneTree.FirstNamedConcat | index.js:202-210 | searching `xs + ys` finds the match in `xs` if there is one, and otherwise the match in `ys` |
| SceneTree.FirstNamedIsEarliest | index.js:203-205 | the match sits at some position `k`, and no element before `k` has the requested name |
| SceneTree.UnfoldSubtrees | index.js:202-210 | one loop step: child `i` is compared first, then its subtree is searched, then the later children |
| SceneTree.LookupIsFirstInPreOrder | index.js:200-213 | soundness and first-match order: the result has the requested name, sits at position `k` of the pre-order listing, and nothing earlier in that listing has that name |
| SceneTree.LookupComplete | index.js:200-213 | completeness: a node is found exactly when some child, or some descendant of a child, has the name; so `null` exactly when no proper descendant has it |
| SceneTree.DescendantsAreSmaller | index.js:202-207 | every proper descendant has strictly fewer descendants than the start node |
| SceneTree.LookupIsProperDescendant | index.js:202-207 | the result is a proper descendant and never the start node itself |
| SceneTree.LookupIgnoresStartNode | index.js:202-207 | two start nodes with the same children give the same result, so the start node's own name is never compared |
| SceneTree.ChildOrder | index.js:202-210 | if no child before `i` matches, directly or deep in its subtree, then a match on child `i` wins, and otherwise a match deep under child `i` wins over any later sibling |
| SceneTree.DifferentNamesDifferentIds | index.js:169-185 | with unique ids, successful searches for two different names find two different objects |
| Materials.PlainMaterial | index.js:171 | defines the material `new MeshLambertMaterial({ color: 0xffffffee })` of index.js:171 and index.js:130: a Lambert material of colour 0xffffffee with no texture map |
| Materials.TexturedMaterial | index.js:179-183 | defines the material of index.js:179-183 and index.js:135-139: a Lambert material of colour 0xffffffee whose map is the given texture |
| Materials.AssignAll | index.js:129-141 | defines the effect of a run of `obj.material = …` statements: they are performed in order, and a later assignment to the same node overrides an earlier one |
| Materials.AssignAllSnoc | index.js:171 | an appended assignment is performed last |
| Materials.AssignAllFrame | index.js:169-185 | after a run of assignments, exactly the touched nodes may have gained or changed a material; every other node keeps its material |
| Materials.AssignAllLastWrite | index.js:176-185 | a node assigned at position `k` ends with that material when no later assignment to it stores a different one |
| Materials.AssignAllUniform | index.js:169-173 | when every assignment stores the same material, every touched node ends with it |
| Materials.AssignAllSpares | index.js:169-185 | a node that no assignment touches keeps its material, and keeps having or not having one |
| CardLoader.FoundPrefix | index.js:169-179 | the number of leading descriptor names that are all found; the next name, if any, is missed |
| CardLoader.FirstMiss | index.js:169-179 | defines where a loop of `loadModel2` faults: the position of the first descriptor whose name the search misses, or `None` when every name is found |
| CardLoader.FoundPrefixIsFirstMiss | index.js:169-179 | a binding loop faults exactly when some name is missed, and then at the first missed name |
| CardLoader.ObjectLoop | index.js:169-173 | defines the materials after the object loop: one plain-material assignment per descriptor before the first missed name, in descriptor order |
| CardLoader.SurfaceLoopNodes | index.js:176-186 | defines `surfaces` after the surface loop: the nodes found for the descriptors before the first missed name, in descriptor order |
| CardLoader.SurfaceLoopRequests | index.js:176-178 | defines the texture requests of the surface loop: the file of every descriptor it reached, the faulting one included |
| CardLoader.SurfaceLoopMaterials | index.js:176-186 | defines the materials after the surface loop: the `j`-th found node gets the texture of the `j`-th request of the loop, for each descriptor before the first miss |
| CardLoader.SurfaceLoopShape | index.js:176-186 | `surfaces` holds one node per descriptor before the first miss, found under the scene and named by that descriptor; the loop makes one more request than it pushes nodes exactly when it faults, and request `j` is for descriptor `j`'s file |
| CardLoader.ObjectLoopStep | index.js:169-173 | one pass of the object loop that finds descriptor `i` gives that node the plain material on top of the earlier passes |
| CardLoader.ObjectLoopStopsAt | index.js:169-173 | an object loop that stops after `k` descriptors, at a miss or at the end, faults exactly at `k` if `k` is a miss, and leaves the materials of the first `k` plain-material assignments |
| CardLoader.SurfaceLoopStep | index.js:176-185 | one pass of the surface loop that finds descriptor `i` pushes that node, requests that descriptor's file, and gives the node the texture of request `first + i` |
| CardLoader.SurfaceLoopStopsAt | index.js:176-186 | a surface loop that stops after `k` descriptors has pushed the first `k` found nodes, requested `k` textures plus one more if it faulted, and bound each of the `k` nodes to its own texture |
| CardLoader.ResolveSnoc | index.js:169-185 | one more found descriptor appends its node to the found list |
| CardLoader.ObjectLoopAllFound | index.js:169-173 | when every object name is found, the object loop makes one plain-material assignment per descriptor, in order |
| CardLoader.SurfaceLoopAllFound | index.js:176-186 | when every surface name is found, `surfaces` holds one found node per descriptor in descriptor order, every texture file is requested, and each node gets the texture of its own request |
| CardLoader.ResolvedIdsDistinct | index.js:176-186 | with unique ids, pairwise different names resolve to pairwise different objects |
| CardLoader.WrittenIdsOfObjects | index.js:169-173 | the object loop writes exactly the nodes named by object descriptors |
| CardLoader.WrittenIdsOfSurfaces | index.js:176-186 | the surface loop writes exactly the nodes named by surface descriptors |
| CardLoader.SurfacesSpareObjects | index.js:169-186 | for each object descriptor whose name no surface descriptor shares, the surface loop never touches the node found for it |
| CardLoader.BoundObjectsPlain | index.js:169-173 | after both loops, each object descriptor's node has that descriptor's name and the plain material |
| CardLoader.BoundSurfacesTextured | index.js:176-186 | after both loops, each surface descriptor's node has that descriptor's name and a material mapping the texture loaded from that descriptor's file |
| CardLoader.BindingFrame | index.js:168-186 | both loops change the materials of the named nodes and of no other node |
| CardLoader.ObjectLoopFrame | index.js:169-173 | the object loop, whether it finishes or faults, changes no node except those found for an object descriptor name |
| CardLoader.SurfaceLoopFrame | index.js:176-186 | the surface loop, whether it finishes or faults, changes no node except those found for a surface descriptor name |
| CardLoader.PartialBindingFrame | index.js:168-186 | a run of both loops that ends in a surface fault or finishes changes no node except those found for a descriptor name; with `ObjectLoopFrame`, this covers every outcome |
| CardLoader.SurfaceDescs | index.js:148-153 | defines `surfaceDics`: the four surface names, front, back, inner up and inner down, with the page 1, page 2, page 4 and page 4 image files, in that order |
| CardLoader.SheetObjectDescs | index.js:154-157 | defines `sheetObjectDics`: the two sheet objects `Object_main1` and `Object_main2`, in that order |
| CardLoader.TextureFileP1 | index.js:111 | defines the file of the first texture `loadModel1` requests, `./models/hcard_page1.png` |
| CardLoader.TextureFileP2 | index.js:112 | defines the file of the second texture `loadModel1` requests, `./models/hcard_page2.png` |
| CardLoader.ConfiguredNamesDistinct | index.js:148-157 | no two surface names are equal, and no object name equals a surface name |
| CardLoader.ConfiguredWellConfigured | index.js:148-157 | once the six configured names are found in a scene whose ids are identities, the configured descriptors meet every assumption of the wiring lemmas |
| CardLoader.ConfiguredObjectsPlain | index.js:154-157 | for the configured descriptors, both sheet objects end with the plain material |
| CardLoader.ConfiguredSurfacesTextured | index.js:148-153 | for the configured descriptors, the front surface maps page 1, the back surface page 2, and both inner surfaces page 4, each through its own load request |
| CardLoader.ObjectWritesSnoc | index.js:171 | one more object node adds one plain-material assignment at the end |
| CardLoader.SurfaceWritesSnoc | index.js:179-183 | one more surface node adds one textured assignment at the end |
| CardLoader.LoadedTexturesSnoc | index.js:177 | one more texture request adds the handle of that request at the end |
| CardLoader.SurfaceChoicesSnoc | index.js:138 | one more surface adds its texture choice at the end |
| CardLoader.Filter | index.js:126-127 | a node is kept exactly when it is one of the given children, is a mesh, and its name starts with the prefix; the result is no longer than the input |
| CardLoader.StartsWith | index.js:126-127 | defines `name.startsWith(prefix)`: the name begins with exactly the characters of the prefix, compared one by one with no case folding |
| CardLoader.EndsWith | index.js:138 | defines `name.endsWith(suffix)`: the name ends with exactly the characters of the suffix, and is at least as long as it |
| CardLoader.Selects | index.js:126-127 | defines the filter callback `child.isMesh && child.name.startsWith(prefix)` |
| CardLoader.Selected | index.js:126-127 | a node is selected exactly when it is a direct child of the scene, is a mesh, and its name starts with the prefix |
| CardLoader.FilterInChildOrder | index.js:126-127 | the kept nodes sit at strictly increasing child positions, and every child that passes the test is kept; grandchildren are never considered |
| CardLoader.PrefixesExclusive | index.js:126-127 | no name starts with both `Object` and `Surface`, so the two selections are disjoint |
| CardLoader.DistinctChildrenDistinctIds | index.js:126-127 | in a scene whose children have distinct ids, two different children have different ids |
| CardLoader.ChildIdsIdentify | index.js:126-127 | in a scene whose children have distinct ids, two children with the same id are the same child |
| CardLoader.Model1ObjectsPlain | index.js:129-132 | every direct mesh child named `Object…` ends with the plain material |
| CardLoader.Model1SurfacesTextured | index.js:134-141 | every direct mesh child named `Surface…` ends with a material mapping P1 if its name ends in `front`, and P2 otherwise |
| CardLoader.Model1WrittenIds | index.js:126-141 | the nodes `loadModel1` writes are exactly the selected children |
| CardLoader.ChooseTexture | index.js:138 | defines the texture choice: P1 when the name ends in `front`, P2 otherwise |
| CardLoader.Model1Writes | index.js:129-141 | defines the assignments of `loadModel1`: one plain material per selected object in child order, then one textured material per selected surface in child order, with the texture `ChooseTexture` picks |
| CardLoader.Model1Frame | index.js:129-141 | `loadModel1` changes the materials of the selected children and of no other node |
| CardLoader.AssignAllConcat | index.js:129-141 | running the object assignments and then the surface assignments equals running their concatenation |
| CardViewer.Viewer.constructor | index.js:5-9 | the page starts with no model, no materials, `objects` and `surfaces` null, and no texture requests |
| CardViewer.Viewer.LoadTexture | index.js:233-240 | appends the file to the requests and returns the handle of that request |
| CardViewer.Viewer.BindObjects | index.js:168-173 | resets `objects` to `[]`, faults at the first missed object name, and leaves the materials the object loop specifies |
| CardViewer.Viewer.BindSurfaces | index.js:175-186 | resets `surfaces`, then for each descriptor requests its texture, looks up its node, sets the material and pushes the node; faults at the first missed name; the final state is the one the surface-loop functions specify |
| CardViewer.Viewer.LoadModel2 | index.js:146-186 | adds the asset, merges its materials, runs the object loop, then the surface loop only if the object loop did not fault; the outcome names the first fault |
| CardViewer.Viewer.PaintObjects | index.js:129-132 | gives each node in the list the plain material, in order |
| CardViewer.Viewer.PaintSurfaces | index.js:134-141 | gives each node in the list a material mapping P1 or P2, chosen by the `front` suffix, in order |
| CardViewer.Viewer.LoadModel1 | index.js:110-143 | requests P1 then P2, adds the asset, sets `objects` and `surfaces` to the two filters over the direct children, and leaves the materials `Model1Writes` specifies |

## Left out

- Rendering, scene construction, lights, background colour, camera, renderer and pixel ratio
  (index.js:44-107): these are 3D library objects with no logic of their own.
- glTF/GLB parsing and image decoding (index.js:118-119, index.js:160-161, index.js:233-240).
  - The parsed scene arrives as a parameter, with its authored materials as a map.
  - A texture is only a numbered request for a file. The anisotropy, `flipY` and mipmap settings
    made after decoding are not modelled.
  - Both loaders run as if the asynchronous callback came back at once. A load that never
    completes, or fails, is not modelled.
- Setting the loaded scene's position to the origin (index.js:120-122, index.js:162-164): this is
  library geometry.
- The `opacity: 1.0` and `needsUpdate = true` settings on the new materials: opacity is a
  floating-point value equal to the library default; `needsUpdate` is a rendering flag that is
  always set.
- The animation mixer, its clip actions and the animation button (index.js:188-195,
  index.js:254-261): playback belongs to the library. They are created after both loops, so a
  fault in either loop also skips them.
- The render loop and clock (index.js:222-231): host scheduling and floating-point time.
- Orbit controls and the two camera-preset buttons (index.js:73-85, index.js:242-252): library
  control math and constant coordinate assignments.
- The window-resize handler and the DOM button wiring (index.js:16-26, index.js:216-220):
  browser I/O.
- Strings with unpaired surrogates: JavaScript compares strings as UTF-16 code units, and the model
  compares them as Unicode characters. For `startsWith`, `endsWith` and the name search, the two
  agree on every well-formed string. A name holding an unpaired surrogate cannot be written as a
  model string.
- Material identity: each `new THREE.MeshLambertMaterial(...)` (index.js:130, index.js:135,
  index.js:171, index.js:179) creates a distinct object, but the model compares materials as
  values, so two nodes given the plain material hold equal values, not two objects. No operation
  in this core reads or compares material identity.
- The file names of the models (`hcard1.glb`, `hcard3.glb`): the model does not load files.
- The material-property lemmas assume node ids are unique, when they need ids to stand for
  distinct objects: `UniqueIds` over the descendants for `loadModel2`, `DistinctChildIds` over the
  direct children for `loadModel1`. The loops themselves are modelled for any ids.
