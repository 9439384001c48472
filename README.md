# OBJ ingestion and scene graph, modelled in Dafny

This project models the two parts of the WebGL assignment that hold its logic.

- **The Wavefront OBJ reader** (`OBJLoader`). `load` splits the file text into
  lines. It passes each `"v "` line to `parseVertex` and each `"f "` line to
  `parseFace`, and accumulates the results in file order. It then rescales
  every vertex scalar with one minimum and one maximum, pooled over x, y and
  z, into [-1, 1]. `parseFace` keeps the leading integer of each token minus
  one. `triangulateFace` splits a quad into two triangles.
- **The scene graph** (`Scene`, `SceneNode`, `ModelNode`). A scene loads its
  models into a name-to-mesh table. It then builds a tree of nodes from the
  configuration tree, and sets the root's transformation to itself so that
  every world transformation and model matrix is computed. Nodes can be
  listed in pre-order, looked up by name, asked for their line of
  transformations up to the root, and drawn.

Modules:

- `Wrappers`: Option and Result.
- `JsNumber`: JavaScript numbers as exact reals plus NaN and the two
  infinities, with `Math.max`, `Math.min`, `-`, `*` and `/`.
- `Text`: `split` with a one-character separator, `indexOf(p) === 0` and
  `parseInt` without a radix.
- `ObjLoader`: the reader. `Load` is a method with the source's three loops
  (accumulate, scan min/max, rescale in place), proved against the functions
  `VertexData`, `IndexData` and `Normalize`.
- `ObjLoaderProperties`: what the reader promises, as lemmas about those
  functions.
- `SceneGraph`: `Object3D` (only its mesh and model matrix) and `SceneNode`
  as classes with the source's mutable fields. A model node is a `SceneNode`
  whose `obj3d` is not null, and `SetTransformation` and `Render` take the
  model-node branch exactly then. Ghost state describes the tree:
  - `Repr` is the set of nodes of the subtree.
  - `Slot` maps each node below to the child whose subtree holds it.
  - `Position` maps each child to its index.
  - `Valid()` says the subtree is a tree whose parent links are right.
- `Scenes`: loading models and the scene graph, and the `Scene` class with its
  queries.

Throwing is modelled as a `Result` error. A string thrown by the source
becomes `ModelNotFound` or `NodeNotFound`. A property read or method call on
null becomes `TypeError`.

## Model

| member | source | states |
|---|---|---|
| JsNumber.Max | Assignment-1-JeremyyChoo-main_/assignment1.objloader.js:63 | Math.max is NaN iff an argument is NaN, otherwise one of its arguments and at least both |
| JsNumber.Min | Assignment-1-JeremyyChoo-main_/assignment1.objloader.js:64 | Math.min is NaN iff an argument is NaN, otherwise one of its arguments and at most both |
| JsNumber.Sub | Assignment-1-JeremyyChoo-main_/assignment1.objloader.js:67 | subtraction is real subtraction on finite numbers and NaN when an operand is NaN |
| JsNumber.Mul | Assignment-1-JeremyyChoo-main_/assignment1.objloader.js:67 | multiplication is real multiplication on finite numbers and NaN when an operand is NaN |
| JsNumber.Div | Assignment-1-JeremyyChoo-main_/assignment1.objloader.js:67 | division is real division by a non-zero finite number; a finite number over 0 is NaN exactly when it is 0 itself |
| Text.Split | Assignment-1-JeremyyChoo-main_/assignment1.objloader.js:35 | split yields at least one piece, and no piece holds the separator |
| Text.JoinSplit | Assignment-1-JeremyyChoo-main_/assignment1.objloader.js:35 | gluing the pieces of split back together with the separator gives the string back |
| Text.SplitPiece | Assignment-1-JeremyyChoo-main_/assignment1.objloader.js:118 | a token without the separator splits to itself, so `part.split(' ')[0]` is the token |
| Text.SplitJoin | Assignment-1-JeremyyChoo-main_/assignment1.objloader.js:88 | splitting the single-separator join of separator-free words gives the words back |
| Text.DigitPrefix | Assignment-1-JeremyyChoo-main_/assignment1.objloader.js:118 | the digit run parseInt reads is a prefix of the string, all digits, and maximal |
| Text.ParseInt | Assignment-1-JeremyyChoo-main_/assignment1.objloader.js:118 | parseInt is NaN exactly when no digit follows the optional sign |
| Text.DigitPrefixStops | Assignment-1-JeremyyChoo-main_/assignment1.objloader.js:118 | the digit run of digits followed by a non-digit is those digits |
| Text.LeadingInteger | Assignment-1-JeremyyChoo-main_/assignment1.objloader.js:118 | parseInt of digits followed by a non-digit tail is the value of the digits, and its negation after a minus sign |
| ObjLoader.IsVertexLine | Assignment-1-JeremyyChoo-main_/assignment1.objloader.js:42 | a line is a vertex line exactly when it starts with "v" and a space |
| ObjLoader.IsFaceLine | Assignment-1-JeremyyChoo-main_/assignment1.objloader.js:46 | a line is a face line exactly when it starts with "f" and a space |
| ObjLoader.ParseVertex | Assignment-1-JeremyyChoo-main_/assignment1.objloader.js:85-92 | one value per space-separated token after the keyword, the k-th being parseFloat of token k + 1 |
| ObjLoader.FaceIndex | Assignment-1-JeremyyChoo-main_/assignment1.objloader.js:118 | no index exactly when parseInt of the token finds no integer; otherwise one less than parseInt's value |
| ObjLoader.ParseFace | Assignment-1-JeremyyChoo-main_/assignment1.objloader.js:109-123 | with at most three tokens after the keyword, one index per token in order; with more, the six indices of the two triangles over the first four tokens |
| ObjLoader.TriangulateFace | Assignment-1-JeremyyChoo-main_/assignment1.objloader.js:133-138 | six indices: the first three of the face, then the first, third and fourth, so the two triangles share the edge from the first to the third; only the first four entries are read |
| ObjLoader.SeqMin | Assignment-1-JeremyyChoo-main_/assignment1.objloader.js:59-65 | the pooled minimum is an element of the list and no element is smaller |
| ObjLoader.SeqMax | Assignment-1-JeremyyChoo-main_/assignment1.objloader.js:59-65 | the pooled maximum is an element of the list and no element is larger |
| ObjLoader.Normalize | Assignment-1-JeremyyChoo-main_/assignment1.objloader.js:66-68 | rescaling keeps the length of the vertex list |
| ObjLoader.MinMaxFinite | Assignment-1-JeremyyChoo-main_/assignment1.objloader.js:63-64 | Math.min and Math.max of two finite numbers are the smaller and the larger |
| ObjLoader.LiftConcat | Assignment-1-JeremyyChoo-main_/assignment1.objloader.js:43-44 | pushing the parsed values of a line appends them, as numbers, after the earlier ones |
| ObjLoader.MinStep | Assignment-1-JeremyyChoo-main_/assignment1.objloader.js:60-64 | folding one more triple into the running minimum with Math.min gives the minimum of the prefix three longer |
| ObjLoader.MaxStep | Assignment-1-JeremyyChoo-main_/assignment1.objloader.js:60-63 | folding one more triple into the running maximum with Math.max gives the maximum of the prefix three longer |
| ObjLoader.ScanBounds | Assignment-1-JeremyyChoo-main_/assignment1.objloader.js:57-65 | the scan ends with (+Infinity, -Infinity) for no vertices, NaN for both when the length is not a multiple of three, otherwise the minimum and maximum pooled over all scalars |
| ObjLoader.Load | Assignment-1-JeremyyChoo-main_/assignment1.objloader.js:22-77 | the vertex list is the rescaled concatenation, in file order, of the values of the "v " lines; the index list is the concatenation of the indices of the "f " lines |
| ObjLoaderProperties.GatherConcat | Assignment-1-JeremyyChoo-main_/assignment1.objloader.js:41-50 | lines contribute in file order: the lists of a concatenation of line lists are the concatenated lists |
| ObjLoaderProperties.DataOfConcat | Assignment-1-JeremyyChoo-main_/assignment1.objloader.js:41-50 | the vertex and index data of two blocks of lines are the data of the first block followed by that of the second |
| ObjLoaderProperties.SkippedLine | Assignment-1-JeremyyChoo-main_/assignment1.objloader.js:41-50 | a line starting with neither "v " nor "f " changes neither the vertex nor the index list |
| ObjLoaderProperties.LineKinds | Assignment-1-JeremyyChoo-main_/assignment1.objloader.js:42-46 | no line is both a vertex line and a face line, so a line goes to at most one parser |
| ObjLoaderProperties.ArgumentsOfWords | Assignment-1-JeremyyChoo-main_/assignment1.objloader.js:116-117 | the tokens after the keyword of a line of single-space-separated words are those words |
| ObjLoaderProperties.ParseVertexOfWords | Assignment-1-JeremyyChoo-main_/assignment1.objloader.js:88-91 | parseVertex gives one parseFloat value per token after the keyword, in order, whatever their number |
| ObjLoaderProperties.ParseVertexXYZ | Assignment-1-JeremyyChoo-main_/assignment1.objloader.js:88-91 | "v x y z" gives exactly [x, y, z] |
| ObjLoaderProperties.FaceIndexOfToken | Assignment-1-JeremyyChoo-main_/assignment1.objloader.js:118 | a face index is parseInt of the whole token minus one, NaN for NaN |
| ObjLoaderProperties.FaceIndexLeadingInteger | Assignment-1-JeremyyChoo-main_/assignment1.objloader.js:118 | a token of digits followed by a non-digit tail ("/3/2") gives the value of the digits minus one |
| ObjLoaderProperties.DigitsIndex | Assignment-1-JeremyyChoo-main_/assignment1.objloader.js:118 | a token whose leading digit run is d gives the value of d minus one |
| ObjLoaderProperties.FaceIndexExample | Assignment-1-JeremyyChoo-main_/assignment1.objloader.js:118 | "7/3/2" and "7" both give index 6 |
| ObjLoaderProperties.ParseFaceOfWords | Assignment-1-JeremyyChoo-main_/assignment1.objloader.js:116-122 | up to three tokens give one index each in token order; four or more give the two triangles of the first four, and later tokens are dropped |
| ObjLoaderProperties.FaceListOf | Assignment-1-JeremyyChoo-main_/assignment1.objloader.js:119-121 | the triangulated index list of four or more tokens is built from the indices of the first four |
| ObjLoaderProperties.ParseFaceTriangle | Assignment-1-JeremyyChoo-main_/assignment1.objloader.js:116-122 | "f a b c" gives the indices of a, b, c in that order, with no change of winding |
| ObjLoaderProperties.RescaleFinite | Assignment-1-JeremyyChoo-main_/assignment1.objloader.js:67 | the JavaScript formula on finite numbers with max > min is the real affine map (v - min) / (max - min) * 2 - 1 |
| ObjLoaderProperties.NormalizeAt | Assignment-1-JeremyyChoo-main_/assignment1.objloader.js:57-68 | each rescaled scalar is that affine map, built from the pooled min and max, applied to its raw scalar |
| ObjLoaderProperties.ScaleRange | Assignment-1-JeremyyChoo-main_/assignment1.objloader.js:67 | the map sends [min, max] into [-1, 1], min to -1 and max to 1 |
| ObjLoaderProperties.ScaleDifference | Assignment-1-JeremyyChoo-main_/assignment1.objloader.js:67 | the map multiplies every difference by 2 / (max - min) |
| ObjLoaderProperties.SameScale | Assignment-1-JeremyyChoo-main_/assignment1.objloader.js:67 | two differences scaled by one positive factor keep their ratio and their signs |
| ObjLoaderProperties.NormalizeInUnitRange | Assignment-1-JeremyyChoo-main_/assignment1.objloader.js:57-68 | for a non-empty list of whole triples with max > min, every rescaled scalar is a number in [-1, 1], the minimum becomes -1 and the maximum 1 |
| ObjLoaderProperties.ScaleOrder | Assignment-1-JeremyyChoo-main_/assignment1.objloader.js:67 | the map is increasing: u <= v iff their images are in that order |
| ObjLoaderProperties.ScaleKeepsRatios | Assignment-1-JeremyyChoo-main_/assignment1.objloader.js:67 | the map keeps the ratio of any two differences |
| ObjLoaderProperties.ScaledPair | Assignment-1-JeremyyChoo-main_/assignment1.objloader.js:66-68 | two entries rescaled by the one map keep the order of their raw scalars |
| ObjLoaderProperties.NormalizeKeepsOrder | Assignment-1-JeremyyChoo-main_/assignment1.objloader.js:59-68 | rescaling keeps the order between any two scalars of the list, x, y and z alike |
| ObjLoaderProperties.NormalizeDegenerate | Assignment-1-JeremyyChoo-main_/assignment1.objloader.js:66-68 | with max == min (no guard in the source), 0 / 0 makes every scalar NaN |
| ObjLoaderProperties.NormalizeRagged | Assignment-1-JeremyyChoo-main_/assignment1.objloader.js:59-68 | when the length is not a multiple of three the scan reads past the end, and every scalar becomes NaN |
| SceneGraph.Object3D.constructor | Assignment-1-JeremyyChoo-main_/assignment1.scene.js:78 | a new object holds the instantiated model's mesh and starts with the identity model matrix |
| SceneGraph.Object3D.SetTransformation | Assignment-1-JeremyyChoo-main_/assignment1.scene.js:368 | the object's model matrix becomes the given matrix |
| SceneGraph.Find | Assignment-1-JeremyyChoo-main_/assignment1.scene.js:297-308 | the node found is in the list and has the name, and no earlier node of the list has it; none is found exactly when no node of the list has the name |
| SceneGraph.SceneNode.constructor | Assignment-1-JeremyyChoo-main_/assignment1.scene.js:180-187 | a new node has the given name, type, transformation and object, no parent, no children, and a world transformation equal to its local one; it is a valid one-node tree |
| SceneGraph.SceneNode.AddChild | Assignment-1-JeremyyChoo-main_/assignment1.scene.js:274-276 | the node is appended after the earlier children, which keep their order; the subtree grows by the child's subtree |
| SceneGraph.SceneNode.SetParent | Assignment-1-JeremyyChoo-main_/assignment1.scene.js:265-267 | the parent becomes the given node |
| SceneGraph.SceneNode.Adopt | Assignment-1-JeremyyChoo-main_/assignment1.scene.js:122-125 | addChild then setParent on a separate valid tree with its own objects leaves a valid tree with distinct objects, the child appended and its parent set; no other node's children change |
| SceneGraph.SceneNode.Adopted | Assignment-1-JeremyyChoo-main_/assignment1.scene.js:122-125 | after the child is appended and its parent set, with no other link changed, the tree is valid again and its objects are the old ones plus the child's |
| SceneGraph.SceneNode.Preserved | Assignment-1-JeremyyChoo-main_/assignment1.scene.js:122-125 | a subtree none of whose links changed is still a tree, whatever its root's parent |
| SceneGraph.SceneNode.Fold | Assignment-1-JeremyyChoo-main_/assignment1.scene.js:122-125 | a node whose children are trees that cover and are linked to it is a valid tree |
| SceneGraph.SceneNode.CalculateWorldTransformation | Assignment-1-JeremyyChoo-main_/assignment1.scene.js:204-212 | the world transformation is a copy of the node's own local transformation; the parents play no part |
| SceneGraph.SceneNode.SetTransformation | Assignment-1-JeremyyChoo-main_/assignment1.scene.js:365-369 | the node's local transformation becomes m and every other one is kept; afterwards every node of the subtree has its world transformation equal to its local one, and every model node's object holds its world transformation |
| SceneGraph.SceneNode.SetNodeTransformation | Assignment-1-JeremyyChoo-main_/assignment1.scene.js:244-249 | the plain-node update: local and world transformation become m, the other local ones are kept, every node below has world == local and its object's matrix == world; this node's own object is untouched |
| SceneGraph.SceneNode.ChildFrame | Assignment-1-JeremyyChoo-main_/assignment1.scene.js:246-247 | a child's subtree is a tree inside this one whose objects are held by no node outside it, so refreshing it disturbs nothing else |
| SceneGraph.SceneNode.GetTransformationHierarchy | Assignment-1-JeremyyChoo-main_/assignment1.scene.js:221-227 | the accumulator is kept and followed by the local transformations of the node, its parent and so on up to the root, leaf first, one per node of the chain |
| SceneGraph.SceneNode.PathUp | Assignment-1-JeremyyChoo-main_/assignment1.scene.js:223-224 | every node of a valid subtree reaches its root by parent links that stay inside the subtree |
| SceneGraph.SceneNode.AncestryToRoot | Assignment-1-JeremyyChoo-main_/assignment1.scene.js:221-227 | in a scene graph whose root has no parent, every node's parent chain ends at the root, so the hierarchy has depth + 1 entries |
| SceneGraph.AncestryUnique | Assignment-1-JeremyyChoo-main_/assignment1.scene.js:223-224 | the parent links fix the chain: two chains from one node are equal |
| SceneGraph.PathsAgree | Assignment-1-JeremyyChoo-main_/assignment1.scene.js:223-224 | two paths up the parent links from one node agree as far as the shorter goes |
| SceneGraph.SameArrival | Assignment-1-JeremyyChoo-main_/assignment1.scene.js:223-224 | two paths up from one node that first reach the same node right after their ends are equal |
| SceneGraph.SceneNode.PreOrderInRepr | Assignment-1-JeremyyChoo-main_/assignment1.scene.js:284-289 | every node listed in pre-order belongs to the subtree |
| SceneGraph.SceneNode.ChildrenPreOrderIn | Assignment-1-JeremyyChoo-main_/assignment1.scene.js:286-287 | the children's listings hold nodes of the subtree other than its root |
| SceneGraph.SceneNode.PreOrderCovers | Assignment-1-JeremyyChoo-main_/assignment1.scene.js:284-289 | every node of a valid subtree is listed in pre-order |
| SceneGraph.SceneNode.SlotOf | Assignment-1-JeremyyChoo-main_/assignment1.scene.js:122-125 | a node lies below exactly one child of each ancestor |
| SceneGraph.SceneNode.SiblingsApart | Assignment-1-JeremyyChoo-main_/assignment1.scene.js:122-125 | the subtrees of two different children share no node |
| SceneGraph.SceneNode.PreOrderDistinct | Assignment-1-JeremyyChoo-main_/assignment1.scene.js:284-289 | the pre-order of a valid subtree lists each node once |
| SceneGraph.SceneNode.ChildrenPreOrderDistinct | Assignment-1-JeremyyChoo-main_/assignment1.scene.js:286-287 | the listings of the first k children list each node once, each below one of those children |
| SceneGraph.SceneNode.ChildrenPreOrderPrefix | Assignment-1-JeremyyChoo-main_/assignment1.scene.js:286-287 | the listing of the first k children is a prefix of that of the first j >= k |
| SceneGraph.SceneNode.GetNodes | Assignment-1-JeremyyChoo-main_/assignment1.scene.js:284-289 | the result is the accumulator followed by the subtree in pre-order: the node, then each child's subtree in order |
| SceneGraph.SceneNode.GetNode | Assignment-1-JeremyyChoo-main_/assignment1.scene.js:297-308 | the result is the first node in pre-order with the name, and null when none has it |
| SceneGraph.SceneNode.FindStep | Assignment-1-JeremyyChoo-main_/assignment1.scene.js:301-307 | while earlier children's subtrees hold no match, a match in child i is the first in the subtree, and none in any child means none at all |
| SceneGraph.FindConcat | Assignment-1-JeremyyChoo-main_/assignment1.scene.js:301-305 | the first match in a concatenation is the first match in the first part if there is one, else in the second |
| SceneGraph.FindPrefix | Assignment-1-JeremyyChoo-main_/assignment1.scene.js:301-305 | a match found in a prefix is the first match of the whole list |
| SceneGraph.SceneNode.Render | Assignment-1-JeremyyChoo-main_/assignment1.scene.js:378-381 | the drawn objects are the accumulator followed by the objects of the model nodes of the subtree in pre-order, own object before the children's; plain nodes draw nothing themselves |
| SceneGraph.SceneNode.DrawnStep | Assignment-1-JeremyyChoo-main_/assignment1.scene.js:318-320 | drawing one more child appends that child's subtree's objects |
| SceneGraph.SceneNode.DrawnOwn | Assignment-1-JeremyyChoo-main_/assignment1.scene.js:378-381 | a node draws its own object, if any, before its children's |
| SceneGraph.DrawnConcat | Assignment-1-JeremyyChoo-main_/assignment1.scene.js:317-321 | the objects drawn for two lists of nodes are those of the first followed by those of the second |
| SceneGraph.DrawnHolds | Assignment-1-JeremyyChoo-main_/assignment1.scene.js:317-321 | the objects drawn for a list of nodes are exactly the objects its model nodes hold |
| SceneGraph.DrawnDistinct | Assignment-1-JeremyyChoo-main_/assignment1.scene.js:317-321 | when no two model nodes share an object, each object is drawn once |
| SceneGraph.OwnObjectsUnion | Assignment-1-JeremyyChoo-main_/assignment1.scene.js:122 | joining two subtrees with separate objects keeps every object held by one node |
| SceneGraph.DistinctConcat | Assignment-1-JeremyyChoo-main_/assignment1.scene.js:284-289 | two repeat-free lists with no common element concatenate to a repeat-free list |
| Scenes.ModelNames | Assignment-1-JeremyyChoo-main_/assignment1.scene.js:49-60 | the model table has an entry for exactly the names listed |
| Scenes.LastEntryWins | Assignment-1-JeremyyChoo-main_/assignment1.scene.js:53-57 | a name listed more than once gets the mesh of its last entry |
| Scenes.LoadModels | Assignment-1-JeremyyChoo-main_/assignment1.scene.js:49-60 | the table maps each listed name to OBJLoader.load of its file, later entries overwriting earlier ones |
| Scenes.InstantiateModel | Assignment-1-JeremyyChoo-main_/assignment1.scene.js:70-79 | (corrected test) ModelNotFound exactly when the name is not a loaded model, otherwise a fresh object holding that model's mesh |
| Scenes.InstantiateAsWritten | Assignment-1-JeremyyChoo-main_/assignment1.scene.js:70-79 | with the test as written, a success always carries the named model's mesh |
| Scenes.GuardAsWrittenMisfires | Assignment-1-JeremyyChoo-main_/assignment1.scene.js:71-72 | a model called "false" makes an existing model fail with ModelNotFound, and a missing model gives a TypeError |
| Scenes.GuardAsWrittenInert | Assignment-1-JeremyyChoo-main_/assignment1.scene.js:71-75 | unless "true" or "false" is a model name the test never fires: an existing model is found, a missing one is a TypeError |
| Scenes.LoaderDiverges | Assignment-1-JeremyyChoo-main_/assignment1.scene.js:71-75 | for one model node, the loader on the corrected test gives ModelNotFound where the test as written gives a TypeError, and loads where the test as written throws because a model is called "false" |
| Scenes.Outcome | Assignment-1-JeremyyChoo-main_/assignment1.scene.js:92-129 | a node is predicted only for the types "node" and "model"; null only for another type without children, since adding a child to null throws |
| Scenes.ChildrenOutcome | Assignment-1-JeremyyChoo-main_/assignment1.scene.js:116-126 | once the children from index k load, the result says whether the node is made; null is only possible with no children left |
| Scenes.LoadableOutcome | Assignment-1-JeremyyChoo-main_/assignment1.scene.js:92-129 | loading yields a node exactly when every configured node has type "node" or "model" and every model node names a loaded model |
| Scenes.LoadableChildren | Assignment-1-JeremyyChoo-main_/assignment1.scene.js:116-126 | the children from index k on load without error exactly when the node is made and each of them is loadable |
| Scenes.FreshApart | Assignment-1-JeremyyChoo-main_/assignment1.scene.js:119 | a freshly loaded subtree shares no node and no object with the tree built so far |
| Scenes.LoadScenegraphNode | Assignment-1-JeremyyChoo-main_/assignment1.scene.js:92-129 | the error, node or null is the one the configuration predicts; a node is the parentless root of a fresh valid tree with distinct objects that mirrors the configuration: name, type, transformation, object for models[content], children in configuration order with their parent set |
| Scenes.LoadChild | Assignment-1-JeremyyChoo-main_/assignment1.scene.js:116-126 | loading child i either fails as predicted or hangs a fresh mirroring subtree below the node as its child i |
| Scenes.Attach | Assignment-1-JeremyyChoo-main_/assignment1.scene.js:122-125 | hanging a loaded child below the node keeps the node valid with distinct objects and extends the mirrored prefix by one child |
| Scenes.Scene.constructor | Assignment-1-JeremyyChoo-main_/assignment1.scene.js:29-40 | setting the root's transformation to itself keeps every local transformation and makes every world transformation equal to its local one and every model matrix equal to its node's world transformation |
| Scenes.Scene.GetNodes | Assignment-1-JeremyyChoo-main_/assignment1.scene.js:136-139 | every node of the scene graph in pre-order, each exactly once |
| Scenes.Scene.GetNode | Assignment-1-JeremyyChoo-main_/assignment1.scene.js:147-152 | NodeNotFound exactly when no node of the graph has the name; otherwise the first such node in pre-order |
| Scenes.Scene.Render | Assignment-1-JeremyyChoo-main_/assignment1.scene.js:159-161 | the objects of the model nodes in pre-order, each object once, and every object of the graph drawn |
| Scenes.LoadScene | Assignment-1-JeremyyChoo-main_/assignment1.scene.js:29-40 | the scene loads exactly when the configuration predicts a node; otherwise the predicted error, or a TypeError for a null root; a loaded scene mirrors the configuration, has the model table of the model list, and has every world transformation and model matrix computed |

## Left out

- `assignment1.webglapp.js` is not part of this model: GL state, shaders, input and the camera are floating-point UI code.
- File reading: `loadExternalFile` becomes the parameter `readFile`, and OBJ text is taken as already read.
- JSON parsing of the scene file and `json2transform`: a node configuration carries its transformation as an opaque `Mat4` value.
- glMatrix internals: matrices are opaque values. `mat4.clone` is a value copy, because nodes never compare matrices by identity.
- `Object3D` (object3d.js is not part of this model): only its mesh and model matrix are kept. A new object's matrix is taken to be the identity. Its GL buffers, `render` call and `setDrawMode` are left out.
- Drawing: `render(gl)` is modelled as the list of objects drawn, in order, instead of GL calls.
- `console.log` calls in `loadModels` and `loadScenegraphNode`.
- `parseFloat` is a parameter, a total map from token to real. NaN from `parseFloat` and float rounding in normalisation are not modelled; arithmetic is exact over reals.
- Text.ParseInt: leading whitespace skipping, the "0x" hexadecimal prefix and precision loss on very long digit runs of JavaScript's parseInt are not modelled; tokens never hold spaces, since they come from `split(' ')`.
- The getters `getWorldTransformation`, `getTransformation` and `getParent` are plain field reads and have no member of their own.
- The world transformation in the constructor aliases the local array in JavaScript; here both are values, so aliasing is not modelled.
- The documented design, including the doc comments at scene.js:190-202, has the world transformation compose the parents' transformations. The code copies the node's own transformation. This model follows the code and proves world == local, not a composed product.
- A configuration without a `children` array, or a model list that is not iterable: configurations here always have a (possibly empty) child list.
- The key test `in` on a plain JavaScript object also sees inherited keys such as "toString"; the model table is a map with only the loaded names.
- Scenes.LoadScenegraphNode: when a child fails to load, the JavaScript nodes built so far are discarded with the exception; the model returns the error and says nothing about those partial nodes.
- SceneGraph.SceneNode.GetTransformationHierarchy: the parent chain is passed as a ghost argument; the method is specified for nodes whose chain ends, which AncestryToRoot proves for every node of a loaded scene.
- SceneGraph.SceneNode.GetNodes, GetNode and Render require the tree shape (`Shape`), and SetTransformation requires `Shape`, `Covered` and `DistinctObjects`; every tree built by loading satisfies all three. On a cyclic graph JavaScript would overflow the call stack with a RangeError, which is not modelled.
- SceneGraph.SceneNode.GetNodes and SceneGraph.SceneNode.GetTransformationHierarchy: in JavaScript the recursive calls push into the caller's array in place and rely on that mutation (scene.js:222-224, 285-287); the model passes the accumulator as a sequence value and returns the extended one, so sharing of that array is not modelled.
- Scenes.Outcome, Scenes.ChildrenOutcome, Scenes.LoadableOutcome, Scenes.LoadableChildren, Scenes.LoadScenegraphNode and Scenes.LoadScene use the corrected test `!(name in models)`, not the one written at scene.js:71: a missing model gives ModelNotFound where the code fails with a TypeError at scene.js:75, and a model called "false" does not block loading (see Findings and Scenes.LoaderDiverges).
- ObjLoaderProperties.NormalizeKeepsOrder states order preservation between two scalars and ScaleKeepsRatios the ratio of differences for the map; the product form for three or more scalars is not stated separately.

## Findings

| source | as written | input that shows it | evidently intended | confidence | as-written member | corrected member |
|---|---|---|---|---|---|---|
| Assignment-1-JeremyyChoo-main_/assignment1.scene.js:71 | `!name in this.models` negates the name first, so it tests for the key "false" (or "true" for an empty name) | models {"false", "cube"} with name "cube" throws "Unable to find model"; models {"cube"} with name "sphere" passes the test and fails with a TypeError when destructuring the missing entry | `!(name in this.models)`: throw exactly when the name is not a loaded model | not executed | Scenes.InstantiateAsWritten, Scenes.GuardAsWrittenMisfires, Scenes.LoaderDiverges | Scenes.InstantiateModel, Scenes.Outcome, Scenes.LoadableOutcome, Scenes.LoadScenegraphNode, Scenes.LoadScene |
