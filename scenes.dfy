/**
 * A scene: the OBJ models it names, loaded into a name-to-mesh table, and
 * the scene graph built from a configuration tree, with queries and drawing
 * delegated to the graph's root.
 */
module Scenes {
  import opened Wrappers
  import opened Text
  import opened ObjLoader
  import opened SceneGraph

  /** What loading or querying a scene throws. */
  datatype SceneError =
    | ModelNotFound(name: string)  // a model node names a model that was not loaded
    | NodeNotFound(name: string)   // a node looked up by name is not in the graph
    | TypeError                    // a property read or method call on null or undefined

  /** One entry of the configuration's model list: a model name and its OBJ file. */
  datatype ModelConfig = ModelConfig(name: string, obj: string)

  /**
   * One node of the configuration's scene graph. The transformation stands
   * for what json2transform makes of the node's transformation entry.
   */
  datatype NodeConfig = NodeConfig(name: string, nodeType: string, content: string, transformation: Mat4, children: seq<NodeConfig>)

  /** The mesh OBJLoader.load makes of the file at `path`; `readFile` stands for reading it. */
  function MeshOf(path: string, readFile: string -> string, parseFloat: string -> real): Mesh {
    var lines := Split(readFile(path), '\n');
    Mesh(Normalize(VertexData(lines, parseFloat)), IndexData(lines))
  }

  /** The model table after loading the entries of `configs` in order, later entries overwriting earlier ones. */
  function ModelsOf(configs: seq<ModelConfig>, readFile: string -> string, parseFloat: string -> real): map<string, Mesh> {
    if |configs| == 0 then map[]
    else
      var last := configs[|configs| - 1];
      ModelsOf(configs[..|configs| - 1], readFile, parseFloat)[last.name := MeshOf(last.obj, readFile, parseFloat)]
  }

  /** The table has an entry for exactly the names listed. */
  lemma {:induction false} ModelNames(configs: seq<ModelConfig>, name: string, readFile: string -> string, parseFloat: string -> real)
    ensures name in ModelsOf(configs, readFile, parseFloat) <==> exists i :: 0 <= i < |configs| && configs[i].name == name
  {
    if |configs| > 0 {
      var init := configs[..|configs| - 1];
      ModelNames(init, name, readFile, parseFloat);
      if name in ModelsOf(init, readFile, parseFloat) {
        var i :| 0 <= i < |init| && init[i].name == name;
        assert configs[i].name == name;
      }
      if exists i :: 0 <= i < |configs| && configs[i].name == name {
        var i :| 0 <= i < |configs| && configs[i].name == name;
        if i < |init| {
          assert init[i].name == name;
        }
      }
    }
  }

  /** A name listed more than once gets the mesh of its last entry. */
  lemma {:induction false} LastEntryWins(configs: seq<ModelConfig>, i: nat, readFile: string -> string, parseFloat: string -> real)
    requires i < |configs|
    requires forall j :: i < j < |configs| ==> configs[j].name != configs[i].name
    ensures configs[i].name in ModelsOf(configs, readFile, parseFloat)
    ensures ModelsOf(configs, readFile, parseFloat)[configs[i].name] == MeshOf(configs[i].obj, readFile, parseFloat)
  {
    if i < |configs| - 1 {
      LastEntryWins(configs[..|configs| - 1], i, readFile, parseFloat);
    }
  }

  /** Loads every listed model with OBJLoader. */
  method LoadModels(configs: seq<ModelConfig>, readFile: string -> string, parseFloat: string -> real) returns (models: map<string, Mesh>)
    ensures models == ModelsOf(configs, readFile, parseFloat)
  {
    models := map[];
    for i := 0 to |configs|
      invariant models == ModelsOf(configs[..i], readFile, parseFloat)
    {
      var vertices, indices := Load(readFile(configs[i].obj), parseFloat);
      assert Mesh(vertices, indices) == MeshOf(configs[i].obj, readFile, parseFloat);
      models := models[configs[i].name := Mesh(vertices, indices)];
      assert configs[..i + 1][..i] == configs[..i] && configs[..i + 1][i] == configs[i];
    }
    assert configs[..|configs|] == configs;
  }

  /**
   * An Object3D for the named model, or ModelNotFound when no model of that
   * name was loaded.
   */
  method InstantiateModel(models: map<string, Mesh>, name: string) returns (r: Result<Object3D, SceneError>)
    ensures r.Err? <==> name !in models
    ensures r.Err? ==> r.error == ModelNotFound(name)
    ensures r.Ok? ==> fresh(r.value) && r.value.mesh == models[name]
  {
    if name !in models {
      return Err(ModelNotFound(name));
    }
    var obj := new Object3D(models[name]);
    return Ok(obj);
  }

  /**
   * The existence test as written, `!name in models`: the negation binds
   * first, so it asks for the key "false" (or "true" when the name is empty).
   */
  function GuardAsWritten(models: map<string, Mesh>, name: string): bool {
    (if name == "" then "true" else "false") in models
  }

  /**
   * What instantiating yields with that test: ModelNotFound when the test
   * fires, the mesh when the name is a model, and otherwise a TypeError from
   * destructuring the missing entry.
   */
  function InstantiateAsWritten(models: map<string, Mesh>, name: string): (r: Result<Mesh, SceneError>)
    ensures r.Ok? ==> name in models && r.value == models[name]
  {
    if GuardAsWritten(models, name) then Err(ModelNotFound(name))
    else if name in models then Ok(models[name])
    else Err(TypeError)
  }

  /**
   * The test misfires both ways: a model called "false" makes every lookup
   * fail, and a missing model gives a TypeError instead of ModelNotFound.
   */
  lemma GuardAsWrittenMisfires(m: Mesh)
    ensures InstantiateAsWritten(map["false" := m, "cube" := m], "cube") == Err(ModelNotFound("cube"))
    ensures InstantiateAsWritten(map["cube" := m], "sphere") == Err(TypeError)
  {
    assert "cube" != "";
    assert "sphere" != "" && "sphere" != "false" && "sphere" != "cube";
  }

  /**
   * Unless "true" or "false" is a model name, the test as written never
   * fires: an existing model is found, a missing one fails with a TypeError.
   */
  lemma GuardAsWrittenInert(models: map<string, Mesh>, name: string)
    requires "true" !in models && "false" !in models
    ensures !GuardAsWritten(models, name)
    ensures InstantiateAsWritten(models, name) == if name in models then Ok(models[name]) else Err(TypeError)
  {
  }

  /** The node types that make a node; any other type leaves it null. */
  predicate Builds(nodeType: string) {
    nodeType == "node" || nodeType == "model"
  }

  /**
   * What loading `cfg` yields: an error, Ok(true) for a node, or Ok(false)
   * for null. A model node's model is looked up before any child is loaded.
   */
  function Outcome(models: map<string, Mesh>, cfg: NodeConfig): (r: Result<bool, SceneError>)
    decreases cfg, |cfg.children| + 1
    ensures r == Ok(true) ==> Builds(cfg.nodeType)
    ensures r == Ok(false) ==> !Builds(cfg.nodeType) && |cfg.children| == 0
  {
    if cfg.nodeType == "model" && cfg.content !in models then Err(ModelNotFound(cfg.content))
    else ChildrenOutcome(models, cfg, 0)
  }

  /**
   * Loading the children from index k on: each child is loaded first, and
   * its error wins; then adding it to a null node, or setting the parent of a
   * null child, is a TypeError.
   */
  function ChildrenOutcome(models: map<string, Mesh>, cfg: NodeConfig, k: nat): (r: Result<bool, SceneError>)
    requires k <= |cfg.children|
    decreases cfg, |cfg.children| - k
    ensures r.Ok? ==> r.value == Builds(cfg.nodeType)
    ensures r == Ok(false) ==> k == |cfg.children|
  {
    if k == |cfg.children| then Ok(Builds(cfg.nodeType))
    else
      match Outcome(models, cfg.children[k])
      case Err(e) => Err(e)
      case Ok(child) => if Builds(cfg.nodeType) && child then ChildrenOutcome(models, cfg, k + 1) else Err(TypeError)
  }

  /** Every node of the configuration has a known type, and every model node names a loaded model. */
  predicate Loadable(models: map<string, Mesh>, cfg: NodeConfig)
    decreases cfg
  {
    Builds(cfg.nodeType) &&
    (cfg.nodeType == "model" ==> cfg.content in models) &&
    forall i :: 0 <= i < |cfg.children| ==> Loadable(models, cfg.children[i])
  }

  /** Loading yields a node exactly when the configuration is loadable. */
  lemma {:induction false} LoadableOutcome(models: map<string, Mesh>, cfg: NodeConfig)
    decreases cfg, 1
    ensures Outcome(models, cfg) == Ok(true) <==> Loadable(models, cfg)
  {
    LoadableChildren(models, cfg, 0);
  }

  lemma {:induction false} LoadableChildren(models: map<string, Mesh>, cfg: NodeConfig, k: nat)
    requires k <= |cfg.children|
    decreases cfg, 0, |cfg.children| - k
    ensures ChildrenOutcome(models, cfg, k) == Ok(true) <==>
      Builds(cfg.nodeType) && forall i :: k <= i < |cfg.children| ==> Loadable(models, cfg.children[i])
  {
    if k < |cfg.children| {
      LoadableOutcome(models, cfg.children[k]);
      LoadableChildren(models, cfg, k + 1);
    }
  }

  /**
   * The loader is built on the corrected test. For a single model node it
   * parts from the test as written on both inputs of GuardAsWrittenMisfires:
   * a missing model is ModelNotFound rather than a TypeError, and a model
   * called "false" does not block loading.
   */
  lemma LoaderDiverges(m: Mesh, t: Mat4)
    ensures var missing := map["cube" := m];
      Outcome(missing, NodeConfig("n", "model", "sphere", t, [])) == Err(ModelNotFound("sphere")) &&
      InstantiateAsWritten(missing, "sphere") == Err(TypeError)
    ensures var shadowed := map["false" := m, "cube" := m];
      Outcome(shadowed, NodeConfig("n", "model", "cube", t, [])) == Ok(true) &&
      InstantiateAsWritten(shadowed, "cube") == Err(ModelNotFound("cube"))
  {
  }

  /** The node itself is the one `cfg` describes: name, type, local transformation, and an object exactly for a model node. */
  ghost predicate Made(n: SceneNode, models: map<string, Mesh>, cfg: NodeConfig)
    reads n`transformation
  {
    n.name == cfg.name && n.nodeType == cfg.nodeType && n.transformation == cfg.transformation &&
    if cfg.nodeType == "model" then n.obj3d != null && cfg.content in models && n.obj3d.mesh == models[cfg.content]
    else n.obj3d == null
  }

  /**
   * The subtree rooted at `n` is the one `cfg` describes: every node is made
   * as configured and has the configured children, in order.
   */
  ghost predicate Mirrors(n: SceneNode, models: map<string, Mesh>, cfg: NodeConfig)
    requires n.Shape()
    reads n`children, n`Repr, n.Repr`children, n.Repr`Repr, n.Repr`transformation
    decreases cfg
  {
    Made(n, models, cfg) && |n.children| == |cfg.children| &&
    forall i {:trigger Mirrors(n.children[i], models, cfg.children[i])} :: 0 <= i < |cfg.children| ==> Mirrors(n.children[i], models, cfg.children[i])
  }

  /** Objects made since some state are none of those that existed then. */
  twostate lemma FreshApart(a: set<object>, new b: set<object>)
    requires old(allocated(a)) && fresh(b)
    ensures a * b == {}
  {
  }

  /** A node under construction: made as `cfg` says, with the first i children mirroring their configurations. */
  ghost predicate Partial(n: SceneNode, models: map<string, Mesh>, cfg: NodeConfig, i: nat)
    requires n.Shape()
    reads n`children, n`Repr, n.Repr`children, n.Repr`Repr, n.Repr`transformation
  {
    Made(n, models, cfg) && i <= |cfg.children| && |n.children| == i &&
    forall j {:trigger Mirrors(n.children[j], models, cfg.children[j])} :: 0 <= j < i ==> Mirrors(n.children[j], models, cfg.children[j])
  }

  /**
   * Loads the configured subtree: makes the node its type calls for (none
   * for an unknown type), then loads each child in turn and hangs it below
   * the node. The outcome is the one Outcome predicts; a node that is made
   * is the root of a fresh tree that mirrors the configuration.
   */
  method LoadScenegraphNode(models: map<string, Mesh>, cfg: NodeConfig) returns (r: Result<SceneNode?, SceneError>)
    decreases cfg, 1
    ensures r.Err? ==> Outcome(models, cfg) == Err(r.error)
    ensures r.Ok? ==> Outcome(models, cfg) == Ok(r.value != null)
    ensures r.Ok? && r.value != null ==>
      r.value.Valid() && r.value.DistinctObjects() && r.value.parent == null &&
      fresh(r.value.Repr) && fresh(r.value.Objects()) && Mirrors(r.value, models, cfg)
  {
    var node: SceneNode;
    if cfg.nodeType == "node" {
      node := new SceneNode(cfg.name, cfg.nodeType, cfg.transformation, null);
    } else if cfg.nodeType == "model" {
      var obj := InstantiateModel(models, cfg.content);
      if obj.Err? {
        return Err(obj.error);
      }
      node := new SceneNode(cfg.name, cfg.nodeType, cfg.transformation, obj.value);
    } else {
      // No node is made; the first child is still loaded before adding it to null fails.
      if |cfg.children| == 0 {
        return Ok(null);
      }
      var child := LoadScenegraphNode(models, cfg.children[0]);
      if child.Err? {
        return Err(child.error);
      }
      return Err(TypeError);
    }
    for i := 0 to |cfg.children|
      invariant Outcome(models, cfg) == ChildrenOutcome(models, cfg, i)
      invariant node.Valid() && node.DistinctObjects() && node.parent == null
      invariant Partial(node, models, cfg, i) && fresh(node.Repr) && fresh(node.Objects())
    {
      var done := LoadChild(models, cfg, i, node);
      if done.Err? {
        return Err(done.error);
      }
    }
    return Ok(node);
  }

  /**
   * One pass of the loop over the children: loads child i and hangs it below
   * `node`, which holds the first i children already. A null child fails
   * when its parent is set.
   */
  method LoadChild(models: map<string, Mesh>, cfg: NodeConfig, i: nat, node: SceneNode) returns (r: Result<(), SceneError>)
    requires i < |cfg.children| && Builds(cfg.nodeType)
    requires node.Valid() && node.DistinctObjects() && node.parent == null && Partial(node, models, cfg, i)
    modifies node`children, node`Repr, node`Slot, node`Position
    decreases cfg, 0
    ensures r.Err? ==> ChildrenOutcome(models, cfg, i) == Err(r.error)
    ensures r.Ok? ==> ChildrenOutcome(models, cfg, i) == ChildrenOutcome(models, cfg, i + 1)
    ensures r.Ok? ==> node.Valid() && node.DistinctObjects() && node.parent == null && Partial(node, models, cfg, i + 1)
    ensures r.Ok? ==> old(node.Repr) <= node.Repr && fresh(node.Repr - old(node.Repr))
    ensures r.Ok? ==> old(node.Objects()) <= node.Objects() && fresh(node.Objects() - old(node.Objects()))
  {
    var child := LoadScenegraphNode(models, cfg.children[i]);
    if child.Err? {
      return Err(child.error);
    }
    if child.value == null {
      return Err(TypeError);
    }
    FreshApart(node.Repr, child.value.Repr);
    FreshApart(node.Objects(), child.value.Objects());
    Attach(models, cfg, i, node, child.value);
    return Ok(());
  }

  /** Hangs the loaded child i below `node`: addChild, then setParent on the child. */
  method Attach(models: map<string, Mesh>, cfg: NodeConfig, i: nat, node: SceneNode, c: SceneNode)
    requires i < |cfg.children|
    requires node.Valid() && node.DistinctObjects() && node.parent == null && Partial(node, models, cfg, i)
    requires c.Valid() && c.DistinctObjects() && Mirrors(c, models, cfg.children[i])
    requires node.Repr * c.Repr == {} && node.Objects() * c.Objects() == {}
    modifies node`children, node`Repr, node`Slot, node`Position, c`parent
    ensures node.Valid() && node.DistinctObjects() && node.parent == null && Partial(node, models, cfg, i + 1)
    ensures node.Repr == old(node.Repr) + c.Repr && node.Objects() == old(node.Objects()) + c.Objects()
  {
    node.Adopt(c);
  }

  /** A loaded scene: the model table and the root of its scene graph. */
  class Scene {
    const models: map<string, Mesh>
    const scenegraph: SceneNode

    /** The scene graph is a tree with distinct objects whose root has no parent. */
    ghost predicate Valid()
      reads scenegraph`children, scenegraph`Repr, scenegraph`Slot, scenegraph`Position, scenegraph`parent,
        scenegraph.Repr`children, scenegraph.Repr`Repr, scenegraph.Repr`Slot, scenegraph.Repr`Position, scenegraph.Repr`parent
    {
      scenegraph.Valid() && scenegraph.DistinctObjects() && scenegraph.parent == null
    }

    /**
     * Takes the loaded models and scene graph, then sets the root's
     * transformation to itself, which computes every world transformation
     * and model matrix and leaves every local transformation as it was.
     */
    constructor (models: map<string, Mesh>, scenegraph: SceneNode)
      requires scenegraph.Valid() && scenegraph.DistinctObjects() && scenegraph.parent == null
      modifies scenegraph.Repr`transformation, scenegraph.Repr`worldTransformation, scenegraph.Objects()`modelMatrix
      ensures this.models == models && this.scenegraph == scenegraph && Valid()
      ensures forall n :: n in scenegraph.Repr ==> n.transformation == old(n.transformation)
      ensures forall n :: n in scenegraph.Repr ==>
        n.worldTransformation == n.transformation && (n.obj3d != null ==> n.obj3d.modelMatrix == n.worldTransformation)
    {
      this.models := models;
      this.scenegraph := scenegraph;
      new;
      scenegraph.SetTransformation(scenegraph.transformation);
    }

    /** Every node of the scene graph, in pre-order, each once. */
    method GetNodes() returns (r: seq<SceneNode>)
      requires Valid()
      ensures r == scenegraph.PreOrder()
      ensures Distinct(r) && forall n :: n in r <==> n in scenegraph.Repr
    {
      r := scenegraph.GetNodes([]);
      assert [] + scenegraph.PreOrder() == scenegraph.PreOrder();
      scenegraph.PreOrderDistinct();
      scenegraph.PreOrderCovers();
      scenegraph.PreOrderInRepr();
    }

    /**
     * The first node, in pre-order, called `name`; NodeNotFound exactly when
     * no node of the scene graph has that name.
     */
    method GetNode(name: string) returns (r: Result<SceneNode, SceneError>)
      requires Valid()
      ensures r.Err? <==> forall n :: n in scenegraph.Repr ==> n.name != name
      ensures r.Err? ==> r.error == NodeNotFound(name)
      ensures r.Ok? ==> r.value == Find(scenegraph.PreOrder(), name) && r.value in scenegraph.Repr && r.value.name == name
    {
      var node := scenegraph.GetNode(name);
      scenegraph.PreOrderCovers();
      scenegraph.PreOrderInRepr();
      if node == null {
        return Err(NodeNotFound(name));
      }
      return Ok(node);
    }

    /** Draws the scene: the objects of the model nodes, in pre-order. */
    method Render() returns (r: seq<Object3D>)
      requires Valid()
      ensures r == Drawn(scenegraph.PreOrder())
      ensures Distinct(r) && forall o :: o in r <==> o in scenegraph.Objects()
    {
      r := scenegraph.Render([]);
      assert [] + Drawn(scenegraph.PreOrder()) == Drawn(scenegraph.PreOrder());
      var nodes := scenegraph.PreOrder();
      scenegraph.PreOrderDistinct();
      scenegraph.PreOrderCovers();
      scenegraph.PreOrderInRepr();
      DrawnHolds(nodes);
      assert forall i, j :: 0 <= i < j < |nodes| && nodes[i].obj3d != null ==> nodes[i].obj3d != nodes[j].obj3d by {
        forall i, j | 0 <= i < j < |nodes| && nodes[i].obj3d != null
          ensures nodes[i].obj3d != nodes[j].obj3d
        {
          assert nodes[i] in scenegraph.Repr && nodes[j] in scenegraph.Repr && nodes[i] != nodes[j];
        }
      }
      DrawnDistinct(nodes);
      forall o | o in scenegraph.Objects()
        ensures o in r
      {
        var n :| n in scenegraph.Repr && n.obj3d != null && n.obj3d == o;
        var k :| 0 <= k < |nodes| && nodes[k] == n;
      }
    }
  }

  /**
   * Builds a scene from its configuration: loads the models, loads the scene
   * graph, then sets the root's transformation to itself so that every world
   * transformation and model matrix is computed. A missing root is a
   * TypeError when its transformation is set.
   */
  method LoadScene(modelConfigs: seq<ModelConfig>, cfg: NodeConfig, readFile: string -> string, parseFloat: string -> real)
    returns (r: Result<Scene, SceneError>)
    ensures r.Ok? <==> Outcome(ModelsOf(modelConfigs, readFile, parseFloat), cfg) == Ok(true)
    ensures r.Err? ==> r.error == match Outcome(ModelsOf(modelConfigs, readFile, parseFloat), cfg)
      case Err(e) => e
      case Ok(_) => TypeError
    ensures r.Ok? ==> fresh(r.value) && r.value.Valid() && r.value.models == ModelsOf(modelConfigs, readFile, parseFloat)
    ensures r.Ok? ==> Mirrors(r.value.scenegraph, r.value.models, cfg)
    ensures r.Ok? ==> forall n :: n in r.value.scenegraph.Repr ==>
      n.worldTransformation == n.transformation && (n.obj3d != null ==> n.obj3d.modelMatrix == n.worldTransformation)
  {
    var models := LoadModels(modelConfigs, readFile, parseFloat);
    var root := LoadScenegraphNode(models, cfg);
    if root.Err? {
      return Err(root.error);
    }
    if root.value == null {
      return Err(TypeError);
    }
    var scene := new Scene(models, root.value);
    return Ok(scene);
  }
}
