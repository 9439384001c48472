/**
 * The scene graph: a tree of nodes, each with a name, a type, a local
 * transformation and a world transformation; model nodes also hold a 3D
 * object that is drawn with the node's world transformation.
 */
module SceneGraph {
  import opened Wrappers
  import opened JsNumber
  import opened ObjLoader

  /** A 4x4 matrix as glMatrix stores it: sixteen numbers in column-major order. */
  datatype Mat4 = Mat4(entries: seq<real>)

  const Identity: Mat4 := Mat4([1.0, 0.0, 0.0, 0.0, 0.0, 1.0, 0.0, 0.0, 0.0, 0.0, 1.0, 0.0, 0.0, 0.0, 0.0, 1.0])

  /** The geometry of one OBJ model, as OBJLoader.load returns it. */
  datatype Mesh = Mesh(vertices: seq<Number>, indices: seq<Index>)

  /**
   * The part of an Object3D the scene graph uses: the geometry it was built
   * from and the model matrix it is drawn with.
   */
  class Object3D {
    const mesh: Mesh
    var modelMatrix: Mat4

    constructor (mesh: Mesh)
      ensures this.mesh == mesh && modelMatrix == Identity
    {
      this.mesh := mesh;
      modelMatrix := Identity;
    }

    method SetTransformation(m: Mat4)
      modifies this`modelMatrix
      ensures modelMatrix == m
    {
      modelMatrix := m;
    }
  }

  /** The first node of `nodes` called `name`, or null when there is none. */
  function Find(nodes: seq<SceneNode>, name: string): (r: SceneNode?)
    ensures r != null ==> r in nodes && r.name == name
    ensures r == null <==> forall k :: 0 <= k < |nodes| ==> nodes[k].name != name
    ensures r != null ==> exists k :: 0 <= k < |nodes| && nodes[k] == r && forall j :: 0 <= j < k ==> nodes[j].name != name
  {
    if |nodes| == 0 then null
    else if nodes[0].name == name then nodes[0]
    else
      var r' := Find(nodes[1..], name);
      assert r' != null ==> exists k :: 1 <= k < |nodes| && nodes[k] == r' && forall j :: 1 <= j < k ==> nodes[j].name != name by {
        if r' != null {
          var k :| 0 <= k < |nodes[1..]| && nodes[1..][k] == r' && forall j :: 0 <= j < k ==> nodes[1..][j].name != name;
          assert nodes[k + 1] == r';
          assert forall j :: 1 <= j < k + 1 ==> nodes[j] == nodes[1..][j - 1];
        }
      }
      r'
  }

  /** The objects of the model nodes of `nodes`, in order. */
  function Drawn(nodes: seq<SceneNode>): seq<Object3D> {
    if |nodes| == 0 then []
    else (if nodes[0].obj3d == null then [] else [nodes[0].obj3d]) + Drawn(nodes[1..])
  }

  /**
   * A node of the scene graph. A plain node ("node") has no object; a model
   * node ("model") has one, and passes its world transformation to it.
   */
  class SceneNode {
    const name: string
    const nodeType: string
    const obj3d: Object3D?
    var transformation: Mat4
    var worldTransformation: Mat4
    var parent: SceneNode?
    var children: seq<SceneNode>
    /** The nodes of the subtree rooted here, this node included. */
    ghost var Repr: set<SceneNode>
    /** For each other node of the subtree, the index of the child whose subtree holds it. */
    ghost var Slot: map<SceneNode, nat>
    /** The index of each child in `children`. */
    ghost var Position: map<SceneNode, nat>

    /**
     * The subtree is a finite nesting: each child is in Repr, and its subtree
     * lies within this one and does not hold this node.
     */
    ghost predicate Shape()
      reads this`children, this`Repr, Repr`children, Repr`Repr
      decreases Repr
    {
      this in Repr &&
      forall c :: c in children ==> c in Repr && c.Repr <= Repr && this !in c.Repr && c.Shape()
    }

    /**
     * Every other node of Repr lies in the subtree of the child that Slot
     * names, and so on all the way down: Repr holds nothing but the subtree.
     */
    ghost predicate Covered()
      requires Shape()
      reads this`children, this`Repr, this`Slot, Repr`children, Repr`Repr, Repr`Slot
      decreases Repr
    {
      (forall n {:trigger n in Slot} :: n in Repr && n != this ==>
        n in Slot && Slot[n] < |children| && n in children[Slot[n]].Repr) &&
      (forall c :: c in children ==> c.Covered())
    }

    /**
     * The links of the subtree are right: each child has this node as parent
     * and sits at the index Position gives it, so no child is listed twice;
     * and so on all the way down.
     */
    ghost predicate Linked()
      requires Shape()
      reads this`children, this`Repr, this`Position, Repr`children, Repr`Repr, Repr`Position, (Repr - {this})`parent
      decreases Repr
    {
      (forall i :: 0 <= i < |children| ==> children[i] in Position && Position[children[i]] == i) &&
      (forall c :: c in children ==> c.parent == this && c.Linked())
    }

    /** The subtree is a well-formed tree. */
    ghost predicate Valid()
      reads this`children, this`Repr, this`Slot, this`Position, Repr`children, Repr`Repr, Repr`Slot, Repr`Position, (Repr - {this})`parent
    {
      Shape() && Covered() && Linked()
    }

    /** No Object3D is shared by two nodes of the subtree. */
    ghost predicate DistinctObjects()
      reads this`Repr
    {
      OwnObjects(Repr)
    }

    /** The objects held by the model nodes of the subtree. */
    ghost function Objects(): set<Object3D>
      reads this`Repr
    {
      ObjectsOf(Repr)
    }

    /** The subtree in depth-first pre-order: this node, then each child's subtree in turn. */
    ghost function PreOrder(): (r: seq<SceneNode>)
      requires Shape()
      reads this`children, this`Repr, Repr`children, Repr`Repr
      decreases Repr, 1
      ensures |r| > 0 && r[0] == this
    {
      [this] + ChildrenPreOrder(|children|)
    }

    /** The pre-orders of the first k children, concatenated. */
    ghost function ChildrenPreOrder(k: nat): seq<SceneNode>
      requires Shape() && k <= |children|
      reads this`children, this`Repr, Repr`children, Repr`Repr
      decreases Repr, 0, k
    {
      if k == 0 then [] else ChildrenPreOrder(k - 1) + children[k - 1].PreOrder()
    }

    constructor (name: string, nodeType: string, transformation: Mat4, obj3d: Object3D?)
      ensures this.name == name && this.nodeType == nodeType && this.obj3d == obj3d
      ensures this.transformation == transformation && worldTransformation == transformation
      ensures parent == null && children == [] && Repr == {this}
      ensures Valid() && DistinctObjects()
    {
      this.name := name;
      this.nodeType := nodeType;
      this.obj3d := obj3d;
      this.transformation := transformation;
      worldTransformation := transformation;
      parent := null;
      children := [];
      Repr := {this};
      Slot := map[];
      Position := map[];
    }

    /**
     * Appends `node` to the children, leaving the earlier ones as they were;
     * the subtree grows by the child's subtree, whose nodes the new slot holds.
     */
    method AddChild(node: SceneNode)
      modifies this`children, this`Repr, this`Slot, this`Position
      ensures children == old(children) + [node]
      ensures Repr == old(Repr) + node.Repr
      ensures Slot == old(Slot) + map n | n in node.Repr :: |old(children)|
      ensures Position == old(Position)[node := |old(children)|]
    {
      Slot := Slot + map n | n in node.Repr :: |children|;
      Position := Position[node := |children|];
      children := children + [node];
      Repr := Repr + node.Repr;
    }

    /**
     * addChild followed by setParent on the child, the way a loaded subtree is
     * linked in: a tree with distinct objects stays one when a separate such
     * tree is hung below it.
     */
    method Adopt(c: SceneNode)
      requires Valid() && DistinctObjects()
      requires c.Valid() && c.DistinctObjects()
      requires Repr * c.Repr == {} && Objects() * c.Objects() == {}
      modifies this`children, this`Repr, this`Slot, this`Position, c`parent
      ensures children == old(children) + [c] && Repr == old(Repr) + c.Repr && c.parent == this
      ensures Objects() == old(Objects()) + c.Objects()
      ensures Valid() && DistinctObjects()
      ensures forall m :: m in old(Repr) + old(c.Repr) && m != this ==> m.children == old(m.children) && m.Repr == old(m.Repr)
    {
      assert this !in Repr * c.Repr && c !in Repr * c.Repr;
      AddChild(c);
      c.SetParent(this);
      Adopted(c);
    }

    /**
     * The proof behind Adopt: after the child is appended and its parent set,
     * with nothing else changed, the tree is well formed again.
     */
    twostate lemma Adopted(c: SceneNode)
      requires old(Valid() && DistinctObjects() && c.Valid() && c.DistinctObjects())
      requires old(Repr * c.Repr) == {} && old(Objects() * c.Objects()) == {}
      requires children == old(children) + [c] && Repr == old(Repr) + old(c.Repr)
      requires Slot == old(Slot) + map n | n in old(c.Repr) :: |old(children)|
      requires Position == old(Position)[c := |old(children)|]
      requires c.parent == this
      requires forall n :: n in old(Repr) + old(c.Repr) && n != this ==>
        n.children == old(n.children) && n.Repr == old(n.Repr) && n.Slot == old(n.Slot) && n.Position == old(n.Position)
      requires forall n :: n in old(Repr) + old(c.Repr) && n != c ==> n.parent == old(n.parent)
      ensures Valid() && DistinctObjects() && Objects() == old(Objects()) + old(c.Objects())
    {
      ghost var kids := old(children);
      assert this !in old(Repr * c.Repr) && c !in old(Repr * c.Repr);
      forall cc | cc in kids
        ensures this !in old(cc.Repr) && c !in old(cc.Repr) && old(cc.Repr) * old(c.Repr) == {}
      {
      }
      forall cc | cc in kids + [c]
        ensures cc.Shape() && cc.Covered() && cc.Linked()
      {
        Preserved(cc);
      }
      forall n {:trigger n in Slot} | n in Repr && n != this
        ensures n in Slot && Slot[n] < |children| && n in children[Slot[n]].Repr
      {
        if n !in old(c.Repr) {
          assert n in old(Slot);
        }
      }
      forall i | 0 <= i < |children|
        ensures children[i] in Position && Position[children[i]] == i
      {
        if i < |kids| {
          assert children[i] == kids[i] && kids[i] != c;
        }
      }
      Fold();
      OwnObjectsUnion(old(Repr), old(c.Repr));
    }

    /**
     * A subtree none of whose links changed is still a tree; its root's
     * parent plays no part.
     */
    twostate lemma Preserved(cc: SceneNode)
      requires old(cc.Shape() && cc.Covered() && cc.Linked())
      requires forall n :: n in old(cc.Repr) ==>
        n.children == old(n.children) && n.Repr == old(n.Repr) && n.Slot == old(n.Slot) && n.Position == old(n.Position)
      requires forall n :: n in old(cc.Repr) && n != cc ==> n.parent == old(n.parent)
      ensures cc.Shape() && cc.Covered() && cc.Linked()
    {
    }

    /** A node whose children are valid subtrees, linked and covered, is valid. */
    lemma Fold()
      requires this in Repr
      requires forall cc :: cc in children ==>
        cc in Repr && cc.Repr <= Repr && this !in cc.Repr && cc.parent == this && cc.Shape() && cc.Covered() && cc.Linked()
      requires forall n {:trigger n in Slot} :: n in Repr && n != this ==>
        n in Slot && Slot[n] < |children| && n in children[Slot[n]].Repr
      requires forall i :: 0 <= i < |children| ==> children[i] in Position && Position[children[i]] == i
      ensures Valid()
    {
    }

    method SetParent(node: SceneNode?)
      modifies this`parent
      ensures parent == node
    {
      parent := node;
    }

    /** The node's own transformation, copied; its parents play no part. */
    function CalculateWorldTransformation(): (world: Mat4)
      reads this`transformation
      ensures world == transformation
    {
      transformation
    }

    /**
     * Sets this node's local transformation and refreshes the subtree, as a
     * model node does: the plain-node update below, then the node's object, if
     * any, gets the new world transformation. Afterwards every other node keeps
     * its local transformation, every node's world transformation is a copy of
     * its local one, and every model node's object holds that world
     * transformation.
     */
    method SetTransformation(m: Mat4)
      requires Shape() && Covered() && DistinctObjects()
      modifies Repr`transformation, Repr`worldTransformation, Objects()`modelMatrix
      decreases Repr, 1
      ensures transformation == m
      ensures forall n :: n in Repr && n != this ==> n.transformation == old(n.transformation)
      ensures forall n :: n in Repr ==> n.worldTransformation == n.transformation
      ensures forall n :: n in Repr && n.obj3d != null ==> n.obj3d.modelMatrix == n.worldTransformation
    {
      SetNodeTransformation(m);
      if obj3d != null {
        obj3d.SetTransformation(worldTransformation);
      }
    }

    /**
     * The plain-node update: sets the local transformation, refreshes every
     * child's subtree with the child's own transformation, then sets the world
     * transformation. This node's object, if any, is left alone.
     */
    method SetNodeTransformation(m: Mat4)
      requires Shape() && Covered() && DistinctObjects()
      modifies Repr`transformation, Repr`worldTransformation, Objects()`modelMatrix
      decreases Repr, 0
      ensures transformation == m && worldTransformation == m
      ensures forall n :: n in Repr && n != this ==> n.transformation == old(n.transformation)
      ensures forall n :: n in Repr ==> n.worldTransformation == n.transformation
      ensures forall n :: n in Repr && n != this && n.obj3d != null ==> n.obj3d.modelMatrix == n.worldTransformation
      ensures obj3d != null ==> obj3d.modelMatrix == old(obj3d.modelMatrix)
    {
      transformation := m;
      for i := 0 to |children|
        invariant Shape() && Covered() && DistinctObjects()
        invariant transformation == m
        invariant forall n :: n in Repr && n != this ==> n.transformation == old(n.transformation)
        invariant forall k, n :: 0 <= k < i && n in children[k].Repr ==>
          n.worldTransformation == n.transformation && (n.obj3d != null ==> n.obj3d.modelMatrix == n.worldTransformation)
        invariant obj3d != null ==> obj3d.modelMatrix == old(obj3d.modelMatrix)
      {
        ChildFrame(i);
        children[i].SetTransformation(children[i].transformation);
      }
      forall n | n in Repr && n != this
        ensures n.worldTransformation == n.transformation
        ensures n.obj3d != null ==> n.obj3d.modelMatrix == n.worldTransformation
      {
        assert n in Slot;
        assert n in children[Slot[n]].Repr;
      }
      worldTransformation := CalculateWorldTransformation();
    }

    /**
     * What refreshing child i needs: the child's subtree lies within this one,
     * has distinct objects, and its objects are held by none of the nodes
     * outside it, this node included.
     */
    lemma ChildFrame(i: nat)
      requires Shape() && Covered() && DistinctObjects() && i < |children|
      ensures children[i].Shape() && children[i].Covered() && children[i].DistinctObjects()
      ensures children[i].Repr <= Repr && children[i].Objects() <= Objects()
      ensures forall n :: n in Repr && n !in children[i].Repr && n.obj3d != null ==> n.obj3d !in children[i].Objects()
      ensures obj3d != null ==> obj3d !in children[i].Objects()
    {
    }

    /**
     * Appends the local transformations of this node, its parent, its
     * parent's parent and so on up to the root, leaf first. The ghost `chain`
     * is that line of ancestors; it exists exactly when the line ends.
     */
    method GetTransformationHierarchy(transformations: seq<Mat4>, ghost chain: seq<SceneNode>) returns (r: seq<Mat4>)
      requires IsAncestry(chain) && chain[0] == this
      decreases |chain|
      ensures |r| == |transformations| + |chain| && r[..|transformations|] == transformations
      ensures forall i :: 0 <= i < |chain| ==> r[|transformations| + i] == chain[i].transformation
    {
      r := transformations + [transformation];
      assert |chain| > 1 ==> chain[0].parent == chain[1];
      if parent != null {
        r := parent.GetTransformationHierarchy(r, chain[1..]);
      }
    }

    /**
     * Every node of the subtree reaches this node by parent links: the path
     * starts at the node, ends here and stays inside the subtree.
     */
    lemma {:induction false} PathUp(n: SceneNode) returns (path: seq<SceneNode>)
      requires Valid() && n in Repr
      decreases Repr
      ensures |path| > 0 && path[0] == n && path[|path| - 1] == this
      ensures forall i :: 0 <= i < |path| - 1 ==> path[i].parent == path[i + 1]
      ensures forall x :: x in path ==> x in Repr
    {
      if n == this {
        path := [this];
      } else {
        assert n in Slot;
        var c := children[Slot[n]];
        var below := c.PathUp(n);
        path := below + [this];
      }
    }

    /**
     * In a scene graph whose root has no parent, the ancestors of any node form
     * a chain that ends at the root, so the hierarchy has depth + 1 entries.
     */
    lemma AncestryToRoot(n: SceneNode) returns (chain: seq<SceneNode>)
      requires Valid() && parent == null && n in Repr
      ensures IsAncestry(chain) && chain[0] == n && chain[|chain| - 1] == this
      ensures forall x :: x in chain ==> x in Repr
    {
      chain := PathUp(n);
    }

    /** Every node of the pre-order is in the subtree. */
    lemma {:induction false} PreOrderInRepr()
      requires Shape()
      decreases Repr, 1
      ensures forall n :: n in PreOrder() ==> n in Repr
    {
      ChildrenPreOrderIn(|children|);
    }

    /** The pre-order of the first k children holds nodes of the subtree other than this one. */
    lemma {:induction false} ChildrenPreOrderIn(k: nat)
      requires Shape() && k <= |children|
      decreases Repr, 0, k
      ensures forall n :: n in ChildrenPreOrder(k) ==> n in Repr && n != this
    {
      if k > 0 {
        ChildrenPreOrderIn(k - 1);
        children[k - 1].PreOrderInRepr();
      }
    }

    /** Every node of the subtree occurs in the pre-order. */
    lemma {:induction false} PreOrderCovers()
      requires Valid()
      decreases Repr
      ensures forall n :: n in Repr ==> n in PreOrder()
    {
      forall n | n in Repr && n != this
        ensures n in ChildrenPreOrder(|children|)
      {
        assert n in Slot;
        var k := Slot[n];
        children[k].PreOrderCovers();
        assert n in ChildrenPreOrder(k + 1);
        ChildrenPreOrderPrefix(k + 1, |children|);
      }
    }

    /**
     * The slot of a node is the only child whose subtree holds it: the parent
     * links from the node climb to exactly one child of this node.
     */
    lemma SlotOf(n: SceneNode, k: nat)
      requires Valid() && k < |children| && n in children[k].Repr
      ensures n in Slot && Slot[n] == k
    {
      assert n in Slot;
      var p := children[k].PathUp(n);
      var q := children[Slot[n]].PathUp(n);
      SameArrival(p, q, this);
    }

    /** The subtrees of two different children share no node. */
    lemma SiblingsApart(i: nat, j: nat)
      requires Valid() && i < |children| && j < |children| && i != j
      ensures children[i].Repr * children[j].Repr == {}
    {
      forall n | n in children[i].Repr
        ensures n !in children[j].Repr
      {
        SlotOf(n, i);
        assert forall k :: 0 <= k < |children| && n in children[k].Repr ==> Slot[n] == k by {
          forall k | 0 <= k < |children| && n in children[k].Repr {
            SlotOf(n, k);
          }
        }
      }
    }

    /** The pre-order lists each node once. */
    lemma {:induction false} PreOrderDistinct()
      requires Valid()
      decreases Repr, 1
      ensures Distinct(PreOrder())
    {
      ChildrenPreOrderDistinct(|children|);
      ChildrenPreOrderIn(|children|);
      DistinctConcat([this], ChildrenPreOrder(|children|));
    }

    /**
     * The pre-orders of the first k children list each node once, and every
     * node they list lies in the subtree of one of those children.
     */
    lemma {:induction false} ChildrenPreOrderDistinct(k: nat)
      requires Valid() && k <= |children|
      decreases Repr, 0, k
      ensures Distinct(ChildrenPreOrder(k))
      ensures forall n :: n in ChildrenPreOrder(k) ==> exists j :: 0 <= j < k && n in children[j].Repr
    {
      if k > 0 {
        var c := children[k - 1];
        ChildrenPreOrderDistinct(k - 1);
        c.PreOrderDistinct();
        c.PreOrderInRepr();
        forall n | n in ChildrenPreOrder(k - 1)
          ensures n !in c.PreOrder()
        {
          var j :| 0 <= j < k - 1 && n in children[j].Repr;
          SiblingsApart(j, k - 1);
          assert n !in children[j].Repr * c.Repr;
        }
        DistinctConcat(ChildrenPreOrder(k - 1), c.PreOrder());
      }
    }

    /** Appends the subtree, in pre-order, to `nodes`. */
    method GetNodes(nodes: seq<SceneNode>) returns (r: seq<SceneNode>)
      requires Shape()
      decreases Repr
      ensures r == nodes + PreOrder()
    {
      r := nodes + [this];
      assert r + ChildrenPreOrder(0) == r;
      for i := 0 to |children|
        invariant r == nodes + [this] + ChildrenPreOrder(i)
      {
        Associative(nodes + [this], ChildrenPreOrder(i), children[i].PreOrder());
        r := children[i].GetNodes(r);
      }
      Associative(nodes, [this], ChildrenPreOrder(|children|));
    }

    /** The first node of the subtree, in pre-order, called `name`; null when there is none. */
    method GetNode(name: string) returns (r: SceneNode?)
      requires Shape()
      decreases Repr
      ensures r == Find(PreOrder(), name)
    {
      if this.name == name {
        return this;
      }
      for i := 0 to |children|
        invariant Find(ChildrenPreOrder(i), name) == null
      {
        r := children[i].GetNode(name);
        FindStep(i, name);
        if r != null {
          return r;
        }
      }
      FindStep(|children|, name);
      return null;
    }

    /**
     * Searching child after child: while the earlier children's subtrees hold
     * no node called `name`, a hit in child i is the first hit in the subtree.
     */
    lemma FindStep(i: nat, name: string)
      requires Shape() && i <= |children| && this.name != name
      requires Find(ChildrenPreOrder(i), name) == null
      ensures i == |children| ==> Find(PreOrder(), name) == null
      ensures i < |children| ==> Find(ChildrenPreOrder(i + 1), name) == Find(children[i].PreOrder(), name)
      ensures i < |children| && Find(children[i].PreOrder(), name) != null ==>
        Find(PreOrder(), name) == Find(children[i].PreOrder(), name)
    {
      FindConcat([this], ChildrenPreOrder(|children|), name);
      if i < |children| {
        FindConcat(ChildrenPreOrder(i), children[i].PreOrder(), name);
        ChildrenPreOrderPrefix(i + 1, |children|);
        if Find(children[i].PreOrder(), name) != null {
          FindPrefix(ChildrenPreOrder(i + 1), ChildrenPreOrder(|children|), name);
        }
      }
    }

    /** Draws the subtree: this node's object, if any, then each child's subtree in turn. */
    method Render(drawn: seq<Object3D>) returns (r: seq<Object3D>)
      requires Shape()
      decreases Repr
      ensures r == drawn + Drawn(PreOrder())
    {
      r := drawn + if obj3d == null then [] else [obj3d];
      ghost var start := r;
      assert r + Drawn(ChildrenPreOrder(0)) == r;
      for i := 0 to |children|
        invariant r == start + Drawn(ChildrenPreOrder(i))
      {
        DrawnStep(start, i);
        ChildSmaller(i);
        r := children[i].Render(r);
      }
      DrawnOwn(drawn);
    }

    /** Each child's subtree is a tree strictly inside this one. */
    lemma ChildSmaller(i: nat)
      requires Shape() && i < |children|
      ensures children[i].Shape() && children[i].Repr < Repr
    {
      assert children[i] in children;
    }

    /** The objects drawn for the first i + 1 children: those of the first i, then child i's. */
    lemma DrawnStep(start: seq<Object3D>, i: nat)
      requires Shape() && i < |children|
      ensures start + Drawn(ChildrenPreOrder(i + 1)) == start + Drawn(ChildrenPreOrder(i)) + Drawn(children[i].PreOrder())
    {
      DrawnConcat(ChildrenPreOrder(i), children[i].PreOrder());
      Associative(start, Drawn(ChildrenPreOrder(i)), Drawn(children[i].PreOrder()));
    }

    /** The subtree draws this node's object, if any, then the children's subtrees. */
    lemma DrawnOwn(drawn: seq<Object3D>)
      requires Shape()
      ensures drawn + Drawn(PreOrder()) == drawn + (if obj3d == null then [] else [obj3d]) + Drawn(ChildrenPreOrder(|children|))
    {
      DrawnConcat([this], ChildrenPreOrder(|children|));
      assert [this][1..] == [];
      assert Drawn([this]) == if obj3d == null then [] else [obj3d];
      Associative(drawn, Drawn([this]), Drawn(ChildrenPreOrder(|children|)));
    }

    /** The children's pre-orders grow by appending. */
    lemma {:induction false} ChildrenPreOrderPrefix(k: nat, j: nat)
      requires Shape() && k <= j <= |children|
      decreases j
      ensures ChildrenPreOrder(k) <= ChildrenPreOrder(j)
    {
      if k < j {
        ChildrenPreOrderPrefix(k, j - 1);
      }
    }
  }

  /** No Object3D is held by two nodes of `nodes`. */
  ghost predicate OwnObjects(nodes: set<SceneNode>) {
    forall m, n :: m in nodes && n in nodes && m.obj3d != null && m.obj3d == n.obj3d ==> m == n
  }

  /** The objects held by the model nodes among `nodes`. */
  ghost function ObjectsOf(nodes: set<SceneNode>): set<Object3D> {
    set n | n in nodes && n.obj3d != null :: n.obj3d
  }

  /** Two node sets whose objects are their own and apart join to one whose objects are its own. */
  lemma OwnObjectsUnion(a: set<SceneNode>, b: set<SceneNode>)
    requires OwnObjects(a) && OwnObjects(b) && ObjectsOf(a) * ObjectsOf(b) == {}
    ensures OwnObjects(a + b) && ObjectsOf(a + b) == ObjectsOf(a) + ObjectsOf(b)
  {
    forall m, n | m in a + b && n in a + b && m.obj3d != null && m.obj3d == n.obj3d
      ensures m == n
    {
      var o := m.obj3d;
      assert o !in ObjectsOf(a) * ObjectsOf(b);
      assert m in a ==> o in ObjectsOf(a);
      assert m in b ==> o in ObjectsOf(b);
      assert n in a ==> o in ObjectsOf(a);
      assert n in b ==> o in ObjectsOf(b);
    }
  }

  /**
   * `chain` is a node, then its parent, then that node's parent, and so on,
   * ending at a node without a parent.
   */
  ghost predicate IsAncestry(chain: seq<SceneNode>)
    reads (set n | n in chain)`parent
  {
    |chain| > 0 &&
    (forall i :: 0 <= i < |chain| - 1 ==> chain[i].parent == chain[i + 1]) &&
    chain[|chain| - 1].parent == null
  }

  /** The parent links fix the chain: two chains from the same node are equal. */
  lemma {:induction false} AncestryUnique(a: seq<SceneNode>, b: seq<SceneNode>)
    requires IsAncestry(a) && IsAncestry(b) && a[0] == b[0]
    ensures a == b
  {
    assert |a| > 1 ==> a[0].parent == a[1];
    assert |b| > 1 ==> b[0].parent == b[1];
    if |a| > 1 && |b| > 1 {
      AncestryUnique(a[1..], b[1..]);
      assert a == [a[0]] + a[1..] && b == [b[0]] + b[1..];
    } else {
      assert a == [a[0]] && b == [b[0]];
    }
  }

  /** Two paths up the parent links from the same node agree as far as the shorter one goes. */
  lemma {:induction false} PathsAgree(p: seq<SceneNode>, q: seq<SceneNode>)
    requires 0 < |p| <= |q| && p[0] == q[0]
    requires forall i :: 0 <= i < |p| - 1 ==> p[i].parent == p[i + 1]
    requires forall i :: 0 <= i < |q| - 1 ==> q[i].parent == q[i + 1]
    ensures q[..|p|] == p
  {
    if |p| > 1 {
      PathsAgree(p[..|p| - 1], q);
      assert p[|p| - 1] == p[|p| - 2].parent;
    }
  }

  /**
   * Two paths up the parent links from the same node that first meet `t`
   * right after their last node are the same path.
   */
  lemma {:induction false} SameArrival(p: seq<SceneNode>, q: seq<SceneNode>, t: SceneNode)
    requires 0 < |p| && 0 < |q| && p[0] == q[0]
    requires forall i :: 0 <= i < |p| - 1 ==> p[i].parent == p[i + 1]
    requires forall i :: 0 <= i < |q| - 1 ==> q[i].parent == q[i + 1]
    requires p[|p| - 1].parent == t && q[|q| - 1].parent == t
    requires forall i :: 0 <= i < |p| ==> p[i] != t
    requires forall i :: 0 <= i < |q| ==> q[i] != t
    decreases |p|
    ensures p == q
  {
    assert 1 < |p| ==> p[0].parent == p[1] && p[1] != t;
    assert 1 < |q| ==> q[0].parent == q[1] && q[1] != t;
    if 1 < |p| && 1 < |q| {
      SameArrival(p[1..], q[1..], t);
      assert p == [p[0]] + p[1..] && q == [q[0]] + q[1..];
    } else {
      assert p == [p[0]] && q == [q[0]];
    }
  }

  /** No element occurs twice. */
  ghost predicate Distinct<T>(s: seq<T>) {
    forall i, j :: 0 <= i < j < |s| ==> s[i] != s[j]
  }

  /** Two lists without repeats and without common elements concatenate to one without repeats. */
  lemma DistinctConcat<T>(a: seq<T>, b: seq<T>)
    requires Distinct(a) && Distinct(b)
    requires forall x :: x in a ==> x !in b
    ensures Distinct(a + b)
  {
    forall i, j | 0 <= i < j < |a + b|
      ensures (a + b)[i] != (a + b)[j]
    {
      if i < |a| && |a| <= j {
        assert (a + b)[i] in a && (a + b)[j] in b;
      }
    }
  }

  lemma Associative<T>(a: seq<T>, b: seq<T>, c: seq<T>)
    ensures a + b + c == a + (b + c)
  {
  }

  /** A name found in a prefix is found, at the same node, in the whole list. */
  lemma FindPrefix(a: seq<SceneNode>, b: seq<SceneNode>, name: string)
    requires a <= b && Find(a, name) != null
    ensures Find(b, name) == Find(a, name)
  {
    FindConcat(a, b[|a|..], name);
    assert b == a + b[|a|..];
  }

  lemma {:induction false} FindConcat(a: seq<SceneNode>, b: seq<SceneNode>, name: string)
    ensures Find(a + b, name) == if Find(a, name) != null then Find(a, name) else Find(b, name)
  {
    if |a| > 0 {
      FindConcat(a[1..], b, name);
      assert (a + b)[1..] == a[1..] + b;
    } else {
      assert a + b == b;
    }
  }

  /** The objects drawn for `nodes` are exactly those their model nodes hold. */
  lemma {:induction false} DrawnHolds(nodes: seq<SceneNode>)
    ensures forall k :: 0 <= k < |nodes| && nodes[k].obj3d != null ==> nodes[k].obj3d in Drawn(nodes)
    ensures forall o :: o in Drawn(nodes) ==> exists k :: 0 <= k < |nodes| && nodes[k].obj3d == o
  {
    if |nodes| > 0 {
      var rest := nodes[1..];
      DrawnHolds(rest);
      assert Drawn(nodes) == (if nodes[0].obj3d == null then [] else [nodes[0].obj3d]) + Drawn(rest);
      forall k | 0 < k < |nodes| && nodes[k].obj3d != null
        ensures nodes[k].obj3d in Drawn(nodes)
      {
        assert rest[k - 1] == nodes[k];
      }
      forall o | o in Drawn(rest)
        ensures exists k :: 0 <= k < |nodes| && nodes[k].obj3d == o
      {
        var k :| 0 <= k < |rest| && rest[k].obj3d == o;
        assert nodes[k + 1] == rest[k];
      }
    }
  }

  /** When no two model nodes share an object, each object is drawn once. */
  lemma {:induction false} DrawnDistinct(nodes: seq<SceneNode>)
    requires forall i, j :: 0 <= i < j < |nodes| && nodes[i].obj3d != null ==> nodes[i].obj3d != nodes[j].obj3d
    ensures Distinct(Drawn(nodes))
  {
    if |nodes| > 0 {
      DrawnDistinct(nodes[1..]);
      DrawnHolds(nodes[1..]);
      if nodes[0].obj3d != null {
        forall o | o in Drawn(nodes[1..])
          ensures o != nodes[0].obj3d
        {
          var k :| 0 <= k < |nodes[1..]| && nodes[1..][k].obj3d == o;
          assert nodes[k + 1] == nodes[1..][k];
        }
      }
      DistinctConcat(if nodes[0].obj3d == null then [] else [nodes[0].obj3d], Drawn(nodes[1..]));
    }
  }

  lemma {:induction false} DrawnConcat(a: seq<SceneNode>, b: seq<SceneNode>)
    ensures Drawn(a + b) == Drawn(a) + Drawn(b)
  {
    if |a| > 0 {
      DrawnConcat(a[1..], b);
      assert (a + b)[1..] == a[1..] + b;
    } else {
      assert a + b == b;
    }
  }
}
