/**
 * The viewer's scene and its single-slot model replacement. The scene holds
 * an ambient and a directional light and at most one loaded object, the one
 * the `model` variable refers to. Loading a parsed object gives every mesh
 * child the dither shader material, fits the object into the canonical cube,
 * removes the previous model and adds the new one; a parse failure changes
 * nothing.
 */
module Scene {
  import opened Geometry

  datatype Option<T> = None | Some(value: T)

  /** The materials a child can carry: the two the viewer builds, or one the parser assigned. */
  datatype Material = DitherShader | WireframeFallback | Loaded(name: string)

  /**
   * JavaScript `primary || fallback` where a constructed material is truthy
   * and a missing one is not: the fallback is chosen only when there is no
   * primary material.
   */
  function Or(primary: Option<Material>, fallback: Material): (m: Material)
    ensures primary.Some? ==> m == primary.value
    ensures primary.None? ==> m == fallback
  {
    if primary.Some? then primary.value else fallback
  }

  /** The kinds of child the OBJ parser produces; only `Mesh` has `isMesh` set. */
  datatype Kind = Mesh | LineSegments | Points

  /** One child of a parsed object: its kind, its vertex positions and its material. */
  datatype Child = Child(kind: Kind, positions: seq<Vec3>, material: Material)

  /** The outcome of parsing an OBJ text: an object's children, or the exception the parser throws. */
  datatype ParseResult = Parsed(children: seq<Child>) | ParseError

  /** All vertex positions of an object's children, in order. */
  function Positions(children: seq<Child>): seq<Vec3> {
    if |children| == 0 then [] else children[0].positions + Positions(children[1..])
  }

  /** Two child sequences whose children have the same positions have the same points. */
  lemma {:induction false} PositionsOnlyDependOnGeometry(a: seq<Child>, b: seq<Child>)
    requires |a| == |b|
    requires forall i :: 0 <= i < |a| ==> a[i].positions == b[i].positions
    ensures Positions(a) == Positions(b)
  {
    if |a| > 0 {
      PositionsOnlyDependOnGeometry(a[1..], b[1..]);
    }
  }

  /** A loaded object: a group of children with one uniform scale and a position. */
  class Object3D {
    var children: seq<Child>
    var transform: Transform

    /** What the parser returns: the children, under the identity transform. */
    constructor (children: seq<Child>)
      ensures this.children == children && transform == Identity
    {
      this.children := children;
      transform := Identity;
    }

    /**
     * `obj.traverse(child => { if (child.isMesh) child.material = primary || fallback })`:
     * every mesh child gets the chosen material and keeps its geometry; every
     * other child is left as it was.
     */
    method ApplyMaterial(primary: Option<Material>, fallback: Material)
      modifies this
      ensures transform == old(transform)
      ensures |children| == |old(children)|
      ensures forall i :: 0 <= i < |children| ==>
        children[i].kind == old(children)[i].kind && children[i].positions == old(children)[i].positions
      ensures forall i :: 0 <= i < |children| && old(children)[i].kind == Mesh ==>
        children[i].material == Or(primary, fallback)
      ensures forall i :: 0 <= i < |children| && old(children)[i].kind != Mesh ==>
        children[i] == old(children)[i]
    {
      var i := 0;
      while i < |children|
        invariant 0 <= i <= |children| == |old(children)|
        invariant transform == old(transform)
        invariant forall j :: 0 <= j < i && old(children)[j].kind == Mesh ==>
          children[j] == old(children)[j].(material := Or(primary, fallback))
        invariant forall j :: 0 <= j < |children| && (i <= j || old(children)[j].kind != Mesh) ==>
          children[j] == old(children)[j]
      {
        var child := children[i];
        if child.kind == Mesh {
          children := children[i := child.(material := Or(primary, fallback))];
        }
        i := i + 1;
      }
    }

    /**
     * Centre and scale: take the box of the object's points, set the scale to
     * `2 / maxDim` and move the object by `-center * scale`. The box of an
     * object without points is empty and three.js reports its size and centre
     * as zero; a largest side of 0 makes the scale infinite.
     */
    method FitToCube()
      requires transform == Identity
      modifies this
      ensures children == old(children)
      ensures transform == Fit(Positions(children))
    {
      var points := Positions(children);
      var center, maxDim := Origin, 0.0;
      if |points| > 0 {
        var box := Bounds(points);
        var size := Size(box);
        center := Center(box);
        maxDim := Max3(size.x, size.y, size.z);
      }
      if maxDim == 0.0 {
        transform := NonFinite;
      } else {
        var scale := 2.0 / maxDim;
        transform := Placement(scale, Sub(transform.position, Scale(center, scale)));
      }
    }
  }

  datatype Light =
    | AmbientLight(colour: int, intensity: real)
    | DirectionalLight(colour: int, intensity: real, position: Vec3)

  /** A child of the scene: one of the lights, or a loaded object. */
  datatype Node = LightNode(light: Light) | ModelNode(obj: Object3D)

  /** The lights added at start-up: a white ambient light of intensity 0.5 and a white directional light at (2, 2, 2). */
  function Lights(): (ls: seq<Node>)
    ensures |ls| == 2 && ls[0].LightNode? && ls[1].LightNode?
    ensures ls[0].light.AmbientLight? && ls[1].light.DirectionalLight?
    ensures Models(ls) == []
  {
    [LightNode(AmbientLight(0xffffff, 0.5)), LightNode(DirectionalLight(0xffffff, 1.0, Vec3(2.0, 2.0, 2.0)))]
  }

  /** The scene node of the current model, if there is one. */
  function ModelNodes(model: Option<Object3D>): seq<Node> {
    if model.Some? then [ModelNode(model.value)] else []
  }

  /** The loaded objects among a scene's children. */
  function Models(scene: seq<Node>): (ms: seq<Object3D>)
    ensures |ms| <= |scene|
    ensures forall i :: 0 <= i < |ms| ==> ModelNode(ms[i]) in scene
    ensures forall i :: 0 <= i < |scene| && scene[i].ModelNode? ==> scene[i].obj in ms
  {
    if |scene| == 0 then []
    else (if scene[0].ModelNode? then [scene[0].obj] else []) + Models(scene[1..])
  }

  /**
   * `scene.remove(n)`: the first occurrence of `n` is taken out and the rest
   * keep their order; a node that is not there leaves the scene as it was.
   */
  function RemoveFirst<T(==)>(s: seq<T>, n: T): (r: seq<T>)
    ensures n !in s ==> r == s
    ensures n in s ==> |r| == |s| - 1 && multiset(r) == multiset(s) - multiset{n}
  {
    if |s| == 0 then []
    else
      assert s == [s[0]] + s[1..];
      if s[0] == n then s[1..] else [s[0]] + RemoveFirst(s[1..], n)
  }

  /**
   * `scene.remove` is `indexOf` followed by `splice`: the first occurrence of
   * the node is cut out, and the nodes before and after it keep their order.
   */
  lemma {:induction false} RemoveFirstSplits<T>(s: seq<T>, n: T, k: int)
    requires 0 <= k < |s| && s[k] == n && n !in s[..k]
    ensures RemoveFirst(s, n) == s[..k] + s[k + 1..]
  {
    if k > 0 {
      assert s[0] in s[..k];
      assert s[1..][..k - 1] == s[1..k];
      RemoveFirstSplits(s[1..], n, k - 1);
      assert s[..k] == [s[0]] + s[1..k];
      assert s[1..][k..] == s[k + 1..];
    }
  }

  /** Removing the node that was added last, when it occurs nowhere else, restores the scene before it was added. */
  lemma {:induction false} RemoveLastAdded<T>(s: seq<T>, n: T)
    requires n !in s
    ensures RemoveFirst(s + [n], n) == s
  {
    if |s| > 0 {
      assert (s + [n])[1..] == s[1..] + [n];
      RemoveLastAdded(s[1..], n);
    }
  }

  /** The viewer: the scene, the current `model`, and the two materials built at start-up. */
  class Viewer {
    var scene: seq<Node>
    var model: Option<Object3D>
    const shaderMaterial: Option<Material>
    const fallbackMaterial: Material

    /** The scene is the two lights followed by the current model, if any. */
    ghost predicate Valid()
      reads this
    {
      && scene == Lights() + ModelNodes(model)
      && shaderMaterial == Some(DitherShader)
      && fallbackMaterial == WireframeFallback
    }

    /** Start-up: the lights are added, no model is loaded, and both materials exist. */
    constructor ()
      ensures Valid() && model == None && scene == Lights()
    {
      scene := Lights();
      model := None;
      shaderMaterial := Some(DitherShader);
      fallbackMaterial := WireframeFallback;
    }

    /**
     * `handleOBJ` once the file text is read. On a parse error the scene and
     * the model are unchanged. Otherwise the new object becomes the model:
     * every mesh child carries the dither shader (the wireframe fallback is
     * never chosen), every other child is as parsed, the object is fitted to
     * the canonical cube, the previous model is gone from the scene, the
     * lights are untouched, and the scene holds exactly one model.
     */
    method HandleObj(result: ParseResult)
      requires Valid()
      modifies this
      ensures Valid()
      ensures result.ParseError? ==> scene == old(scene) && model == old(model)
      ensures result.Parsed? ==>
        && model.Some? && fresh(model.value)
        && scene == Lights() + [ModelNode(model.value)]
        && Models(scene) == [model.value]
        && (old(model).Some? ==> ModelNode(old(model).value) !in scene)
      ensures result.Parsed? ==>
        var parsed, loaded := result.children, model.value.children;
        && |loaded| == |parsed|
        && (forall i :: 0 <= i < |loaded| ==> loaded[i].kind == parsed[i].kind && loaded[i].positions == parsed[i].positions)
        && (forall i :: 0 <= i < |loaded| && parsed[i].kind == Mesh ==> loaded[i].material == DitherShader)
        && (forall i :: 0 <= i < |loaded| && parsed[i].kind != Mesh ==> loaded[i] == parsed[i])
        && model.value.transform == Fit(Positions(parsed))
    {
      match result
      case ParseError =>
        // the exception is caught and logged; nothing has been changed yet
      case Parsed(children) =>
        var obj := new Object3D(children);
        obj.ApplyMaterial(shaderMaterial, fallbackMaterial);
        PositionsOnlyDependOnGeometry(obj.children, children);
        obj.FitToCube();
        if model.Some? {
          RemoveLastAdded(Lights(), ModelNode(model.value));
          scene := RemoveFirst(scene, ModelNode(model.value));
        }
        model := Some(obj);
        scene := scene + [ModelNode(obj)];
        assert Models(Lights()) == [];
        assert Models(scene) == Models(Lights()) + [obj] by {
          ModelsAppend(Lights(), [ModelNode(obj)]);
        }
    }
  }

  /** The models of a concatenation are the models of its parts. */
  lemma {:induction false} ModelsAppend(a: seq<Node>, b: seq<Node>)
    ensures Models(a + b) == Models(a) + Models(b)
  {
    if |a| > 0 {
      assert (a + b)[0] == a[0];
      assert (a + b)[1..] == a[1..] + b;
      ModelsAppend(a[1..], b);
    } else {
      assert a + b == b;
    }
  }
}
