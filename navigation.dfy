/** The navigation state of js/init-state.js and the handlers of
    js/event-handlers.js that change it: mouse down and up, the reset button,
    `handleMousemove` (pointer bookkeeping and trackball rotation) and
    `handleScroll` (the Moebius zoom accumulated into the parameter space).

    The source keeps every matrix in a glMatrix buffer that the handlers
    overwrite; here each matrix is a field of type `Mat4` that the methods
    reassign.  The rotation `mat4.rotate`, its angle `vec3.length` and the
    inversion `mat4.invert` are passed in as functions. */
module Navigation {
  import opened Matrices
  import opened Mobius
  import opened Pointer

  /** `state.mouse`: the pointer in clip space, its last move and the last
      position seen. */
  class Mouse {
    var x: real
    var y: real
    var dx: real
    var dy: real
    var lastX: real
    var lastY: real
    var lastClick: string
    /** Absent from the literal in the source, so undefined (falsy) until the
        first mousedown. */
    var isDown: bool

    constructor ()
      ensures x == 0.0 && y == 0.0 && dx == 0.0 && dy == 0.0
      ensures lastX == 0.0 && lastY == 0.0
      ensures lastClick == "none" && !isDown
    {
      x, y, dx, dy := 0.0, 0.0, 0.0, 0.0;
      lastX, lastY := 0.0, 0.0;
      lastClick := "none";
      isDown := false;
    }
  }

  /** `state.parameterSpace` and `state.dynamicalSpace`: the trackball
      rotation and its inverse, the placement of the sphere, the last rotation
      axis and the accumulated Moebius transformation. */
  class Space {
    var localMatrix: Mat4
    var invLocalMatrix: Mat4
    var modelMatrix: Mat4
    var rotationAxis: Vec3
    var mobiusMatrix: Mat4

    /** Five fresh glMatrix buffers: identities and a zero axis. */
    constructor ()
      ensures localMatrix == Identity && invLocalMatrix == Identity && modelMatrix == Identity
      ensures rotationAxis == [0.0, 0.0, 0.0] && mobiusMatrix == Identity
    {
      localMatrix, invLocalMatrix, modelMatrix := Identity, Identity, Identity;
      rotationAxis := [0.0, 0.0, 0.0];
      mobiusMatrix := Identity;
    }

    /** `mat4.translate(modelMatrix, modelMatrix, v)`. */
    method TranslateModel(v: Vec3)
      modifies this`modelMatrix
      ensures modelMatrix == Translate(old(modelMatrix), v)
    {
      modelMatrix := Translate(modelMatrix, v);
    }

    /** `updateMobius(mobiusMatrix, pt1, pt2, scale)`: the coefficients a..h
        laid out by `mat4.fromValues` and multiplied into the accumulator on
        the right.  Nothing else of the space changes, and the block-complex
        form of the accumulator is kept. */
    method UpdateMobius(pt1: Vec4, pt2: Vec4, scale: real)
      modifies this`mobiusMatrix
      ensures mobiusMatrix == Mul(old(mobiusMatrix), Layout(UpdateCoefficients(pt1, pt2, scale)))
      ensures old(BlockComplex(mobiusMatrix)) ==> BlockComplex(mobiusMatrix)
    {
      var k := UpdateCoefficients(pt1, pt2, scale);
      var newMobius := Layout(k);
      LayoutBlockComplex(k);
      if BlockComplex(mobiusMatrix) {
        MulBlockComplex(mobiusMatrix, newMobius);
      }
      mobiusMatrix := Mul(mobiusMatrix, newMobius);
    }

    /** The rotation branch of `handleMousemove`: the axis (-dy, dx, 0) is
        carried back through the inverse rotation, the rotation turns about
        it by its length, and the inverse is recomputed. */
    method Turn(dx: real, dy: real, rotate: (Mat4, real, Vec3) -> Mat4, length: Vec3 -> real,
                invert: Mat4 -> Mat4)
      modifies this`rotationAxis, this`localMatrix, this`invLocalMatrix
      ensures rotationAxis == TransformVec3(old(invLocalMatrix), [-dy, dx, 0.0])
      ensures localMatrix == rotate(old(localMatrix), length(rotationAxis), rotationAxis)
      ensures invLocalMatrix == invert(localMatrix)
    {
      rotationAxis := [-dy, dx, 0.0];
      rotationAxis := TransformVec3(invLocalMatrix, rotationAxis);
      localMatrix := rotate(localMatrix, length(rotationAxis), rotationAxis);
      invLocalMatrix := invert(localMatrix);
    }
  }

  /** `vec4.fromValues(x, y, z, w)`: a fresh four-element buffer. */
  method NewVec4(v: Vec4) returns (a: array<real>)
    ensures fresh(a) && a[..] == v
  {
    a := new real[4];
    a[0], a[1], a[2], a[3] := v[0], v[1], v[2], v[3];
  }

  /** One pole of `handleScroll`: a fresh `vec4`, transformed in place by
      m and then lifted in place onto the projective line. */
  method ProjectedPole(v: Vec4, m: Mat4) returns (p: Vec4)
    ensures p == Lift(TransformVec4(m, v))
  {
    var a := NewVec4(v);
    TransformInPlace(a, m);
    MutateToProjective(a);
    p := a[..];
  }

  /** `vec4.transformMat4(a, a, m)`, in place. */
  method TransformInPlace(a: array<real>, m: Mat4)
    requires a.Length == 4
    modifies a
    ensures a[..] == TransformVec4(m, old(a[..]))
  {
    var t := TransformVec4(m, a[..]);
    a[0], a[1], a[2], a[3] := t[0], t[1], t[2], t[3];
  }

  /** `state.world`. */
  class World {
    var deltaTime: real
    var viewMatrix: Mat4
    var projMatrix: Mat4
    var largeType: string

    constructor ()
      ensures deltaTime == 0.0 && viewMatrix == Identity && projMatrix == Identity
      ensures largeType == "parameter"
    {
      deltaTime := 0.0;
      viewMatrix, projMatrix := Identity, Identity;
      largeType := "parameter";
    }
  }

  /** Where `initState` places the parameter-space sphere. */
  const ParameterOffset: Vec3 := [0.0, 0.0, -3.0]

  /** Where `initState` places the dynamical-space sphere. */
  const DynamicalOffset: Vec3 := [-4.0, -2.0, -9.0]

  /** The state record that `initState` returns and the handlers share. */
  class State {
    const mouse: Mouse
    const parameterSpace: Space
    const dynamicalSpace: Space
    const world: World

    /** The two spaces are separate records, so a handler that writes one
        leaves the other alone. */
    ghost predicate Valid()
      reads this
    {
      parameterSpace != dynamicalSpace
    }

    /** `initState()`: identities everywhere, the two model matrices
        translated into place, the mouse at rest. */
    constructor ()
      ensures Valid() && fresh(mouse) && fresh(parameterSpace) && fresh(dynamicalSpace) && fresh(world)
      ensures mouse.x == 0.0 && mouse.y == 0.0 && mouse.dx == 0.0 && mouse.dy == 0.0
      ensures mouse.lastX == 0.0 && mouse.lastY == 0.0 && mouse.lastClick == "none" && !mouse.isDown
      ensures parameterSpace.localMatrix == Identity && parameterSpace.invLocalMatrix == Identity
      ensures parameterSpace.mobiusMatrix == Identity && parameterSpace.rotationAxis == [0.0, 0.0, 0.0]
      ensures parameterSpace.modelMatrix == Translation(ParameterOffset)
      ensures dynamicalSpace.localMatrix == Identity && dynamicalSpace.invLocalMatrix == Identity
      ensures dynamicalSpace.mobiusMatrix == Identity && dynamicalSpace.rotationAxis == [0.0, 0.0, 0.0]
      ensures dynamicalSpace.modelMatrix == Translation(DynamicalOffset)
      ensures Mul(parameterSpace.localMatrix, parameterSpace.invLocalMatrix) == Identity
      ensures Mul(dynamicalSpace.localMatrix, dynamicalSpace.invLocalMatrix) == Identity
      ensures world.deltaTime == 0.0 && world.viewMatrix == Identity && world.projMatrix == Identity
      ensures world.largeType == "parameter"
    {
      var m := new Mouse();
      var p := new Space();
      var d := new Space();
      var w := new World();
      p.TranslateModel(ParameterOffset);
      d.TranslateModel(DynamicalOffset);
      InitialPlacement(ParameterOffset);
      InitialPlacement(DynamicalOffset);
      MulIdentity(Identity);
      mouse, parameterSpace, dynamicalSpace, world := m, p, d, w;
    }

    /** The "mousedown" listener. */
    method MouseDown()
      modifies mouse`isDown
      ensures mouse.isDown
    {
      mouse.isDown := true;
    }

    /** The "mouseup" listener. */
    method MouseUp()
      modifies mouse`isDown
      ensures !mouse.isDown
    {
      mouse.isDown := false;
    }

    /** The reset button: the rotation, its inverse and the Moebius
        accumulator of the parameter space go back to the identity; its
        placement and axis, the dynamical space and the mouse stay. */
    method Reset()
      requires Valid()
      modifies parameterSpace`localMatrix, parameterSpace`invLocalMatrix, parameterSpace`mobiusMatrix
      ensures parameterSpace.localMatrix == Identity && parameterSpace.invLocalMatrix == Identity
      ensures parameterSpace.mobiusMatrix == Identity
      ensures parameterSpace.modelMatrix == old(parameterSpace.modelMatrix)
      ensures parameterSpace.rotationAxis == old(parameterSpace.rotationAxis)
      ensures unchanged(dynamicalSpace) && unchanged(mouse) && unchanged(world)
      ensures Mul(parameterSpace.localMatrix, parameterSpace.invLocalMatrix) == Identity
    {
      parameterSpace.localMatrix := Identity;
      parameterSpace.invLocalMatrix := Identity;
      parameterSpace.mobiusMatrix := Identity;
      MulIdentity(Identity);
    }

    /** `handleMousemove`: the pointer moves to its clip-space position, the
        delta is taken from the last position seen, and while the button is
        down the parameter space turns about the drag's perpendicular carried
        back through the inverse rotation. */
    method HandleMousemove(clientX: real, clientY: real, canvas: Canvas,
                           rotate: (Mat4, real, Vec3) -> Mat4, length: Vec3 -> real,
                           invert: Mat4 -> Mat4)
      requires Valid() && ProperCanvas(canvas)
      modifies mouse`x, mouse`y, mouse`dx, mouse`dy, mouse`lastX, mouse`lastY
      modifies parameterSpace`rotationAxis, parameterSpace`localMatrix, parameterSpace`invLocalMatrix
      ensures var (x, y) := ClipSpace(clientX, clientY, canvas);
        && mouse.x == x && mouse.y == y
        && mouse.dx == x - old(mouse.lastX) && mouse.dy == y - old(mouse.lastY)
        && mouse.lastX == x && mouse.lastY == y
      ensures old(mouse.isDown) ==>
        && parameterSpace.rotationAxis
             == TransformVec3(old(parameterSpace.invLocalMatrix), [-mouse.dy, mouse.dx, 0.0])
        && parameterSpace.localMatrix
             == rotate(old(parameterSpace.localMatrix), length(parameterSpace.rotationAxis),
                       parameterSpace.rotationAxis)
        && parameterSpace.invLocalMatrix == invert(parameterSpace.localMatrix)
      ensures !old(mouse.isDown) ==> unchanged(parameterSpace)
      ensures parameterSpace.modelMatrix == old(parameterSpace.modelMatrix)
      ensures parameterSpace.mobiusMatrix == old(parameterSpace.mobiusMatrix)
      ensures unchanged(dynamicalSpace) && unchanged(world)
    {
      var (x, y) := ClipSpace(clientX, clientY, canvas);
      var dx, dy := x - mouse.lastX, y - mouse.lastY;
      mouse.x, mouse.y, mouse.dx, mouse.dy := x, y, dx, dy;
      if mouse.isDown {
        parameterSpace.Turn(dx, dy, rotate, length, invert);
      }
      mouse.lastX, mouse.lastY := x, y;
    }

    /** `handleScroll`: the view's poles are carried back by the inverse
        rotation, lifted to homogeneous coordinates, and the zoom by
        `scale` that fixes them is multiplied into the parameter space's
        accumulator.  The increment is the intended Moebius map, and the
        block-complex form of the accumulator is kept. */
    method HandleScroll(deltaY: real)
      modifies parameterSpace`mobiusMatrix
      ensures parameterSpace.mobiusMatrix
           == Mul(old(parameterSpace.mobiusMatrix), ScrollIncrement(parameterSpace.invLocalMatrix, deltaY))
      ensures var (north, south) := ScrollPoles(parameterSpace.invLocalMatrix);
        parameterSpace.mobiusMatrix
          == Mul(old(parameterSpace.mobiusMatrix), Layout(IntendedCoefficients(north, south, ScrollScale(deltaY))))
      ensures old(BlockComplex(parameterSpace.mobiusMatrix)) ==> BlockComplex(parameterSpace.mobiusMatrix)
    {
      var north := ProjectedPole([0.0, 0.0, 1.0, 0.0], parameterSpace.invLocalMatrix);
      var south := ProjectedPole([0.0, 0.0, -1.0, 0.0], parameterSpace.invLocalMatrix);
      var scale := 1.0 + deltaY * 0.001;
      ghost var inv := parameterSpace.invLocalMatrix;
      assert (north, south) == ScrollPoles(inv);
      ScrollUsesIntendedMap(inv, deltaY);
      ghost var step := Layout(UpdateCoefficients(north, south, scale));
      assert step == ScrollIncrement(inv, deltaY);
      assert step == Layout(IntendedCoefficients(north, south, ScrollScale(deltaY)));
      parameterSpace.UpdateMobius(north, south, scale);
    }
  }

  /** `mat4.translate` of a fresh identity is the translation by v: it
      carries the origin to v. */
  lemma {:induction false} InitialPlacement(v: Vec3)
    ensures Translate(Identity, v) == Translation(v)
    ensures TransformVec4(Translate(Identity, v), [0.0, 0.0, 0.0, 1.0]) == [v[0], v[1], v[2], 1.0]
  {
    TranslateIsMul(Identity, v);
    MulIdentityLeft(Translation(v));
    TranslationMoves(v, [0.0, 0.0, 0.0]);
    assert [0.0, 0.0, 0.0] + [1.0] == [0.0, 0.0, 0.0, 1.0];
  }
}
