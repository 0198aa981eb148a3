# MandelGL core, modelled in Dafny

MandelGL draws Mandelbrot-like escape-time fractals of a user-typed formula on
a sphere (the Riemann sphere) with WebGL. This project models the logic that
sits inside the WebGL and DOM plumbing:

- **Code generator** (`parser.dfy`, module `Parser`). `toGLSL`/`inputParser`
  print a parsed formula as a GLSL expression over the projective primitives.
  Binary operators become `_pAdd/_pSub/_pMul/_pDiv` calls and unary minus
  becomes `_pOpp`. An integer power becomes a nested `_pMul` chain built by a
  loop, and any other power becomes `pow(...)`. `i`/`I` and numeric constants
  become `vec4` literals. Every other node is printed by the expression
  library, which prints the node's children through the same handler. So the
  handler also applies inside parentheses and function calls, and an
  exception raised there escapes.
- **Complex and projective primitives** (`complex.dfy`, module `Complex`;
  `projective.dfy`, module `Projective`). These are the GLSL functions
  `_cAdd` ... `_cDiv` and `_pAdd` ... `_pDist` as real-valued functions on
  pairs and on homogeneous 4-tuples (numerator re/im, denominator re/im).
- **Matrices** (`matrices.dfy`, module `Matrices`). These are the glMatrix
  operations the navigation code uses, over 16 reals in glMatrix's
  column-major order.
- **Moebius update** (`mobius.dfy`, module `Mobius`). It covers:
  - the eight coefficients of `updateMobius` and their `mat4.fromValues` layout;
  - the in-place stereographic lift `mutateToProjective`;
  - the scale and poles of `handleScroll`.
- **Pointer position** (`pointer.dfy`, module `Pointer`). The clip-space
  conversion `getClipSpaceMousePosition`.
- **Navigation state** (`navigation.dfy`, module `Navigation`). The record
  built by `initState` is modelled as classes: `Mouse`, `Space`, `World` and
  `State`. Its handlers are methods that update the fields in place: mouse
  down and up, the reset button, `handleMousemove` and `handleScroll`.
- **Sphere mesh indices** (`sphere_mesh.dfy`, module `SphereMesh`).
  `generateSphereIndices` fills a preallocated array through a cursor inside
  two nested loops. `initBuffers` reports the matching `vertexCount`.

All arithmetic is over `real`, not floating point. The GLSL `normalize`
around the projective primitives and the `vec4.normalize` at the end of
`mutateToProjective` are not modelled. Every vector in the model is therefore
the source's vector times a positive factor. The following lemmas show that
such factors do not change the point of the sphere a vector stands for, nor
the Moebius map built from the poles:

- `RepresentsScaled`;
- `PAddHomogeneous`, `PSubHomogeneous`, `PMulHomogeneous`, `PDivHomogeneous`,
  each for either operand;
- `CoefficientsHomogeneous`.

The model follows the code as written, including where it may not be what
its names and comments suggest:

- Integer-valued constants are printed the way JavaScript prints the number
  (`2`, not `2.0`).
- The integer-power chain nests to the right: `_pMul(z, _pMul(z, z))`.
- An integer exponent of zero or below throws a `RangeError`. It does not
  fall back to `pow`.
- There is no affine mode. `toGLSL` takes one argument.
- Symbols other than `i`/`I` (such as `c` and `z`) are printed by the
  library's own printer.
- With deltaY = 0 the scroll increment is a complex multiple of the
  identity, not the identity matrix. It leaves the accumulated map of the
  sphere unchanged, but not the matrix itself.
- `_pDist` is not the chordal distance (see Findings).

## Model

| member | source | states |
|---|---|---|
| Parser.Render | js/parser.js:3-5 | printing a node never yields "undefined": the handler's string is used; otherwise the library prints parentheses around the printed content and joins the printed children of any other node, and an exception from the content or a child escapes |
| Parser.RenderArgsSpec | js/parser.js:3-5 | the children of a node printed in order give the list of their strings exactly when none throws, and otherwise the exception of the first child that throws |
| Parser.DefaultPrinting | js/parser.js:3-5 | an unknown operator or other node is printed by joining its children's own printed strings when none throws; otherwise the first child's exception escapes |
| Parser.ParenthesesKept | js/parser.js:3-5 | `(x)` prints as `(` + the printed x + `)`, and an exception inside escapes |
| Parser.FractionExample | js/parser.js:3-44 | `(z+1)/(z-1)` prints as `_pDiv((_pAdd(z, vec4(1, 0.0, 1.0, 0.0))), (_pSub(z, vec4(1, 0.0, 1.0, 0.0))))` |
| Parser.ZeroPowerEscapes | js/parser.js:45-55 | `(z^0)` and a call such as `sqrt(z^0)` raise the `RangeError` of the zero exponent |
| Parser.Repeat | js/parser.js:54 | `repeat(n)` has n times the length of the repeated string |
| Parser.PowLoop | js/parser.js:45-55 | the loop that prepends `_pMul(base, ` pow-1 times and appends base and pow-1 `)` equals the right-nested product chain for pow >= 1, and raises RangeError for pow <= 0 |
| Parser.MulChainUnrolled | js/parser.js:50-54 | the product chain for n >= 1 is n-1 prefixes `_pMul(base, `, then the base, then n-1 closing parentheses |
| Parser.BinaryShape | js/parser.js:11-44 | add/subtract/multiply/divide print as `_pAdd/_pSub/_pMul/_pDiv(left, right)` with the operands in order; an error from the left operand wins over one from the right |
| Parser.UnaryMinusShape | js/parser.js:27-28 | unary minus prints as `_pOpp(operand)`, or passes the operand's error through |
| Parser.IntegerPowRender | js/parser.js:45-55 | an integer exponent n prints the base as the n-fold product chain when n >= 1, and raises RangeError when n <= 0 |
| Parser.IntegerPowIsProduct | js/parser.js:45-55 | `base^n` for a literal n >= 1 prints as the chain, and exactly as the base when n = 1 |
| Parser.MulTreeRender | js/parser.js:45-55 | `base^n` prints exactly as the right-nested tree of n-1 multiplications of base |
| Parser.NonPositivePowThrows | js/parser.js:54 | an integer exponent <= 0 throws RangeError unless printing the base throws first |
| Parser.OtherPowShape | js/parser.js:56-63 | a non-integer or non-numeric exponent prints as `pow(base, exponent)` |
| Parser.HandledNodes | js/parser.js:65-74 | the handler returns undefined exactly for unknown operators, symbols other than i/I, parentheses and other node kinds, which are then printed by the library; a plain symbol is passed to the library's printer with no children, and prints as its name when that printer prints symbols by name; i/I print as `vec4(0.0, 1.0, 1.0, 0.0)` and a constant v as `vec4(v, 0.0, 1.0, 0.0)` |
| Parser.SquareExample | js/parser.js:45-55 | `z^2` prints as `_pMul(z, z)` |
| Parser.QuadraticExample | js/parser.js:3-5 | `z^2 + c` prints as `_pAdd(_pMul(z, z), c)` |
| Parser.MulChainBalanced | js/parser.js:50-54 | the product chain of a balanced base has balanced parentheses |
| Parser.OperatorBalanced | js/parser.js:11-65 | every operator case yields balanced text when its operands do |
| Parser.RenderBalanced | js/parser.js:11-73 | if constant texts are balanced and the library's joining of balanced child strings is balanced, every printed fragment has balanced parentheses, inside parentheses and function calls included |
| Complex.NormSqZero | js/init-program.js:183 | the divisor of `_cDiv` is nonnegative, and zero exactly for b = 0 |
| Complex.CMulComm | js/init-program.js:177-179 | `_cMul` is commutative |
| Complex.CMulAssoc | js/init-program.js:177-179 | `_cMul` is associative |
| Complex.CMulDistrib | js/init-program.js:172-179 | `_cMul` distributes over `_cAdd` |
| Complex.CMulDistribSub | js/init-program.js:173-179 | `_cMul` distributes over `_cSub` |
| Complex.CMulNonzero | js/init-program.js:177-179 | a product of nonzero numbers is nonzero |
| Complex.NormSqMul | js/init-program.js:177-179 | the squared modulus is multiplicative |
| Complex.CDivUndoesCMul | js/init-program.js:177-184 | `_cDiv(_cMul(a, b), b) = a` for b != 0 |
| Complex.CMulUndoesCDiv | js/init-program.js:177-184 | `_cMul(_cDiv(a, b), b) = a` for b != 0 |
| Projective.PMulComponents | js/init-program.js:226-233 | `_pMul` multiplies the numerators and the denominators as complex numbers |
| Projective.PAddComponents | js/init-program.js:203-210 | `_pAdd` is N1 D2 + D1 N2 over D1 D2 |
| Projective.PSubComponents | js/init-program.js:213-220 | `_pSub` is N1 D2 - D1 N2 over D1 D2 |
| Projective.PDivIsMulInv | js/init-program.js:236-246 | `_pDiv(a, b)` has exactly the components of `_pMul(a, _pInv(b))` |
| Projective.PAddComm | js/init-program.js:203-210 | `_pAdd` is commutative |
| Projective.PAddZero | js/init-program.js:203-210 | adding the constant 0 = (0, 0, 1, 0) returns a unchanged |
| Projective.PSubSelf | js/init-program.js:213-220 | `_pSub(a, a)` has a zero numerator |
| Projective.POppInvolution | js/init-program.js:223 | `_pOpp` is an involution and keeps the denominator |
| Projective.PInvInvolution | js/init-program.js:246 | `_pInv` is an involution that swaps numerator and denominator |
| Projective.PDistToInfinity | js/init-program.js:250-255 | the squared `_pDist` to infinity (1, 0, 0, 0) is the squared length of the denominator pair, which the escape test compares |
| Projective.PAddRepresents | js/init-program.js:203-210 | `_pAdd` of points standing for za and zb stands for za + zb |
| Projective.PSubRepresents | js/init-program.js:213-220 | `_pSub` stands for za - zb |
| Projective.POppRepresents | js/init-program.js:223 | `_pOpp` stands for -za |
| Projective.PMulRepresents | js/init-program.js:226-233 | `_pMul` stands for za zb |
| Projective.PInvRepresents | js/init-program.js:246 | `_pInv` stands for 1 / za when za != 0 |
| Projective.PInvZeroInfinity | js/init-program.js:246 | `_pInv` swaps 0 and infinity |
| Projective.PDivRepresents | js/init-program.js:236-243 | `_pDiv` stands for za / zb when zb != 0 |
| Projective.RepresentsScaled | js/init-program.js:204-209 | a nonzero real factor, such as `normalize`'s, does not change the point a vector stands for |
| Projective.PAddHomogeneous | js/init-program.js:203-210 | scaling either operand of `_pAdd` scales its result by the same factor |
| Projective.PSubHomogeneous | js/init-program.js:213-220 | the same for either operand of `_pSub` |
| Projective.PMulHomogeneous | js/init-program.js:226-233 | the same for either operand of `_pMul` |
| Projective.PDivHomogeneous | js/init-program.js:236-246 | the same for either operand of `_pDiv`; for the divisor through `_pInv`, which commutes with scaling |
| Projective.PMulChainComponents | js/parser.js:50-54 | the generated n-fold `_pMul` chain raises numerator and denominator to the n-th power |
| Projective.PMulChainRepresents | js/parser.js:50-54 | the n-fold `_pMul` chain of a point standing for z stands for z^n |
| Projective.PDistSelfNotZero | js/init-program.js:252-253 | as written, `_pDist` of i with itself is 2, not 0 |
| Projective.ChordDistSelf | js/init-program.js:250-255 | the corrected distance of a point to itself is 0 |
| Projective.ChordDistSymmetric | js/init-program.js:250-255 | the corrected distance is symmetric |
| Projective.ChordDistAtInfinity | js/init-program.js:250-255 | the corrected distance agrees with the code's `_pDist` at infinity, so the escape test is unaffected |
| Projective.ChordDistRepresents | js/init-program.js:250-255 | the corrected distance is the chordal distance: both denominators' squared lengths times the squared distance of the two points |
| Matrices.MulIdentity | js/event-handlers.js:129 | the identity is neutral on both sides of `mat4.mul` |
| Matrices.TransformMul | js/event-handlers.js:129 | the product `mobius * M` acts on a vector as M followed by mobius |
| Matrices.TranslateIsMul | js/init-state.js:43-53 | `mat4.translate(a, v)` is a times the translation by v |
| Matrices.TranslationMoves | js/init-state.js:43-53 | the translation by v moves every point by v |
| Matrices.IdentityBlockComplex | js/init-state.js:25 | the initial Moebius accumulator has the block-complex form |
| Matrices.MulBlockComplex | js/event-handlers.js:129 | the block-complex form is closed under `mat4.mul` |
| Mobius.LayoutRows | js/event-handlers.js:122-127 | the 16 values of `fromValues`, read column-major, give the four rows of the increment |
| Mobius.LayoutActs | js/event-handlers.js:122-127 | the increment sends (N : D) to (A N + E D : C N + G D) with A = a + ib, C = c + id, E = e + if, G = g + ih |
| Mobius.LayoutBlockComplex | js/event-handlers.js:122-127 | every increment has the block-complex form |
| Mobius.MutateToProjective | js/event-handlers.js:132-140 | the vec4 is overwritten in place with its lift |
| Mobius.LiftCases | js/event-handlers.js:133-139 | within 1e-5 of the south pole the result is exactly (1, 0, 0, 0), otherwise (x, y, 1 + z, 0); w is 0 in both branches |
| Mobius.LiftNormBounded | js/event-handlers.js:133-139 | in the lift branch the squared norm equals the squared distance to the south pole, so it is at least 1e-10 and positive |
| Mobius.LiftIsStereographic | js/event-handlers.js:138 | the lift stands for the stereographic projection (x + iy) / (1 + z) |
| Mobius.UnitScaleIsScalar | js/event-handlers.js:96-119 | with scale 1, c = d = e = f = 0; if also pt1[3] = 0, then g = a and h = b |
| Mobius.IntendedFixesFirstPole | js/event-handlers.js:96-119 | the corrected coefficients map the first pole to a multiple of itself |
| Mobius.IntendedFixesSecondPole | js/event-handlers.js:96-119 | the corrected coefficients map the second pole to a multiple of itself, with the extra factor scale |
| Mobius.AsWrittenAgreesWhenRealDenominator | js/event-handlers.js:112-119 | the coefficients as written equal the corrected ones whenever pt1[3] = 0 |
| Mobius.AsWrittenPerturbsIntended | js/event-handlers.js:111-119 | as written, g + i h differs from the corrected value by 2 i w1 (x2 + i y2), where w1 is the first pole's fourth component and x2 + i y2 the second pole's numerator |
| Mobius.AsWrittenFirstPoleImage | js/event-handlers.js:96-129 | as written, the increment sends the first pole (N1 : D1) to (kappa N1 : kappa D1 + 2 i w1 N2 D1), where the corrected map gives kappa (N1 : D1), the first pole itself |
| Mobius.AsWrittenMovesFirstPole | js/event-handlers.js:112-119 | for poles (1, 0, 0, 1) = -i and (1, 0, 0, 0) = infinity at scale 1, the code computes h = 1 where -1 is intended, and its increment sends -i to i instead of fixing it |
| Mobius.CoefficientsHomogeneous | js/event-handlers.js:96-119 | scaling the poles by k1 and k2 multiplies every coefficient by k1 k2 |
| Mobius.ScrollScaleNeutral | js/event-handlers.js:89 | scale is exactly 1 iff deltaY = 0, and positive iff deltaY > -1000 |
| Mobius.ScrollUsesIntendedMap | js/event-handlers.js:78-91 | the lifted north pole has w = 0, so the scroll increment is the corrected map |
| Mobius.ScrollWithoutMovementIsScalar | js/event-handlers.js:78-91 | with deltaY = 0 the increment is a complex multiple of the identity, whatever the rotation |
| Mobius.ScrollWithoutRotation | js/event-handlers.js:78-91 | with no rotation the unnormalised poles are (0, 0, 2, 0) and (1, 0, 0, 0), and the increment is diag(-2s, -2s, -2, -2). The source normalises the first pole to (0, 0, 1, 0) and gets diag(-s, -s, -1, -1): the model's increment is the source's times 2 |
| Mobius.ScrollZoomsAboutOrigin | js/event-handlers.js:78-91 | with no rotation, the increment sends every point z to scale * z |
| Pointer.ClipSpaceSimplified | js/event-handlers.js:144-160 | x = 2 (clientX - left) / clientWidth - 1 and y = 1 - 2 (clientY - top) / clientHeight |
| Pointer.ClipSpaceEdges | js/event-handlers.js:144-160 | the left/top corner maps to (-1, 1) and the right/bottom corner to (1, -1) |
| Pointer.ClipSpaceInverse | js/event-handlers.js:144-160 | the client coordinates can be recovered from the clip-space ones |
| Navigation.Mouse.constructor | js/init-state.js:9-17 | positions, deltas and last positions start at 0, lastClick is "none" and the button is up |
| Navigation.Space.constructor | js/init-state.js:19-33 | all matrices start as the identity and the axis as zero |
| Navigation.World.constructor | js/init-state.js:35-40 | deltaTime 0, identity view and projection, largeType "parameter" |
| Navigation.Space.TranslateModel | js/init-state.js:43-53 | `mat4.translate` in place on the model matrix |
| Navigation.InitialPlacement | js/init-state.js:43-53 | translating a fresh identity gives the translation matrix, which carries the origin to v |
| Navigation.State.constructor | js/init-state.js:7-56 | the whole initial state: inverse rotation and rotation are inverse to each other; the model matrices are the translations by (0, 0, -3) and (-4, -2, -9) |
| Navigation.State.MouseDown | js/event-handlers.js:9-11 | the button is down, and nothing else changes |
| Navigation.State.MouseUp | js/event-handlers.js:21-23 | the button is up, and nothing else changes |
| Navigation.State.Reset | js/event-handlers.js:26-30 | the parameter space's rotation, inverse rotation and Moebius accumulator become the identity; its model matrix and axis, the dynamical space, the mouse and the world are unchanged |
| Navigation.Space.Turn | js/event-handlers.js:42-66 | the axis is (-dy, dx, 0) carried back through the old inverse; the rotation turns about it by its length; the inverse is recomputed from the new rotation |
| Navigation.State.HandleMousemove | js/event-handlers.js:33-70 | x, y are the clip-space position; dx = x - old lastX and dy = y - old lastY; afterwards lastX = x and lastY = y; the rotation changes only while the button is down, and the model and Moebius matrices never change |
| Navigation.Space.UpdateMobius | js/event-handlers.js:94-130 | the accumulator becomes `mobius * M`, with M the layout of the coefficients; nothing else changes; the block-complex form is kept |
| Navigation.ProjectedPole | js/event-handlers.js:78-87 | a pole built as a fresh vec4, transformed in place by the inverse local matrix and lifted in place, ends as the lift of the carried-back point |
| Navigation.State.HandleScroll | js/event-handlers.js:72-92 | the accumulator is right-multiplied by the increment built from the carried-back, lifted poles and `scale = 1 + 0.001 deltaY`, and that increment is the corrected Moebius map; the block-complex form is kept. Without `vec4.normalize` the poles, and so the increment, are the source's times positive factors, so the model's accumulator is the source's times a positive factor (2 per scroll without rotation); the shader applies it to unnormalised vectors, where such a factor names the same point |
| SphereMesh.GenerateSphereIndices | js/init-buffers.js:68-98 | the array has exactly 6 M (P + 1) entries and holds the grid of cells, row after row |
| SphereMesh.FillRows | js/init-buffers.js:77-95 | the outer loop fills the whole buffer with the grid |
| SphereMesh.FillRow | js/init-buffers.js:78-94 | the inner loop appends one row of M cells behind the cursor |
| SphereMesh.WriteCell | js/init-buffers.js:86-93 | six `++idx` writes append (bl, br, tr, bl, tl, tr) |
| SphereMesh.InitBuffers | js/init-buffers.js:5-14 | `vertexCount` equals the length of the index array, and every slot holds the closed-form index |
| SphereMesh.GridClosedForm | js/init-buffers.js:68-98 | slot k of the grid is the closed-form index of cell k / 6 |
| SphereMesh.GridLength | js/init-buffers.js:69 | the grid has 6 M (P + 1) entries, so every slot of the array is written |
| SphereMesh.RowBaseValue | js/init-buffers.js:72-79 | row p starts at vertex p (M + 1) |
| SphereMesh.CellLayout | js/init-buffers.js:79-93 | the six entries of cell (p, m) start at slot 6 (p M + m) and are [bl, bl+1, bl+M+2, bl, bl+M+1, bl+M+2] with bl = m + p (M + 1) |
| SphereMesh.CellShape | js/init-buffers.js:79-93 | both triangles share the diagonal bl to topRight, and each triangle's indices increase |
| SphereMesh.CellRow | js/init-buffers.js:79-80 | bottomRight stays in bl's row: bl + 1 < (p + 1)(M + 1) |
| SphereMesh.CellEntryInBounds | js/init-buffers.js:79-82 | every entry of every cell is below (M + 1)(P + 2), the vertex count of the position array |
| SphereMesh.IndexInBounds | js/init-buffers.js:79-82 | every slot of the index array is below (M + 1)(P + 2) |
| SphereMesh.MaxIndexAttained | js/init-buffers.js:79-82 | the largest index written is (M + 1)(P + 2) - 1 |
| SphereMesh.DefaultMeshFitsUint16 | js/init-buffers.js:39 | with the 128 x 64 mesh of `initBuffers(gl, 128, 64)`, every index is below 65536 and fits the Uint16Array |

## Left out

- WebGL plumbing is left out: program and shader set-up, buffer uploads, the draw call and the render loop. These are foreign calls with no logic of their own.
- The GLSL `main` iteration loop, `_cPow` and `_sqrt` are left out. They are floating-point transcendental code that runs on the GPU.
- `generateSphereVertices` is left out. It uses trigonometry, and its float-stepped loop counters make the number of vertices depend on rounding. Its array size (M + 1)(P + 2) is the bound the index lemmas use.
- The expression library's parser is left out, and so are the tokens its default printer adds around a node's children. The model takes the parsed tree as input. The library prints each child through the handler, in order, and keeps the parentheses the user wrote; the model does both. The joining of the children's strings is the parameter `fallback`.
- Parser.ExponentValue: `Number(node)` is modelled only for a numeric literal, possibly signed. Every other exponent counts as NaN, because its printed form does not read back as a number.
- Parser.Render: operator names other than add, subtract, multiply, divide, unaryMinus, unaryPlus and pow are one case, `OtherOp`. The handler treats them all alike.
- Floating point is not modelled, and neither are the `normalize` calls in the projective primitives and in `mutateToProjective`. The lemmas listed above show that positive factors do not matter.
- Navigation.Space.Turn: `mat4.rotate`, `vec3.length` and `mat4.invert` are function parameters. `mat4.rotate` leaves the matrix alone for a near-zero axis, which is inside the `rotate` parameter. On a singular matrix `mat4.invert` returns null and leaves the old inverse in place, which a parameter applied to the new rotation cannot express; a rotation matrix is never singular in exact arithmetic, so that case does not arise here.
- Navigation.State.HandleScroll: the clip-space pointer position that `handleScroll` computes is never used in the source, so the model does not compute it. `preventDefault` is not modelled.
- Navigation.State.HandleMousemove: the canvas is assumed to have positive sizes (`ProperCanvas`). With a zero size the source divides by zero and produces NaN or Infinity.
- Navigation: the matrices are values held in fields that the methods reassign. In the source they are glMatrix buffers updated in place. Nothing in the core aliases two of them.
- `setEventListeners` is left out. It only registers listeners; the bodies of the mousedown, mouseup and reset listeners are modelled as methods.
- js/gl-mandel.js is not part of this model: it holds the DOM and menu wiring, the frame counter and the render loop. Only its call `initBuffers(gl, 128, 64)` is used, as the default mesh size.

## Findings

| source | as written | input that shows it | evidently intended | confidence | as-written member | corrected member |
|---|---|---|---|---|---|---|
| js/event-handlers.js:112-119 | `g` subtracts `pt1[2]*pt2[0]` and then `pt1[3]*pt2[1]`; `h` subtracts `pt1[2]*pt2[1]` and adds `pt1[3]*pt2[0]`. The parentheses that `a` and `b` put around their second products are missing, which conjugates the first pole's denominator. | pt1 = (1, 0, 0, 1), the point -i; pt2 = (1, 0, 0, 0), infinity; scale = 1. The increment sends -i to i. | g = s (p0 q2 - p1 q3) - (p2 q0 - p3 q1) and h = s (p0 q3 + p1 q2) - (p2 q1 + p3 q0), so that the increment fixes both poles | high; not executed | Mobius.AsWrittenMovesFirstPole | Mobius.IntendedFixesFirstPole |
| js/init-program.js:252-253 | the second component of `_pDist` adds the cross term: `+ a.z * b.y + a.w * b.x` | a = b = i = (0, 1, 1, 0): `_pDist(i, i)` has squared value 4, not 0 | the imaginary part of N1 D2 - D1 N2, i.e. `- a.z * b.y - a.w * b.x`, the chordal distance | medium (the escape test only ever compares with infinity, where the two agree); not executed | Projective.PDistSelfNotZero | Projective.ChordDistSelf |

The scroll handler only ever passes a first pole with w = 0, and for such a
pole the code as written agrees with the intended map
(`Mobius.ScrollUsesIntendedMap`). `Navigation.State.HandleScroll` is
therefore stated as the intended Moebius zoom. Likewise, the escape test
compares only with infinity, where `Projective.ChordDistAtInfinity` shows the
two distances agree.
