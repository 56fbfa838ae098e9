# Dither shader viewer, modelled in Dafny

The dither shader viewer is a small React and three.js page. Its logic lives
in `src/DitherShaderApp.jsx`: an ordered-dither fragment shader, and a load
handler `handleOBJ` that parses a Wavefront OBJ text, gives the object the
shader, fits it into the canonical cube `[-1, 1]^3` and makes it the one
loaded object of the scene. This project models those parts as the code
writes them and proves what they promise. As the page stands, no code path
calls `handleOBJ` (see "## Left out"), so the model describes the handler
itself, not something the running page does.

- `dither.dfy` (module `Dither`): the fragment shader. GLSL `mod`, `int` and
  `step` are modelled exactly over `real`. A pixel `(px, py)` is shaded at its
  window coordinate, the pixel centre `(px + 0.5, py + 0.5)`. The proofs show
  the following. The tile cell of a pixel is `px mod 8`. The threshold is
  `xi * yi / 64` with `xi * yi <= 49`, so the `mod 64` never acts. The pattern
  repeats every 8 pixels. The colour is binary and opaque. The luminance the
  shader dithers is the constant `dot(vec3(1.0), vec3(0.299, 0.587, 0.114))`,
  which is exactly 1.0. Every threshold is at most 49/64, so every fragment is
  opaque white.
- `geometry.dfy` (module `Geometry`): the centre-and-scale step of the loader.
  It takes the bounding box of the object's points, its centre, its size and
  `maxDim`. Then it sets `scale = 2 / maxDim` and `position = -center * scale`.
  For points that do not all coincide, the proofs show three things. The scale
  is positive. The box of the moved points is centred at the origin and its
  largest side is exactly 2. Every moved point lies in `[-1, 1]^3`. The code
  has no guard for `maxDim == 0`, which happens when there are no points or
  when all points coincide. JavaScript then computes an infinite scale and a
  non-finite position, and the load still goes on. The model keeps this case
  as the transform `NonFinite` and proves exactly when it arises.
- `scene.dfy` (module `Scene`): the load handler `handleOBJ` and its state.
  The `Viewer` class holds the scene's children and the current `model`. The
  `Object3D` class holds a parsed object's children and its transform. Loading
  does four things in order. It gives every mesh child the dither shader
  material (`shaderMaterial || fallbackMaterial` always picks the shader,
  because the shader is always constructed). It fits the object to the cube.
  It removes the previous model. It adds the new object. A parse failure is
  caught before anything has changed, so the scene and `model` stay as they
  were. After a successful load the scene is the two start-up lights followed
  by exactly one model, the new one.

## Model

| member | source | states |
|---|---|---|
| Dither.GlslMod | src/DitherShaderApp.jsx:51-53 | GLSL `mod` by a positive divisor is in `[0, b)` and leaves a whole multiple of the divisor |
| Dither.GlslInt | src/DitherShaderApp.jsx:51-52 | `int()` truncates toward zero: the result is within 1 of its argument, on the zero side |
| Dither.Step | src/DitherShaderApp.jsx:54 | `step(edge, v)` is 1 exactly when `v >= edge` and 0 exactly when `v < edge` |
| Dither.TileIndex | src/DitherShaderApp.jsx:51-52 | the tile cell of any window coordinate lies in `0..7` |
| Dither.TileIndexOfPixelCentre | src/DitherShaderApp.jsx:51-52 | at a pixel centre `p + 0.5`, `int(mod(p + 0.5, 8.0))` is `p mod 8` |
| Dither.Threshold | src/DitherShaderApp.jsx:53 | `mod(float(x * y), 64.0) / 64.0` always lies in `[0, 1)`; its exact value on tile cells is stated by `ThresholdExact` |
| Dither.ThresholdExact | src/DitherShaderApp.jsx:53 | for cells in `0..7` the product is at most 49, the threshold is exactly `xi * yi / 64`, lies in `[0, 49/64]`, and is 0 when `xi` or `yi` is 0 |
| Dither.FragThresholdBounds | src/DitherShaderApp.jsx:51-53 | every fragment's threshold lies in `[0, 49/64]`, whatever its coordinate |
| Dither.PixelThresholdByCell | src/DitherShaderApp.jsx:51-53 | a pixel's threshold is `(px mod 8) * (py mod 8) / 64` |
| Dither.PixelThresholdPeriodic | src/DitherShaderApp.jsx:51-55 | `PixelThreshold` and `PixelColour`, the threshold and the colour of pixel `(px, py)`, repeat with period 8 in x and in y |
| Dither.DitherColour | src/DitherShaderApp.jsx:54-55 | the colour is binary and opaque: the three channels are equal, 1 exactly when `gray >= threshold`, 0 exactly when `gray < threshold`, and alpha is 1 |
| Dither.GrayIsOne | src/DitherShaderApp.jsx:50 | the constant luminance is exactly 1.0 |
| Dither.AlwaysWhite | src/DitherShaderApp.jsx:50-55 | `Shade`, the whole fragment shader, makes every fragment opaque white at any window coordinate |
| Geometry.Max3 | src/DitherShaderApp.jsx:80 | `Math.max` of the three sides is at least each of them |
| Geometry.Max3IsOneOf | src/DitherShaderApp.jsx:80 | `Math.max` of the three sides is one of them |
| Geometry.Lo | src/DitherShaderApp.jsx:76 | the box's lower corner is at most every coordinate along its axis |
| Geometry.Hi | src/DitherShaderApp.jsx:76 | the box's upper corner is at least every coordinate along its axis |
| Geometry.ExtremesAttained | src/DitherShaderApp.jsx:76 | both corners of the box are attained by some point |
| Geometry.BoundsTight | src/DitherShaderApp.jsx:76 | `Bounds`, `Box3.setFromObject` on the raw points, is the smallest box holding them: it contains every point and along each axis a point lies on each of its two faces |
| Geometry.CornersFromCentre | src/DitherShaderApp.jsx:77-78 | `Center` and `Size` (`getCenter`, `getSize`) recover the box: its corners are the centre minus and plus half the size |
| Geometry.FlatIff | src/DitherShaderApp.jsx:76-77 | a side is never negative, and it is 0 exactly when all points agree along that axis |
| Geometry.ExtentZeroIff | src/DitherShaderApp.jsx:76-80 | `Extent`, the code's `maxDim` (`MaxDim` of the box, or 0 for an empty box), is never negative, and it is 0 exactly when there are no points or all points coincide |
| Geometry.FitScale | src/DitherShaderApp.jsx:80-83 | `Fit`, the transform the loader sets, is finite exactly when `maxDim != 0`; it then scales `maxDim` to exactly 2, moves by `-center * scale`, and its scale is positive when `maxDim` is |
| Geometry.FitDegenerateIff | src/DitherShaderApp.jsx:80-81 | the fit is non-finite exactly when the points all coincide (or there are none); otherwise the scale is positive |
| Geometry.ApplyAllPointwise | src/DitherShaderApp.jsx:82-83 | `ApplyAll` moves each point by `Apply`, `position + scale * p`, on its own and in order |
| Geometry.CoordsOfApplyAll | src/DitherShaderApp.jsx:82-83 | a scale and a translation act on each axis' coordinates separately |
| Geometry.ExtremesAffine | src/DitherShaderApp.jsx:82-83 | under a positive scale and a translation, the least and greatest coordinate move with the points |
| Geometry.CentredAxis | src/DitherShaderApp.jsx:76-83 | along each axis the moved box is centred at 0 and its side is scaled by `scale` |
| Geometry.CentredPlacement | src/DitherShaderApp.jsx:76-83 | for any positive scale, the moved box is centred at the origin and every side is scaled by it |
| Geometry.MaxDimScaled | src/DitherShaderApp.jsx:80-82 | scaling every side by a positive factor scales `maxDim` by it |
| Geometry.NormalisedBy | src/DitherShaderApp.jsx:76-83 | centring by a positive scale gives a box centred at the origin whose `maxDim` is scaled by it |
| Geometry.FitNormalises | src/DitherShaderApp.jsx:76-83 | for points that do not all coincide, the scale is positive and the fitted box is centred at the origin with largest side exactly 2 |
| Geometry.InCanonicalCube | src/DitherShaderApp.jsx:76-83 | points whose box is centred at the origin with largest side 2 all lie in `[-1, 1]^3` |
| Geometry.FittedPointsInCube | src/DitherShaderApp.jsx:76-83 | after fitting, `Apply(Fit(ps), p)` lies in `[-1, 1]^3` for every point `p` of an object whose points do not all coincide |
| Scene.Or | src/DitherShaderApp.jsx:70 | `primary || fallback` picks the primary material whenever there is one, and the fallback only when there is none |
| Scene.PositionsOnlyDependOnGeometry | src/DitherShaderApp.jsx:67-76 | assigning materials does not change the points the box is computed from |
| Scene.Object3D.constructor | src/DitherShaderApp.jsx:64 | a parsed object holds its children under the identity transform |
| Scene.Object3D.ApplyMaterial | src/DitherShaderApp.jsx:67-73 | every mesh child gets `primary || fallback` and keeps its kind and points; every other child is unchanged; the transform is unchanged |
| Scene.Object3D.FitToCube | src/DitherShaderApp.jsx:76-83 | from the identity, the object's transform becomes the fit of its points and its children are unchanged |
| Scene.Lights | src/DitherShaderApp.jsx:28-32 | the start-up scene children are two light nodes, an ambient light then a directional light, and hold no model |
| Scene.Models | src/DitherShaderApp.jsx:85-87 | the loaded objects of a scene are exactly the objects of its model nodes |
| Scene.RemoveFirst | src/DitherShaderApp.jsx:85 | `scene.remove` leaves a scene without the node unchanged, and otherwise removes one occurrence and nothing else |
| Scene.RemoveFirstSplits | src/DitherShaderApp.jsx:85 | `scene.remove` (`indexOf` then `splice`) cuts out the first occurrence, and the nodes before and after it keep their order |
| Scene.RemoveLastAdded | src/DitherShaderApp.jsx:85-87 | removing the node added last, which occurs nowhere else, restores the scene before it was added |
| Scene.ModelsAppend | src/DitherShaderApp.jsx:87 | the models of a concatenation of scenes are the models of each part, in order |
| Scene.Viewer.constructor | src/DitherShaderApp.jsx:28-39 | at start-up the scene is the ambient light then the directional light, there is no model, and both materials exist |
| Scene.Viewer.HandleObj | src/DitherShaderApp.jsx:60-91 | a parse failure changes nothing; a parsed object becomes the model, with the dither shader on every mesh child (never the fallback), other children as parsed, fitted to the cube; the previous model is gone, the lights are untouched, and the scene holds exactly one model |

## Left out

- React component structure, DOM mounting and clean-up, and `src/main.jsx`: page plumbing with no logic of its own.
- The `FileReader` reads, the `loadOBJ` custom event and the second effect that parses a file and discards the result: asynchronous browser I/O. `HandleObj` models the body of `handleOBJ` once its file text has been read.
- No code path reaches `handleOBJ` (src/DitherShaderApp.jsx:60): `handleFileChange` only dispatches a `loadOBJ` event, and the one listener for it parses the file with a fresh loader and throws the result away. As written, the page never adds, fits or replaces a model, and its scene holds only the two lights. The model describes what `handleOBJ` would do when called.
- The order in which overlapping loads complete: a concurrency matter. Each load is modelled as one atomic call.
- OBJ text parsing by `OBJLoader.parse`: a library whose code is not part of this model. Its outcome is the parameter `ParseResult`, either parsed children with their points or a parse error.
- Scene.Viewer.HandleObj: only the parse error is modelled as an exception. Nothing else before the `scene.remove` throws on a parsed object, and the console logging is left out.
- Scene.Object3D.ApplyMaterial: `traverse` walks the whole object tree; the model walks one level of children, the shape `OBJLoader` produces. The `needsUpdate` flag is a renderer detail and is left out.
- The box: three.js takes the box of each child's geometry under its world matrix. The model takes the min and max of the raw points, which is the same for a freshly parsed object with identity transforms.
- The degenerate fit: the infinite scale and `NaN` position of `maxDim == 0` are one value, `NonFinite`. Their floating-point values are not modelled.
- Floating-point rounding, on the GPU and in JavaScript: coordinates and shader arithmetic are `real`, and pixel indices are natural numbers.
- The vertex shader, the renderer, the camera, `OrbitControls` damping and the `requestAnimationFrame` loop: library numerics and host scheduling with no contract in the code.
- GPU resource release for a replaced model: the code only calls `scene.remove` and never disposes of geometry or materials, so there is nothing further to model.
