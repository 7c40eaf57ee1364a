# Sierpinski triangle renderer of walk-the-dog, modelled in Dafny

The repository draws a Sierpinski triangle on an HTML canvas from Rust
compiled to WebAssembly. Its core is three functions of `src/lib.rs`:

- `midpoint` averages two points;
- `draw_triangle` strokes one triangle with seven calls on the 2D drawing
  context (`move_to`, `begin_path`, three `line_to`, `close_path`, `stroke`);
- `sierpinski` draws a triangle, decrements its `u8` depth and, while that is
  still positive, recurses into the top, left and right corner triangles
  built from the three edge midpoints.

The model has four modules, one file each:

- `geometry.dfy` (`Geometry`): points with `real` coordinates, triangles as
  (top, left, right), `Midpoint`, and `Subdivide`, the three children in
  drawing order. It also proves facts about the subdivision: which points the
  children use, their areas, and that they lie inside the parent (barycentric
  weights).
- `canvas.dfy` (`Canvas`): the drawing context as a class `Context` whose only
  state is the sequence of commands issued to it. Its five methods each append
  one command. A pure interpreter `Run` gives those commands the path
  semantics of the canvas 2D context in the HTML Living Standard ("Building
  paths", "Drawing paths to the canvas"). `begin_path` empties the path.
  `line_to` on an empty path only starts a subpath. `close_path` adds the
  closing side and starts a new subpath at the first point. `stroke` draws
  every side of the path. The interpreter is the independent reference
  against which the trace of `draw_triangle` is judged.
- `sierpinski.dfy` (`Sierpinski`): `DrawTriangle` and the recursive
  `Sierpinski` as methods on a `Context`. They are proved against the pure
  functions `TriangleCommands` and `Calls`. `Calls` is the pre-order list of
  invocations, each paired with the depth it receives. `Trace` is the
  commands those invocations issue. The module also holds the entry point's
  triangle and depth.
- `properties.dfy` (`SierpinskiProperties`): the lemmas about what is drawn:
  - the count (3^N - 1) / 2;
  - the seven-command blocks;
  - the pre-order;
  - the depths and height of the call tree;
  - the child vertices;
  - the segments stroked on the canvas;
  - the concrete drawing of the entry point.

The depth is a `u8` newtype. `Sierpinski` requires `depth >= 1`, because
`depth - 1` on a `u8` of 0 underflows (src/lib.rs:42). The method's
`decreases depth` is the termination argument.

## Model

| member | source | states |
|---|---|---|
| Geometry.Midpoint | src/lib.rs:56-58 | the coordinate-wise mean ((a.x + b.x) / 2, (a.y + b.y) / 2) over exact reals; characterised independently of this formula by `MidpointHalfway` and `MidpointUnique` |
| Geometry.MidpointHalfway | src/lib.rs:56-58 | the coordinate-wise mean is the point halfway from `a` to `b`: the step from `a` to it equals the step from it to `b`, and it is the interpolation at 1/2 |
| Geometry.MidpointSymmetric | src/lib.rs:56-58 | swapping the two arguments gives the same point |
| Geometry.MidpointUnique | src/lib.rs:56-58 | a point splits the segment into two equal steps if and only if it is the midpoint |
| Geometry.Subdivide | src/lib.rs:46-51 | exactly three children; the top, left and right child keep the parent's top, left and right corner in the same role; neighbouring children share the midpoints of the edges between them |
| Geometry.SubdivideVertices | src/lib.rs:46-51 | every corner of every child is a corner of the parent or one of its three edge midpoints, and together the children use all six of those points |
| Geometry.SubdivideArea | src/lib.rs:46-51 | each child has a quarter of the parent's signed area, and the parent's signed area minus the three children's equals the signed area of the central triangle of midpoints |
| Geometry.SubdivideInside | src/lib.rs:46-51 | every corner of every child lies inside the parent triangle |
| Canvas.Context.MoveTo | src/lib.rs:21 | the context's command record grows by exactly one `move_to` of the given point |
| Canvas.Context.BeginPath | src/lib.rs:22 | the record grows by exactly one `begin_path` |
| Canvas.Context.LineTo | src/lib.rs:23-25 | the record grows by exactly one `line_to` of the given point |
| Canvas.Context.ClosePath | src/lib.rs:26 | the record grows by exactly one `close_path` |
| Canvas.Context.Stroke | src/lib.rs:27 | the record grows by exactly one `stroke` |
| Sierpinski.TriangleCommands | src/lib.rs:19-28 | `draw_triangle` issues seven commands |
| Sierpinski.DrawTriangle | src/lib.rs:19-28 | the context receives `move_to(top)`, `begin_path`, `line_to(left)`, `line_to(right)`, `line_to(top)`, `close_path`, `stroke`, in that order, and nothing else |
| Sierpinski.Calls | src/lib.rs:33-53 | the first invocation is the call itself with its own triangle and depth; the call makes no other invocation exactly when its depth is 1 |
| Sierpinski.TraceUnfold | src/lib.rs:36-51 | the trace of a recursing call is its own triangle's seven commands, then the traces of the children built from the three edge midpoints, in the order top, left, right |
| Sierpinski.Sierpinski | src/lib.rs:33-53 | for depth >= 1, the context receives exactly the commands of every invocation's triangle, in pre-order, and nothing else |
| SierpinskiProperties.SingleTriangle | src/lib.rs:36-45 | depth 1 draws only the input triangle: the trace is exactly its seven commands |
| SierpinskiProperties.CallCount | src/lib.rs:33-53 | twice the number of invocations plus one is 3^N |
| SierpinskiProperties.TriangleCount | src/lib.rs:33-53 | depth N draws (3^N - 1) / 2 triangles |
| SierpinskiProperties.TraceLength | src/lib.rs:33-53 | depth N issues 7 * (3^N - 1) / 2 commands |
| SierpinskiProperties.TraceShape | src/lib.rs:36 | the trace is seven commands per invocation, and the k-th block of seven strokes the k-th invocation's triangle |
| SierpinskiProperties.PreOrder | src/lib.rs:36-51 | the call's own triangle comes first, then the whole drawing of the top child, then of the left child, then of the right child, each with depth N - 1 and (3^(N-1) - 1) / 2 triangles |
| SierpinskiProperties.CallDepths | src/lib.rs:42-51 | every invocation has a depth between 1 and N, and every one after the first a smaller depth than N |
| SierpinskiProperties.LevelCount | src/lib.rs:42-51 | the call tree has height N: there are 3^(N-d) invocations of depth d for each d from 1 to N, and none at any other depth |
| SierpinskiProperties.OnlyFirstAtDepth | src/lib.rs:42-45 | the only invocation with the full depth N is the call itself |
| SierpinskiProperties.ChildVertices | src/lib.rs:39-51 | the invocations one level down draw exactly the children of the subdivision: every one of them draws a child, and every child is drawn with depth N - 1; their corners are among the parent's corners and edge midpoints |
| SierpinskiProperties.DrawnInside | src/lib.rs:46-51 | every corner of every triangle drawn lies inside the input triangle |
| SierpinskiProperties.TrianglePath | src/lib.rs:21-26 | before the `stroke`, the seven commands leave the closed outline left, right, top, plus an empty subpath at left, whatever path was there before, and stroke nothing |
| SierpinskiProperties.ClosedPathEdges | src/lib.rs:23-27 | stroking that path draws the three sides left-right, right-top and top-left |
| SierpinskiProperties.TriangleStrokes | src/lib.rs:19-28 | on any canvas state, `draw_triangle` appends exactly the three sides of the triangle to what was stroked before (left-right, right-top, top-left), and leaves the closed outline as the current path |
| SierpinskiProperties.MoveToDiscarded | src/lib.rs:21-22 | the leading `move_to` has no effect: `begin_path` discards it, and the drawing is the same without it |
| SierpinskiProperties.TraceStrokes | src/lib.rs:33-53 | on any canvas state, the whole drawing strokes exactly the three sides of every triangle drawn, in pre-order: three segments per triangle |
| SierpinskiProperties.InitialDrawing | src/lib.rs:86 | the entry point's call (depth 2 on (300,0), (0,600), (600,600)) draws four triangles: the input, then the top, left and right child with their concrete corners, in 28 commands |

## Left out

- `main_js` (src/lib.rs:63-89) is browser glue: the window and document lookup, `get_element_by_id`, `get_context`, the `dyn_into` casts and their `unwrap`s, and the `wasm_bindgen` start attribute. These are foreign calls. Only its triangle and depth are kept, as `InitialTriangle` and `InitialDepth`.
- The `wee_alloc` allocator and `console_error_panic_hook` (src/lib.rs:11-13, 67) are runtime plumbing.
- Coordinates are exact reals. The `f64` rounding and overflow of `midpoint` are not modelled, and no claim depends on them.
- The canvas is reduced to its command record, plus the path and stroked segments that `Run` derives from it. Pixels, line width, stroke style and the canvas transform are not modelled.
- `sierpinski` with depth 0 is excluded by the precondition. In the source it panics in a debug build on the `u8` underflow, and in a release build it wraps to 255. A rule that clamps such a depth to 1 is not what this code does, so it is not modelled.
- Filling triangles with a per-level colour is not part of this code and is not modelled.
- SubdivideArea: states only an identity between signed areas; that the three children do not overlap as regions, and that the region they leave uncovered is the central triangle, is not proved.
