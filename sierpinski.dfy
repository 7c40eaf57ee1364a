/**
 * The renderer of src/lib.rs: `draw_triangle`, which strokes one triangle
 * with seven calls on the drawing context, and `sierpinski`, which draws a
 * triangle and, while the decremented depth is positive, recurses into the
 * three corner triangles of its subdivision.
 *
 * The recursive method is proved against `Calls`, the pre-order list of the
 * invocations it makes; `Trace` is the commands those invocations issue.
 */
module Sierpinski {
  import opened Geometry
  import opened Canvas

  /** Rust's `u8`: the type of the recursion depth. */
  newtype u8 = x: int | 0 <= x < 256

  /** The commands `draw_triangle` issues for `t`, in the order it issues them. */
  function TriangleCommands(t: Triangle): (cs: seq<Command>)
    ensures |cs| == 7
  {
    [MoveTo(t.top), BeginPath, LineTo(t.left), LineTo(t.right), LineTo(t.top), ClosePath, Stroke]
  }

  /** Strokes the outline of `points` on `context`, appending seven commands and nothing else. */
  method DrawTriangle(context: Context, points: Triangle)
    modifies context
    ensures context.trace == old(context.trace) + TriangleCommands(points)
  {
    context.MoveTo(points.top);
    context.BeginPath();
    context.LineTo(points.left);
    context.LineTo(points.right);
    context.LineTo(points.top);
    context.ClosePath();
    context.Stroke();
  }

  /** One invocation of `sierpinski`: the triangle it draws and the depth it receives. */
  datatype Call = Call(tri: Triangle, depth: nat)

  /**
   * Every invocation made by `sierpinski(t, depth)`, itself included, in the
   * order they draw: the call itself first, then the calls made for the top,
   * left and right child, each with the decremented depth.
   */
  function Calls(t: Triangle, depth: nat): (cs: seq<Call>)
    requires depth >= 1
    ensures |cs| >= 1 && cs[0] == Call(t, depth)
    ensures |cs| == 1 <==> depth == 1
    decreases depth
  {
    var rest := depth - 1;
    if rest > 0 then
      var children := Subdivide(t);
      [Call(t, depth)] + Calls(children[0], rest) + Calls(children[1], rest) + Calls(children[2], rest)
    else
      [Call(t, depth)]
  }

  /** The commands issued by the invocations `cs`, one `draw_triangle` each, in order. */
  function Commands(cs: seq<Call>): (r: seq<Command>)
    ensures |r| == 7 * |cs|
  {
    if cs == [] then [] else TriangleCommands(cs[0].tri) + Commands(cs[1..])
  }

  /** Everything `sierpinski(t, depth)` appends to the context. */
  function Trace(t: Triangle, depth: nat): seq<Command>
    requires depth >= 1
  {
    Commands(Calls(t, depth))
  }

  lemma {:induction false} CommandsAppend(a: seq<Call>, b: seq<Call>)
    ensures Commands(a + b) == Commands(a) + Commands(b)
    decreases a
  {
    if a == [] {
      assert a + b == b;
    } else {
      assert (a + b)[0] == a[0];
      assert (a + b)[1..] == a[1..] + b;
      CommandsAppend(a[1..], b);
    }
  }

  /**
   * The calls of a call that recurses: itself, then those of its top, left
   * and right child, made with the decremented depth `rest`.
   */
  lemma CallsUnfold(t: Triangle, depth: nat, rest: nat)
    requires rest >= 1 && depth == rest + 1
    ensures var children := Subdivide(t);
      Calls(t, depth)
      == [Call(t, depth)] + Calls(children[0], rest) + Calls(children[1], rest) + Calls(children[2], rest)
  {
  }

  /**
   * The trace of a call that recurses: its own triangle, then the traces of
   * its top, left and right child, built from the three edge midpoints.
   */
  lemma TraceUnfold(t: Triangle, depth: nat)
    requires depth >= 2
    ensures var leftMiddle, rightMiddle, bottomMiddle :=
        Midpoint(t.top, t.left), Midpoint(t.top, t.right), Midpoint(t.left, t.right);
      Trace(t, depth)
      == TriangleCommands(t)
         + Trace(Triangle(t.top, leftMiddle, rightMiddle), depth - 1)
         + Trace(Triangle(leftMiddle, t.left, bottomMiddle), depth - 1)
         + Trace(Triangle(rightMiddle, bottomMiddle, t.right), depth - 1)
  {
    var children := Subdivide(t);
    var a, b, c := Calls(children[0], depth - 1), Calls(children[1], depth - 1), Calls(children[2], depth - 1);
    CallsUnfold(t, depth, depth - 1);
    CommandsAppend([Call(t, depth)] + a + b, c);
    CommandsAppend([Call(t, depth)] + a, b);
    CommandsAppend([Call(t, depth)], a);
  }

  /** `TraceUnfold` as the method uses it: appending the four parts appends the whole trace. */
  lemma TraceStep(before: seq<Command>, after: seq<Command>, t: Triangle, depth: nat)
    requires depth >= 2
    requires var leftMiddle, rightMiddle, bottomMiddle :=
        Midpoint(t.top, t.left), Midpoint(t.top, t.right), Midpoint(t.left, t.right);
      after == before + TriangleCommands(t)
               + Trace(Triangle(t.top, leftMiddle, rightMiddle), depth - 1)
               + Trace(Triangle(leftMiddle, t.left, bottomMiddle), depth - 1)
               + Trace(Triangle(rightMiddle, bottomMiddle, t.right), depth - 1)
    ensures after == before + Trace(t, depth)
  {
    TraceUnfold(t, depth);
  }

  /**
   * Draws the Sierpinski triangle of recursion depth `depth` inside `points`.
   * A depth of 0 is excluded: the `u8` decrement would underflow.
   */
  method Sierpinski(context: Context, points: Triangle, depth: u8)
    requires depth >= 1
    modifies context
    ensures context.trace == old(context.trace) + Trace(points, depth as nat)
    decreases depth
  {
    DrawTriangle(context, points);
    var top, left, right := points.top, points.left, points.right;
    var rest := depth - 1;
    if rest > 0 {
      var leftMiddle := Midpoint(top, left);
      var rightMiddle := Midpoint(top, right);
      var bottomMiddle := Midpoint(left, right);
      Sierpinski(context, Triangle(top, leftMiddle, rightMiddle), rest);
      Sierpinski(context, Triangle(leftMiddle, left, bottomMiddle), rest);
      Sierpinski(context, Triangle(rightMiddle, bottomMiddle, right), rest);
      TraceStep(old(context.trace), context.trace, points, depth as nat);
    } else {
      assert Calls(points, depth as nat) == [Call(points, depth as nat)];
    }
  }

  // ---------------------------------------------------------------------
  // The entry point's drawing

  /** The triangle the entry point draws: apex (300, 0), base corners (0, 600) and (600, 600). */
  const InitialTriangle := Triangle(Point(300.0, 0.0), Point(0.0, 600.0), Point(600.0, 600.0))

  /** The recursion depth the entry point passes. */
  const InitialDepth: u8 := 2
}
