/**
 * What `sierpinski` draws, stated over `Calls` and `Trace`: how many
 * triangles, in which order, at which depths, with which vertices, and which
 * segments end up stroked on the canvas.
 *
 * The inductive proofs share one shape: the lemma handles depth 1, states its
 * own claim for every triangle one level down, and hands that to a `...Step`
 * lemma that unfolds a single level of `Calls`.
 */
module SierpinskiProperties {
  import opened Geometry
  import opened Canvas
  import opened Sierpinski

  function Pow3(n: nat): (r: nat)
    ensures r >= 1
  {
    if n == 0 then 1 else 3 * Pow3(n - 1)
  }

  // ---------------------------------------------------------------------
  // How many triangles, and the shape of the trace

  lemma {:induction false} CallCount(t: Triangle, depth: nat)
    requires depth >= 1
    ensures 2 * |Calls(t, depth)| + 1 == Pow3(depth)
    decreases depth
  {
    if depth > 1 {
      var rest := depth - 1;
      forall u: Triangle
        ensures 2 * |Calls(u, rest)| + 1 == Pow3(rest)
      {
        CallCount(u, rest);
      }
      CallCountStep(t, depth, rest);
    }
  }

  lemma CallCountStep(t: Triangle, depth: nat, rest: nat)
    requires rest >= 1 && depth == rest + 1
    requires forall u: Triangle :: 2 * |Calls(u, rest)| + 1 == Pow3(rest)
    ensures 2 * |Calls(t, depth)| + 1 == Pow3(depth)
  {
    var children := Subdivide(t);
    CallsUnfold(t, depth, rest);
    ThreeSubtrees(Call(t, depth), Calls(children[0], rest), Calls(children[1], rest), Calls(children[2], rest), rest);
  }

  /** A root above three subtrees of (3^N - 1) / 2 nodes each makes (3^(N+1) - 1) / 2 nodes. */
  lemma ThreeSubtrees(x: Call, a: seq<Call>, b: seq<Call>, c: seq<Call>, n: nat)
    requires x.depth == n + 1
    requires 2 * |a| + 1 == Pow3(n) && 2 * |b| + 1 == Pow3(n) && 2 * |c| + 1 == Pow3(n)
    ensures 2 * |[x] + a + b + c| + 1 == Pow3(x.depth)
  {
  }

  /** A call with depth N draws (3^N - 1) / 2 triangles, one per invocation. */
  lemma TriangleCount(t: Triangle, depth: nat)
    requires depth >= 1
    ensures |Calls(t, depth)| == (Pow3(depth) - 1) / 2
  {
    CallCount(t, depth);
  }

  /** A call with depth N issues 7 * (3^N - 1) / 2 commands. */
  lemma TraceLength(t: Triangle, depth: nat)
    requires depth >= 1
    ensures |Trace(t, depth)| == 7 * ((Pow3(depth) - 1) / 2)
  {
    TriangleCount(t, depth);
  }

  /** With depth 1 the call draws its own triangle and nothing more: it does not recurse. */
  lemma SingleTriangle(t: Triangle)
    ensures Calls(t, 1) == [Call(t, 1)]
    ensures Trace(t, 1) == TriangleCommands(t)
  {
    var cs := Calls(t, 1);
    assert cs == [Call(t, 1)];
    assert Commands(cs) == TriangleCommands(t) + Commands(cs[1..]);
    assert cs[1..] == [];
  }

  lemma {:induction false} CommandsAt(cs: seq<Call>, k: nat)
    requires k < |cs|
    ensures Commands(cs)[7 * k .. 7 * k + 7] == TriangleCommands(cs[k].tri)
    decreases k
  {
    if k > 0 {
      CommandsAt(cs[1..], k - 1);
      assert Commands(cs) == TriangleCommands(cs[0].tri) + Commands(cs[1..]);
      assert Commands(cs)[7 * k .. 7 * k + 7] == Commands(cs[1..])[7 * (k - 1) .. 7 * (k - 1) + 7];
    }
  }

  /**
   * The trace is made of whole `draw_triangle` blocks: the k-th block of
   * seven commands draws the k-th invocation's triangle, and nothing else is
   * issued.
   */
  lemma TraceShape(t: Triangle, depth: nat, k: nat)
    requires depth >= 1 && k < |Calls(t, depth)|
    ensures |Trace(t, depth)| == 7 * |Calls(t, depth)|
    ensures Trace(t, depth)[7 * k .. 7 * k + 7] == TriangleCommands(Calls(t, depth)[k].tri)
  {
    CommandsAt(Calls(t, depth), k);
  }

  // ---------------------------------------------------------------------
  // Drawing order and call depths

  /**
   * Pre-order: the call draws its own triangle first, then the whole drawing
   * of its top child, then of its left child, then of its right child, each
   * made with the decremented depth and taking `size` = (3^(N-1) - 1) / 2
   * triangles.
   */
  lemma PreOrder(t: Triangle, depth: nat, size: nat)
    requires depth >= 2 && 2 * size + 1 == Pow3(depth - 1)
    ensures var cs, children := Calls(t, depth), Subdivide(t);
      && |cs| == 1 + 3 * size
      && cs[0] == Call(t, depth)
      && cs[1 .. 1 + size] == Calls(children[0], depth - 1)
      && cs[1 + size .. 1 + 2 * size] == Calls(children[1], depth - 1)
      && cs[1 + 2 * size ..] == Calls(children[2], depth - 1)
  {
    var children, rest := Subdivide(t), depth - 1;
    CallCount(children[0], rest);
    CallCount(children[1], rest);
    CallCount(children[2], rest);
    CallsUnfold(t, depth, rest);
    ThreeBlocks(Call(t, depth), Calls(children[0], rest), Calls(children[1], rest), Calls(children[2], rest));
  }

  lemma ThreeBlocks<T>(x: T, a: seq<T>, b: seq<T>, c: seq<T>)
    requires |a| == |b| == |c|
    ensures var s, n := [x] + a + b + c, |a|;
      && |s| == 1 + 3 * n
      && s[0] == x
      && s[1 .. 1 + n] == a && s[1 + n .. 1 + 2 * n] == b && s[1 + 2 * n ..] == c
  {
    var s, n := [x] + a + b + c, |a|;
    assert s[1 .. 1 + n] == a;
    assert s[1 + n .. 1 + 2 * n] == b;
    assert s[1 + 2 * n ..] == c;
  }

  /**
   * Every invocation receives a depth between 1 and the initial depth, and
   * every invocation after the first a strictly smaller one than the first.
   */
  lemma {:induction false} CallDepths(t: Triangle, depth: nat)
    requires depth >= 1
    ensures forall c <- Calls(t, depth) :: 1 <= c.depth <= depth
    ensures forall c <- Calls(t, depth)[1..] :: c.depth < depth
    decreases depth
  {
    if depth == 1 {
      assert Calls(t, depth) == [Call(t, depth)];
    } else {
      var rest := depth - 1;
      forall u: Triangle
        ensures forall c <- Calls(u, rest) :: 1 <= c.depth <= rest
      {
        CallDepths(u, rest);
      }
      CallDepthsStep(t, depth, rest);
    }
  }

  lemma CallDepthsStep(t: Triangle, depth: nat, rest: nat)
    requires rest >= 1 && depth == rest + 1
    requires forall u: Triangle :: forall c <- Calls(u, rest) :: 1 <= c.depth <= rest
    ensures forall c <- Calls(t, depth) :: 1 <= c.depth <= depth
    ensures forall c <- Calls(t, depth)[1..] :: c.depth < depth
  {
    var children := Subdivide(t);
    CallsUnfold(t, depth, rest);
    DepthsBelow(Call(t, depth), Calls(children[0], rest), Calls(children[1], rest), Calls(children[2], rest), rest);
  }

  /** Below a root of depth N + 1, subtrees whose depths lie in 1..N. */
  lemma DepthsBelow(x: Call, a: seq<Call>, b: seq<Call>, c: seq<Call>, n: nat)
    requires x.depth == n + 1
    requires forall y <- a :: 1 <= y.depth <= n
    requires forall y <- b :: 1 <= y.depth <= n
    requires forall y <- c :: 1 <= y.depth <= n
    ensures forall y <- [x] + a + b + c :: 1 <= y.depth <= x.depth
    ensures forall y <- ([x] + a + b + c)[1..] :: y.depth < x.depth
  {
    assert ([x] + a + b + c)[1..] == a + b + c;
  }

  /** The number of invocations in `cs` made with depth `d`. */
  function CountAtDepth(cs: seq<Call>, d: nat): (n: nat)
    ensures n <= |cs|
  {
    if cs == [] then 0 else (if cs[0].depth == d then 1 else 0) + CountAtDepth(cs[1..], d)
  }

  lemma {:induction false} CountAtDepthAppend(a: seq<Call>, b: seq<Call>, d: nat)
    ensures CountAtDepth(a + b, d) == CountAtDepth(a, d) + CountAtDepth(b, d)
    decreases a
  {
    if a == [] {
      assert a + b == b;
    } else {
      assert (a + b)[0] == a[0];
      assert (a + b)[1..] == a[1..] + b;
      CountAtDepthAppend(a[1..], b, d);
    }
  }

  /**
   * The call tree is complete and ternary with height N: for each depth d
   * from N down to 1 there are 3^(N-d) invocations, and none at any other
   * depth. In particular the recursion stops after N levels, with 3^(N-1)
   * invocations of depth 1 that do not recurse.
   */
  lemma {:induction false} LevelCount(t: Triangle, depth: nat, d: nat)
    requires depth >= 1
    ensures CountAtDepth(Calls(t, depth), d) == if 1 <= d <= depth then Pow3(depth - d) else 0
    decreases depth
  {
    if depth == 1 {
      var cs := Calls(t, depth);
      assert cs == [Call(t, depth)];
      assert CountAtDepth(cs, d) == (if d == 1 then 1 else 0) + CountAtDepth([], d);
    } else {
      var rest := depth - 1;
      forall u: Triangle
        ensures CountAtDepth(Calls(u, rest), d) == if 1 <= d <= rest then Pow3(rest - d) else 0
      {
        LevelCount(u, rest, d);
      }
      LevelCountStep(t, depth, rest, d);
    }
  }

  lemma LevelCountStep(t: Triangle, depth: nat, rest: nat, d: nat)
    requires rest >= 1 && depth == rest + 1
    requires forall u: Triangle ::
      CountAtDepth(Calls(u, rest), d) == if 1 <= d <= rest then Pow3(rest - d) else 0
    ensures CountAtDepth(Calls(t, depth), d) == if 1 <= d <= depth then Pow3(depth - d) else 0
  {
    var children := Subdivide(t);
    CallsUnfold(t, depth, rest);
    OneLevel(Call(t, depth), Calls(children[0], rest), Calls(children[1], rest), Calls(children[2], rest), rest, d);
  }

  /** One level of the ternary tree: a root of depth N + 1 above three subtrees of height N. */
  lemma OneLevel(x: Call, a: seq<Call>, b: seq<Call>, c: seq<Call>, n: nat, d: nat)
    requires x.depth == n + 1
    requires var below := if 1 <= d <= n then Pow3(n - d) else 0;
      CountAtDepth(a, d) == below && CountAtDepth(b, d) == below && CountAtDepth(c, d) == below
    ensures CountAtDepth([x] + a + b + c, d) == if 1 <= d <= x.depth then Pow3(x.depth - d) else 0
  {
    CountAtDepthAppend([x] + a + b, c, d);
    CountAtDepthAppend([x] + a, b, d);
    CountAtDepthAppend([x], a, d);
    assert CountAtDepth([x], d) == (if x.depth == d then 1 else 0) + CountAtDepth([], d);
    if 1 <= d <= n {
      assert Pow3(x.depth - d) == 3 * Pow3(n - d);
    }
  }

  // ---------------------------------------------------------------------
  // Vertices

  /** Only the first invocation has the full depth: all the others are deeper in the recursion. */
  lemma OnlyFirstAtDepth(t: Triangle, depth: nat)
    requires depth >= 1
    ensures forall c <- Calls(t, depth) | c.depth == depth :: c == Call(t, depth)
  {
    var cs := Calls(t, depth);
    CallDepths(t, depth);
    assert cs == [cs[0]] + cs[1..];
  }

  /**
   * The invocations one level down are exactly the three children of the
   * subdivision, each drawn once with the decremented depth, so their
   * vertices are only corners of `t` and midpoints of its edges.
   */
  lemma ChildVertices(t: Triangle, depth: nat)
    requires depth >= 2
    ensures forall c <- Calls(t, depth) | c.depth == depth - 1 :: c.tri in Subdivide(t)
    ensures forall ch <- Subdivide(t) :: Call(ch, depth - 1) in Calls(t, depth)
    ensures forall c <- Calls(t, depth) | c.depth == depth - 1 :: Vertices(c.tri) <= SubdivisionPoints(t)
  {
    var children, rest := Subdivide(t), depth - 1;
    CallsUnfold(t, depth, rest);
    OnlyFirstAtDepth(children[0], rest);
    OnlyFirstAtDepth(children[1], rest);
    OnlyFirstAtDepth(children[2], rest);
    ChildrenDrawn(t, depth, rest);
    SubdivideVertices(t);
  }

  lemma ChildrenDrawn(t: Triangle, depth: nat, rest: nat)
    requires rest >= 1 && depth == rest + 1
    ensures forall ch <- Subdivide(t) :: Call(ch, rest) in Calls(t, depth)
  {
    var children := Subdivide(t);
    CallsUnfold(t, depth, rest);
    HeadsIn(Call(t, depth), Calls(children[0], rest), Calls(children[1], rest), Calls(children[2], rest));
  }

  /** The first element of each of three non-empty blocks occurs in their concatenation. */
  lemma HeadsIn<T>(x: T, a: seq<T>, b: seq<T>, c: seq<T>)
    requires a != [] && b != [] && c != []
    ensures a[0] in [x] + a + b + c && b[0] in [x] + a + b + c && c[0] in [x] + a + b + c
  {
    var s := [x] + a + b + c;
    assert s[1] == a[0];
    assert s[1 + |a|] == b[0];
    assert s[1 + |a| + |b|] == c[0];
  }

  /** All three corners of `u` lie inside `t`. */
  ghost predicate CornersIn(u: Triangle, t: Triangle)
  {
    Inside(u.top, t) && Inside(u.left, t) && Inside(u.right, t)
  }

  /** Every vertex of every triangle drawn lies inside the input triangle. */
  lemma {:induction false} DrawnInside(t: Triangle, depth: nat)
    requires depth >= 1
    ensures forall c <- Calls(t, depth) :: CornersIn(c.tri, t)
    decreases depth
  {
    CornersInside(t);
    if depth == 1 {
      assert Calls(t, depth) == [Call(t, depth)];
    } else {
      var rest := depth - 1;
      forall u: Triangle
        ensures forall c <- Calls(u, rest) :: CornersIn(c.tri, u)
      {
        DrawnInside(u, rest);
      }
      DrawnInsideStep(t, depth, rest);
    }
  }

  lemma DrawnInsideStep(t: Triangle, depth: nat, rest: nat)
    requires rest >= 1 && depth == rest + 1
    requires forall u: Triangle :: forall c <- Calls(u, rest) :: CornersIn(c.tri, u)
    ensures forall c <- Calls(t, depth) :: CornersIn(c.tri, t)
  {
    var children := Subdivide(t);
    CornersInside(t);
    SubdivideInside(t);
    CallsUnfold(t, depth, rest);
    forall i, c | 0 <= i < 3 && c in Calls(children[i], rest)
      ensures CornersIn(c.tri, t)
    {
      InsideTransitive(c.tri.top, children[i], t);
      InsideTransitive(c.tri.left, children[i], t);
      InsideTransitive(c.tri.right, children[i], t);
    }
  }

  // ---------------------------------------------------------------------
  // What ends up stroked on the canvas

  /** The sides of `t`, in the order `draw_triangle`'s path strokes them. */
  function TriangleEdges(t: Triangle): seq<Segment>
  {
    [Segment(t.left, t.right), Segment(t.right, t.top), Segment(t.top, t.left)]
  }

  /** The path `draw_triangle` leaves behind: the closed outline, then the empty subpath `close_path` opens. */
  function ClosedPath(t: Triangle): seq<Subpath>
  {
    [Subpath(t.left, [t.right, t.top], true), Subpath(t.left, [], false)]
  }

  /** The first six commands replace whatever path the context held with `ClosedPath(t)` and stroke nothing. */
  lemma TrianglePath(s: Surface, t: Triangle)
    ensures Run(s, TriangleCommands(t)[..6]) == Surface(ClosedPath(t), s.stroked)
  {
    var cs := TriangleCommands(t)[..6];
    var s1 := Step(s, MoveTo(t.top));
    var s2 := Step(s1, BeginPath);
    assert s2 == Surface([], s.stroked);
    var s3 := Step(s2, LineTo(t.left));
    assert s3 == Surface([Subpath(t.left, [], false)], s.stroked);
    var s4 := Step(s3, LineTo(t.right));
    assert s3.path[..0] == [] && [] + [t.right] == [t.right];
    assert s4 == Surface([Subpath(t.left, [t.right], false)], s.stroked);
    var s5 := Step(s4, LineTo(t.top));
    assert s4.path[..0] == [] && [t.right] + [t.top] == [t.right, t.top];
    assert s5 == Surface([Subpath(t.left, [t.right, t.top], false)], s.stroked);
    var s6 := Step(s5, ClosePath);
    assert s6 == Surface(ClosedPath(t), s.stroked);
    assert Run(s, cs) == Run(s1, cs[1..]);
    assert Run(s1, cs[1..]) == Run(s2, cs[2..]);
    assert Run(s2, cs[2..]) == Run(s3, cs[3..]);
    assert Run(s3, cs[3..]) == Run(s4, cs[4..]);
    assert Run(s4, cs[4..]) == Run(s5, cs[5..]);
    assert Run(s5, cs[5..]) == Run(s6, cs[6..]);
  }

  /** Stroking `ClosedPath(t)` draws the three sides: two from the `line_to`s, one from `close_path`. */
  lemma ClosedPathEdges(t: Triangle)
    ensures PathSegments(ClosedPath(t)) == TriangleEdges(t)
  {
    var path := ClosedPath(t);
    assert Chain(t.left, [t.right, t.top]) == [Segment(t.left, t.right)] + Chain(t.right, [t.top]);
    assert Chain(t.right, [t.top]) == [Segment(t.right, t.top)] + Chain(t.top, []);
    assert Outline(path[0]) == TriangleEdges(t);
    assert Outline(path[1]) == [];
    assert PathSegments(path[1..]) == Outline(path[1]) + PathSegments(path[1..][1..]);
    assert path[1..][1..] == [];
    assert PathSegments(path) == Outline(path[0]) + PathSegments(path[1..]);
  }

  /**
   * Whatever path the context held before, the seven commands stroke exactly
   * the three sides of the triangle: `begin_path` discards the earlier path
   * and the leading `move_to`, the first `line_to` starts the subpath at the
   * left corner and `close_path` adds the closing side back to it.
   */
  lemma TriangleStrokes(s: Surface, t: Triangle)
    ensures Run(s, TriangleCommands(t)).stroked == s.stroked + TriangleEdges(t)
    ensures Run(s, TriangleCommands(t)).path == ClosedPath(t)
  {
    var cs := TriangleCommands(t);
    assert cs == cs[..6] + [Stroke];
    RunAppend(s, cs[..6], [Stroke]);
    TrianglePath(s, t);
    ClosedPathEdges(t);
    assert Run(Surface(ClosedPath(t), s.stroked), [Stroke]) == Step(Surface(ClosedPath(t), s.stroked), Stroke);
  }

  /** The leading `move_to` has no effect: dropping it leaves the drawing unchanged. */
  lemma MoveToDiscarded(s: Surface, t: Triangle)
    ensures Run(s, TriangleCommands(t)) == Run(s, TriangleCommands(t)[1..])
  {
    var cs := TriangleCommands(t);
    assert Step(Step(s, cs[0]), cs[1]) == Step(s, cs[1]);
    assert Run(s, cs) == Run(Step(s, cs[0]), cs[1..]);
    assert Run(Step(s, cs[0]), cs[1..]) == Run(Step(Step(s, cs[0]), cs[1]), cs[2..]);
    assert Run(s, cs[1..]) == Run(Step(s, cs[1]), cs[2..]);
  }

  /** The sides of every invocation's triangle, in drawing order. */
  function AllEdges(cs: seq<Call>): (r: seq<Segment>)
    ensures |r| == 3 * |cs|
  {
    if cs == [] then [] else TriangleEdges(cs[0].tri) + AllEdges(cs[1..])
  }

  lemma {:induction false} CommandsStrokes(s: Surface, cs: seq<Call>)
    ensures Run(s, Commands(cs)).stroked == s.stroked + AllEdges(cs)
    decreases cs
  {
    if cs == [] {
      assert s.stroked + [] == s.stroked;
    } else {
      var first, later := TriangleCommands(cs[0].tri), Commands(cs[1..]);
      var mid := Run(s, first);
      RunAppend(s, first, later);
      TriangleStrokes(s, cs[0].tri);
      CommandsStrokes(mid, cs[1..]);
      var edges, others := TriangleEdges(cs[0].tri), AllEdges(cs[1..]);
      assert s.stroked + edges + others == s.stroked + (edges + others);
    }
  }

  /**
   * On any canvas state, the whole drawing strokes the three sides of every
   * triangle drawn, triangle by triangle in pre-order, and nothing else.
   */
  lemma TraceStrokes(s: Surface, t: Triangle, depth: nat)
    requires depth >= 1
    ensures Run(s, Trace(t, depth)).stroked == s.stroked + AllEdges(Calls(t, depth))
    ensures |Run(s, Trace(t, depth)).stroked| == |s.stroked| + 3 * |Calls(t, depth)|
  {
    CommandsStrokes(s, Calls(t, depth));
  }

  // ---------------------------------------------------------------------
  // The entry point's drawing

  /**
   * The entry point's call, depth 2 on the initial triangle, draws four
   * triangles: the initial one, then its top, left and right child.
   */
  lemma InitialDrawing()
    ensures Calls(InitialTriangle, InitialDepth as nat)
      == [Call(InitialTriangle, 2),
          Call(Triangle(Point(300.0, 0.0), Point(150.0, 300.0), Point(450.0, 300.0)), 1),
          Call(Triangle(Point(150.0, 300.0), Point(0.0, 600.0), Point(300.0, 600.0)), 1),
          Call(Triangle(Point(450.0, 300.0), Point(300.0, 600.0), Point(600.0, 600.0)), 1)]
    ensures |Trace(InitialTriangle, InitialDepth as nat)| == 28
  {
  }
}
