/**
 * The 2D drawing context the renderer draws on. It is an external
 * collaborator (the browser's CanvasRenderingContext2d); the model keeps of
 * it only what the renderer can change: the append-only sequence of path
 * commands issued to it.
 *
 * `Run` gives those commands their meaning, following the path rules of the
 * canvas 2D context in the HTML Living Standard (its subsections "Building
 * paths" and "Drawing paths to the canvas"): `beginPath` empties the current path,
 * `moveTo` starts a new subpath, `lineTo` on an empty path only starts a
 * subpath at its point, `closePath` closes the last subpath and starts a new
 * one at its first point, and `stroke` draws every segment of the path.
 * Pixels, styles and line widths are not modelled.
 */
module Canvas {
  import opened Geometry

  datatype Command =
    | MoveTo(to: Point)
    | BeginPath
    | LineTo(to: Point)
    | ClosePath
    | Stroke

  /** A drawing context that records every command issued to it, in order. */
  class Context {
    var trace: seq<Command>

    constructor ()
      ensures trace == []
    {
      trace := [];
    }

    method MoveTo(p: Point)
      modifies this
      ensures trace == old(trace) + [Command.MoveTo(p)]
    {
      trace := trace + [Command.MoveTo(p)];
    }

    method BeginPath()
      modifies this
      ensures trace == old(trace) + [Command.BeginPath]
    {
      trace := trace + [Command.BeginPath];
    }

    method LineTo(p: Point)
      modifies this
      ensures trace == old(trace) + [Command.LineTo(p)]
    {
      trace := trace + [Command.LineTo(p)];
    }

    method ClosePath()
      modifies this
      ensures trace == old(trace) + [Command.ClosePath]
    {
      trace := trace + [Command.ClosePath];
    }

    method Stroke()
      modifies this
      ensures trace == old(trace) + [Command.Stroke]
    {
      trace := trace + [Command.Stroke];
    }
  }

  // ---------------------------------------------------------------------
  // What a sequence of commands draws

  datatype Segment = Segment(from: Point, to: Point)

  /** A subpath: its first point, the points added by `lineTo`, and whether it was closed. */
  datatype Subpath = Subpath(start: Point, rest: seq<Point>, closed: bool)

  /** The part of the context's state the commands act on: the current path and every segment stroked so far. */
  datatype Surface = Surface(path: seq<Subpath>, stroked: seq<Segment>)

  /** The segments joining `p` to the first of `ps` and each point of `ps` to the next. */
  function Chain(p: Point, ps: seq<Point>): (r: seq<Segment>)
    ensures |r| == |ps|
    decreases ps
  {
    if ps == [] then [] else [Segment(p, ps[0])] + Chain(ps[0], ps[1..])
  }

  function Outline(sp: Subpath): seq<Segment>
  {
    Chain(sp.start, sp.rest)
      + if sp.closed && sp.rest != [] then [Segment(sp.rest[|sp.rest| - 1], sp.start)] else []
  }

  function PathSegments(path: seq<Subpath>): seq<Segment>
  {
    if path == [] then [] else Outline(path[0]) + PathSegments(path[1..])
  }

  function Step(s: Surface, c: Command): Surface
  {
    match c
    case MoveTo(p) => s.(path := s.path + [Subpath(p, [], false)])
    case BeginPath => s.(path := [])
    case LineTo(p) =>
      if s.path == [] then s.(path := [Subpath(p, [], false)])
      else
        var last := s.path[|s.path| - 1];
        s.(path := s.path[..|s.path| - 1] + [last.(rest := last.rest + [p])])
    case ClosePath =>
      if s.path == [] then s
      else
        var last := s.path[|s.path| - 1];
        s.(path := s.path[..|s.path| - 1] + [last.(closed := true), Subpath(last.start, [], false)])
    case Stroke => s.(stroked := s.stroked + PathSegments(s.path))
  }

  /** The surface after the commands `cs` are applied, in order, to `s`. */
  function Run(s: Surface, cs: seq<Command>): Surface
    decreases cs
  {
    if cs == [] then s else Run(Step(s, cs[0]), cs[1..])
  }

  /** Running two command sequences one after the other is running their concatenation. */
  lemma {:induction false} RunAppend(s: Surface, a: seq<Command>, b: seq<Command>)
    ensures Run(s, a + b) == Run(Run(s, a), b)
    decreases a
  {
    if a != [] {
      assert (a + b)[0] == a[0];
      assert (a + b)[1..] == a[1..] + b;
      RunAppend(Step(s, a[0]), a[1..], b);
    } else {
      assert a + b == b;
    }
  }
}
