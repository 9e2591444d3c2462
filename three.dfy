/** The pure helpers of the scene-graph module: angle conversion and the
    first-child descent `getNested`. A scene-graph object is reduced to the one
    thing `getNested` looks at, its ordered `children`. */
module Three {

  /** The shortest decimal of `Math.PI`, as an exact real. */
  const Pi: real := 3.141592653589793

  /** `radToDeg(rad) = rad * 180 / PI`: a half turn of Pi radians is 180 degrees. */
  function RadToDeg(rad: real): (deg: real)
    ensures deg * Pi == rad * 180.0
  {
    (rad * 180.0) / Pi
  }

  /** `degreeToRadian(deg) = deg * PI / 180`. */
  function DegreeToRadian(deg: real): (rad: real)
    ensures rad * 180.0 == deg * Pi
  {
    (deg * Pi) / 180.0
  }

  /** The two conversions undo each other, in both orders. */
  lemma AngleRoundTrips(r: real, d: real)
    ensures DegreeToRadian(RadToDeg(r)) == r
    ensures RadToDeg(DegreeToRadian(d)) == d
  {
  }

  /** The fixed points of the conversions: a half turn and zero. */
  lemma AngleValues()
    ensures DegreeToRadian(180.0) == Pi
    ensures RadToDeg(Pi) == 180.0
    ensures DegreeToRadian(0.0) == 0.0 && RadToDeg(0.0) == 0.0
  {
  }

  /** A scene-graph object, seen through its ordered list of children. */
  datatype Node = Node(children: seq<Node>)

  /** What the JavaScript variable `child` of `getNested` can hold: a node, the
      value `undefined` (read as `children[0]` of an object without children),
      or the TypeError thrown when `.children` is read from `undefined`. */
  datatype Outcome = Found(node: Node) | Undefined | TypeError

  /** One iteration of the loop body `child = child.children[0]`. */
  function StepChild(c: Outcome): Outcome
  {
    match c
    case Found(n) => if |n.children| > 0 then Found(n.children[0]) else Undefined
    case Undefined => TypeError
    case TypeError => TypeError
  }

  /** `k` iterations of the loop body, starting from `c`. */
  function Descend(c: Outcome, k: nat): Outcome
    decreases k
  {
    if k == 0 then c else Descend(StepChild(c), k - 1)
  }

  /** The number of iterations of `for (let i = 0; i <= levels; i++)`. */
  function Iterations(levels: int): nat
  {
    if levels < 0 then 0 else levels + 1
  }

  /** The outcome of `getNested(obj, levels)`. */
  function Nested(obj: Node, levels: int): Outcome
  {
    Descend(Found(obj), Iterations(levels))
  }

  /** Every node on the first-child chain of `obj`, from depth 0 to depth
      `depth`, has at least one child (trivially true for a negative depth). */
  ghost predicate HasChain(obj: Node, depth: int)
    decreases if depth < 0 then 0 else depth + 1
  {
    depth < 0 || (|obj.children| > 0 && HasChain(obj.children[0], depth - 1))
  }

  /** `getNested(obj, levels)`: the loop of the source, on the outcome type.
      The throw of a TypeError ends the loop at once. */
  method GetNested(obj: Node, levels: int) returns (child: Outcome)
    ensures child == Nested(obj, levels)
  {
    child := Found(obj);
    var i := 0;
    while i <= levels
      invariant 0 <= i <= Iterations(levels)
      invariant Descend(child, Iterations(levels) - i) == Nested(obj, levels)
      decreases levels - i
    {
      if child.Undefined? {
        // `undefined.children` throws; later iterations keep the error
        DescendFromError(Iterations(levels) - i - 1);
        return TypeError;
      }
      child := StepChild(child);
      i := i + 1;
    }
  }

  /** Once an error is thrown, further steps keep it. */
  lemma {:induction false} DescendFromError(k: nat)
    ensures Descend(TypeError, k) == TypeError
  {
    if k > 0 {
      DescendFromError(k - 1);
    }
  }

  /** Descending `i` then `j` steps is descending `i + j` steps. */
  lemma {:induction false} DescendAdd(c: Outcome, i: nat, j: nat)
    ensures Descend(Descend(c, i), j) == Descend(c, i + j)
    decreases i
  {
    if i > 0 {
      DescendAdd(StepChild(c), i - 1, j);
    }
  }

  /** A negative `levels` runs the loop body zero times: `obj` itself. */
  lemma NestedNegative(obj: Node, levels: int)
    requires levels < 0
    ensures Nested(obj, levels) == Found(obj)
  {
  }

  /** `getNested(obj, 0)` is the first child of `obj`, and `undefined` for an
      object without children. */
  lemma NestedZero(obj: Node)
    ensures |obj.children| > 0 ==> Nested(obj, 0) == Found(obj.children[0])
    ensures |obj.children| == 0 ==> Nested(obj, 0) == Undefined
  {
    assert Nested(obj, 0) == Descend(StepChild(Found(obj)), 0);
  }

  /** `getNested(obj, levels)` returns a node exactly when the whole chain down
      to depth `levels` has children; it throws exactly when some node above
      depth `levels` has none; and `undefined` is left for the case where only
      the node at depth `levels` has no children. */
  lemma {:induction false} NestedOutcome(obj: Node, levels: int)
    ensures Nested(obj, levels).Found? <==> HasChain(obj, levels)
    ensures Nested(obj, levels).TypeError? <==> !HasChain(obj, levels - 1)
    decreases if levels < 0 then 0 else levels + 1
  {
    if levels >= 0 {
      if |obj.children| == 0 {
        if levels == 0 {
          assert Nested(obj, levels) == Descend(Undefined, 0);
        } else {
          assert Nested(obj, levels) == Descend(Undefined, levels);
          assert Descend(Undefined, levels) == Descend(TypeError, levels - 1);
          DescendFromError(levels - 1);
        }
      } else {
        NestedOutcome(obj.children[0], levels - 1);
        assert Nested(obj, levels) == Nested(obj.children[0], levels - 1);
      }
    }
  }

  /** With a complete chain, the node found is the one reached by taking the
      first child `levels + 1` times. */
  lemma {:induction false} NestedFirstChildren(obj: Node, levels: int)
    requires levels >= 0 && HasChain(obj, levels)
    ensures Nested(obj, levels).Found?
    ensures Nested(obj, levels) == Nested(obj.children[0], levels - 1)
  {
    NestedOutcome(obj, levels);
  }

  /** Nesting composes: `getNested(getNested(obj, a), b)` is
      `getNested(obj, a + b + 1)` whenever the inner call finds a node. */
  lemma NestedCompose(obj: Node, a: int, b: int)
    requires a >= 0 && b >= 0
    requires Nested(obj, a).Found?
    ensures Nested(Nested(obj, a).node, b) == Nested(obj, a + b + 1)
  {
    DescendAdd(Found(obj), a + 1, b + 1);
  }
}
