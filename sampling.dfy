/** The sampling loop of `processFrame`: the flow field is read at every
    `move_step`-th row and column, starting at (0, 0), in row-major order, and
    the two displacement components are summed. */
module Sampling {
  import opened FlowTypes
  import opened Arith

  /** The points (y, x), (y, x + step), ... with x-coordinate below `w`:
      the inner loop `for x in range(x0, w, step)` on row `y`. */
  function RowFrom(y: int, x: int, w: int, step: int): (r: seq<(int, int)>)
    requires step >= 1
    ensures forall p :: p in r ==> p.0 == y && x <= p.1 < w
    decreases w - x
  {
    if x >= w then [] else [(y, x)] + RowFrom(y, x + step, w, step)
  }

  /** The rows y, y + step, ... below `h`, each walked from column 0. */
  function GridFrom(y: int, h: int, w: int, step: int): (r: seq<(int, int)>)
    requires step >= 1
    ensures forall p :: p in r ==> y <= p.0 < h && 0 <= p.1 < w
    decreases h - y
  {
    if y >= h then [] else RowFrom(y, 0, w, step) + GridFrom(y + step, h, w, step)
  }

  /** The points the nested loops visit, in the order they visit them. */
  function Grid(h: int, w: int, step: int): (r: seq<(int, int)>)
    requires step >= 1
    ensures forall p :: p in r ==> 0 <= p.0 < h && 0 <= p.1 < w
  {
    GridFrom(0, h, w, step)
  }

  /** Number of values in range(0, a, step), counted one step at a time. */
  function CeilDiv(a: int, step: int): nat
    requires step >= 1
    decreases a
  {
    if a <= 0 then 0 else 1 + CeilDiv(a - step, step)
  }

  /** `p` comes strictly before `q` in row-major order. */
  predicate Before(p: (int, int), q: (int, int)) {
    p.0 < q.0 || (p.0 == q.0 && p.1 < q.1)
  }

  predicate RowMajor(pts: seq<(int, int)>) {
    forall i, j :: 0 <= i < j < |pts| ==> Before(pts[i], pts[j])
  }

  /** Every point of `pts` lies inside the field. */
  predicate InField(field: array2<Vec>, pts: seq<(int, int)>) {
    forall p :: p in pts ==> 0 <= p.0 < field.Length0 && 0 <= p.1 < field.Length1
  }

  /** Sum of the x displacements at `pts`, added in the order of `pts`. */
  function SumDx(field: array2<Vec>, pts: seq<(int, int)>): real
    requires InField(field, pts)
    reads field
    decreases |pts|
  {
    if pts == [] then 0.0
    else
      var p := pts[|pts| - 1];
      SumDx(field, pts[..|pts| - 1]) + field[p.0, p.1].dx
  }

  /** Sum of the y displacements at `pts`, added in the order of `pts`. */
  function SumDy(field: array2<Vec>, pts: seq<(int, int)>): real
    requires InField(field, pts)
    reads field
    decreases |pts|
  {
    if pts == [] then 0.0
    else
      var p := pts[|pts| - 1];
      SumDy(field, pts[..|pts| - 1]) + field[p.0, p.1].dy
  }

  /** CeilDiv is the ceiling of a / step for non-negative a. */
  lemma {:induction false} CeilDivIsCeiling(a: int, step: int)
    requires step >= 1 && a >= 0
    ensures CeilDiv(a, step) == (a + step - 1) / step
    decreases a
  {
    if a == 0 {
      DivModUnique(step - 1, step, 0, step - 1);
    } else if a <= step {
      DivModUnique(a + step - 1, step, 1, a - 1);
    } else {
      CeilDivIsCeiling(a - step, step);
      var q, r := (a - 1) / step, (a - 1) % step;
      DivModUnique(a + step - 1, step, q + 1, r);
    }
  }

  /** Every value counted is less than one step: a <= step * CeilDiv(a, step). */
  lemma {:induction false} CeilDivCovers(a: int, step: int)
    requires step >= 1 && a >= 0
    ensures a <= step * CeilDiv(a, step)
    decreases a
  {
    if a > step {
      CeilDivCovers(a - step, step);
    }
  }

  /** For a multiple of `step`, CeilDiv is the exact quotient. */
  lemma {:induction false} CeilDivExact(q: int, step: int)
    requires step >= 1 && q >= 0
    ensures CeilDiv(q * step, step) == q
    decreases q
  {
    if q > 0 {
      assert q * step - step == (q - 1) * step;
      CeilDivExact(q - 1, step);
    }
  }

  // ---------------------------------------------------------------------------
  // The visited points

  lemma {:induction false} RowFromMembers(y: int, x: int, w: int, step: int, a: int, b: int)
    requires step >= 1
    ensures (a, b) in RowFrom(y, x, w, step) <==> a == y && x <= b < w && (b - x) % step == 0
    decreases w - x
  {
    if x < w {
      var rest := RowFrom(y, x + step, w, step);
      assert RowFrom(y, x, w, step) == [(y, x)] + rest;
      assert (a, b) in [(y, x)] + rest <==> (a, b) == (y, x) || (a, b) in rest;
      RowFromMembers(y, x + step, w, step, a, b);
      assert b - (x + step) == (b - x) - step;
      StepResidue(b - x, step);
    }
  }

  /** A non-negative multiple of `step` is 0 or `step` more than another one. */
  lemma StepResidue(d: int, step: int)
    requires step >= 1
    ensures d >= 0 && d % step == 0 <==> d == 0 || (d >= step && (d - step) % step == 0)
  {
    ModShift(d, step);
    DivModUnique(0, step, 0, 0);
    if 0 < d < step {
      DivModUnique(d, step, 0, d);
    }
  }

  lemma {:induction false} GridFromMembers(y: int, h: int, w: int, step: int, a: int, b: int)
    requires step >= 1
    ensures (a, b) in GridFrom(y, h, w, step) <==>
      y <= a < h && (a - y) % step == 0 && 0 <= b < w && b % step == 0
    decreases h - y
  {
    if y < h {
      var row, rest := RowFrom(y, 0, w, step), GridFrom(y + step, h, w, step);
      assert GridFrom(y, h, w, step) == row + rest;
      RowFromMembers(y, 0, w, step, a, b);
      assert b - 0 == b;
      GridFromMembers(y + step, h, w, step, a, b);
      assert a - (y + step) == (a - y) - step;
      StepResidue(a - y, step);
      DivModUnique(0, step, 0, 0);
    }
  }

  /** The loops visit exactly the points whose coordinates are both multiples
      of the step and lie inside the field. */
  lemma GridMembers(h: int, w: int, step: int, y: int, x: int)
    requires step >= 1
    ensures (y, x) in Grid(h, w, step) <==>
      0 <= y < h && 0 <= x < w && y % step == 0 && x % step == 0
  {
    GridFromMembers(0, h, w, step, y, x);
  }

  lemma {:induction false} RowFromSize(y: int, x: int, w: int, step: int)
    requires step >= 1
    ensures |RowFrom(y, x, w, step)| == CeilDiv(w - x, step)
    decreases w - x
  {
    if x < w {
      RowFromSize(y, x + step, w, step);
    }
  }

  lemma {:induction false} GridFromSize(y: int, h: int, w: int, step: int)
    requires step >= 1
    ensures |GridFrom(y, h, w, step)| == CeilDiv(h - y, step) * CeilDiv(w, step)
    decreases h - y
  {
    if y < h {
      RowFromSize(y, 0, w, step);
      GridFromSize(y + step, h, w, step);
      var c := CeilDiv(h - y - step, step);
      assert (1 + c) * CeilDiv(w, step) == CeilDiv(w, step) + c * CeilDiv(w, step);
    }
  }

  /** The loops visit ceil(h / step) * ceil(w / step) points. */
  lemma GridSize(h: int, w: int, step: int)
    requires step >= 1 && h >= 0 && w >= 0
    ensures |Grid(h, w, step)| == CeilDiv(h, step) * CeilDiv(w, step)
    ensures |Grid(h, w, step)| == ((h + step - 1) / step) * ((w + step - 1) / step)
  {
    GridFromSize(0, h, w, step);
    CeilDivIsCeiling(h, step);
    CeilDivIsCeiling(w, step);
  }

  /** Concatenating two row-major runs, the first wholly before the second,
      gives a row-major run. */
  lemma RowMajorAppend(a: seq<(int, int)>, b: seq<(int, int)>)
    requires RowMajor(a) && RowMajor(b)
    requires forall p, q :: p in a && q in b ==> Before(p, q)
    ensures RowMajor(a + b)
  {
    var c := a + b;
    forall i, j | 0 <= i < j < |c|
      ensures Before(c[i], c[j])
    {
      if j < |a| {
        assert c[i] == a[i] && c[j] == a[j];
      } else if i >= |a| {
        assert c[i] == b[i - |a|] && c[j] == b[j - |a|];
      } else {
        assert c[i] == a[i] && c[j] == b[j - |a|];
      }
    }
  }

  lemma {:induction false} RowFromRowMajor(y: int, x: int, w: int, step: int)
    requires step >= 1
    ensures RowMajor(RowFrom(y, x, w, step))
    decreases w - x
  {
    if x < w {
      RowFromRowMajor(y, x + step, w, step);
      RowMajorAppend([(y, x)], RowFrom(y, x + step, w, step));
    }
  }

  lemma {:induction false} GridFromRowMajor(y: int, h: int, w: int, step: int)
    requires step >= 1
    ensures RowMajor(GridFrom(y, h, w, step))
    decreases h - y
  {
    if y < h {
      RowFromRowMajor(y, 0, w, step);
      GridFromRowMajor(y + step, h, w, step);
      RowMajorAppend(RowFrom(y, 0, w, step), GridFrom(y + step, h, w, step));
    }
  }

  /** The points are visited in strictly increasing row-major order, so none
      is visited twice. */
  lemma GridRowMajor(h: int, w: int, step: int)
    requires step >= 1
    ensures RowMajor(Grid(h, w, step))
  {
    GridFromRowMajor(0, h, w, step);
  }

  // ---------------------------------------------------------------------------
  // The sums

  /** Over a field that holds the same vector everywhere, the sums are the
      number of points times that vector. */
  lemma {:induction false} SumOfConstantField(field: array2<Vec>, pts: seq<(int, int)>, c: Vec)
    requires InField(field, pts)
    requires forall i, j :: 0 <= i < field.Length0 && 0 <= j < field.Length1 ==> field[i, j] == c
    ensures SumDx(field, pts) == |pts| as real * c.dx
    ensures SumDy(field, pts) == |pts| as real * c.dy
    decreases |pts|
  {
    if pts != [] {
      SumOfConstantField(field, pts[..|pts| - 1], c);
    }
  }

  lemma SumAppend(field: array2<Vec>, pts: seq<(int, int)>, p: (int, int))
    requires InField(field, pts + [p])
    ensures InField(field, pts)
    ensures SumDx(field, pts + [p]) == SumDx(field, pts) + field[p.0, p.1].dx
    ensures SumDy(field, pts + [p]) == SumDy(field, pts) + field[p.0, p.1].dy
  {
    assert (pts + [p])[..|pts|] == pts;
  }

  /** Summing a concatenation sums the two parts. */
  lemma {:induction false} SumConcat(field: array2<Vec>, a: seq<(int, int)>, b: seq<(int, int)>)
    requires InField(field, a + b)
    ensures InField(field, a) && InField(field, b)
    ensures SumDx(field, a + b) == SumDx(field, a) + SumDx(field, b)
    ensures SumDy(field, a + b) == SumDy(field, a) + SumDy(field, b)
    decreases |b|
  {
    if b == [] {
      assert a + b == a;
    } else {
      var b', p := b[..|b| - 1], b[|b| - 1];
      assert b == b' + [p];
      assert a + b == (a + b') + [p];
      SumAppend(field, a + b', p);
      SumConcat(field, a, b');
      SumAppend(field, b', p);
    }
  }

  /** The inner loop of `processFrame` on row `y`: adds the x and y
      displacements at (y, 0), (y, step), ... to the running sums. */
  method SumRow(field: array2<Vec>, y: int, step: int, xsum0: real, ysum0: real)
    returns (xsum: real, ysum: real)
    requires step >= 1 && 0 <= y < field.Length0
    ensures InField(field, RowFrom(y, 0, field.Length1, step))
    ensures xsum == xsum0 + SumDx(field, RowFrom(y, 0, field.Length1, step))
    ensures ysum == ysum0 + SumDy(field, RowFrom(y, 0, field.Length1, step))
  {
    var w := field.Length1;
    xsum, ysum := xsum0, ysum0;
    ghost var done: seq<(int, int)> := [];
    var x := 0;
    while x < w
      invariant 0 <= x
      invariant done + RowFrom(y, x, w, step) == RowFrom(y, 0, w, step)
      invariant InField(field, done)
      invariant xsum == xsum0 + SumDx(field, done) && ysum == ysum0 + SumDy(field, done)
      decreases w - x
    {
      var v := field[y, x];
      xsum := xsum + v.dx;
      ysum := ysum + v.dy;
      assert done + RowFrom(y, x, w, step) == (done + [(y, x)]) + RowFrom(y, x + step, w, step);
      SumAppend(field, done, (y, x));
      done := done + [(y, x)];
      x := x + step;
    }
    assert done + [] == done;
  }

  /** One pass of the outer loop moves row `y` from the remaining points to
      the visited ones. */
  lemma GridFromStep(visited: seq<(int, int)>, y: int, h: int, w: int, step: int)
    requires step >= 1 && y < h
    ensures visited + GridFrom(y, h, w, step)
         == (visited + RowFrom(y, 0, w, step)) + GridFrom(y + step, h, w, step)
  {
    assert GridFrom(y, h, w, step) == RowFrom(y, 0, w, step) + GridFrom(y + step, h, w, step);
  }

  /** The nested stride loops of `processFrame`: the sums of the two
      displacement components over the visited points. */
  method SumFlow(field: array2<Vec>, step: int) returns (xsum: real, ysum: real)
    requires step >= 1
    ensures xsum == SumDx(field, Grid(field.Length0, field.Length1, step))
    ensures ysum == SumDy(field, Grid(field.Length0, field.Length1, step))
  {
    var h, w := field.Length0, field.Length1;
    xsum, ysum := 0.0, 0.0;
    ghost var visited: seq<(int, int)> := [];
    var y := 0;
    while y < h
      invariant 0 <= y
      invariant visited + GridFrom(y, h, w, step) == Grid(h, w, step)
      invariant InField(field, visited)
      invariant xsum == SumDx(field, visited) && ysum == SumDy(field, visited)
      decreases h - y
    {
      GridFromStep(visited, y, h, w, step);
      xsum, ysum := SumRow(field, y, step, xsum, ysum);
      var row := RowFrom(y, 0, w, step);
      assert InField(field, visited + row);
      SumConcat(field, visited, row);
      visited := visited + row;
      y := y + step;
    }
    assert visited + [] == visited;
  }
}
