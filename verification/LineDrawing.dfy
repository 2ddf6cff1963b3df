/**
 Lines on the client framebuffer of a window. The loop steps along both axes by an error
 term in machine integers; the points it plots are given here in closed form, and shown
 to be the nearest ones to the ideal line.
 */
module LineDrawing {
  import opened Numeric

  newtype Int = x: int | -0x8000_0000 <= x < 0x8000_0000

  datatype Point = Point(x: int, y: int)

  // ----- the ideal line -----

  function Abs(v: int): nat {
    if v < 0 then -v else v
  }

  function Towards(from: int, d: int, k: int): int {
    if d < 0 then from - k else from + k
  }

  /** Steps along the shorter axis after `k` steps along the longer one. */
  function Offset(k: nat, minor: nat, major: nat): nat
    requires major > 0
  {
    (k * minor + (major - 1) / 2) / major
  }

  function Length(a: Point, b: Point): nat {
    if Abs(b.x - a.x) > Abs(b.y - a.y) then Abs(b.x - a.x) else Abs(b.y - a.y)
  }

  /** Point number `k` of the line from `a` to `b` */
  function LinePoint(a: Point, b: Point, k: nat): Point {
    var dx, dy := b.x - a.x, b.y - a.y;
    if Abs(dx) > Abs(dy) then Point(Towards(a.x, dx, k), Towards(a.y, dy, Offset(k, Abs(dy), Abs(dx))))
    else if dy == 0 then a
    else Point(Towards(a.x, dx, Offset(k, Abs(dx), Abs(dy))), Towards(a.y, dy, k))
  }

  /** The offset is the nearest whole number to the ideal one, and of two nearest the lower. */
  lemma OffsetIsNearest(k: nat, minor: nat, major: nat, j: nat)
    requires major > 0
    ensures j == Offset(k, minor, major) <==> 0 <= 2 * (major * j - k * minor) + major < 2 * major
  {
    var n, h := k * minor, (major - 1) / 2;
    var q, r := (n + h) / major, (n + h) % major;
    assert n + h == major * q + r;
    if 0 <= 2 * (major * j - n) + major < 2 * major {
      DivModUnique(n + h, major, j, n + h - major * j);
    }
  }

  lemma OffsetEnds(minor: nat, major: nat)
    requires major > 0
    ensures Offset(0, minor, major) == 0 && Offset(major, minor, major) == minor
  {
    OffsetIsNearest(0, minor, major, 0);
    OffsetIsNearest(major, minor, major, minor);
  }

  /** One step along the longer axis is at most one along the shorter. */
  lemma OffsetSteps(k: nat, minor: nat, major: nat)
    requires major > 0 && minor <= major
    ensures Offset(k, minor, major) <= Offset(k + 1, minor, major) <= Offset(k, minor, major) + 1
  {
    var j, j' := Offset(k, minor, major), Offset(k + 1, minor, major);
    OffsetIsNearest(k, minor, major, j);
    OffsetIsNearest(k + 1, minor, major, j');
    NextProduct(k, minor);
    Spread(major, j, j');
    hide Offset;
    StepsApart(major, j, j', major * j, major * j', k * minor, minor);
  }

  lemma NextProduct(k: int, m: int)
    ensures (k + 1) * m == k * m + m && m * (k + 1) == m * k + m
  {
  }

  lemma Spread(m: nat, j: int, j': int)
    requires m > 0
    ensures j' < j ==> m * j' <= m * j - m
    ensures j' > j + 1 ==> m * j' >= m * j + 2 * m
  {
    assert m * (j' - j) == m * j' - m * j;
    MulStep(m, j' - j);
    MulStep(m, j' - j - 1);
    assert m * (j' - j - 1) == m * (j' - j) - m;
  }

  lemma StepsApart(m: nat, j: int, j': int, mj: int, mj': int, n: int, minor: nat)
    requires minor <= m && 0 <= 2 * (mj - n) + m < 2 * m && 0 <= 2 * (mj' - (n + minor)) + m < 2 * m
    requires j' < j ==> mj' <= mj - m
    requires j' > j + 1 ==> mj' >= mj + 2 * m
    ensures j <= j' <= j + 1
  {
  }

  lemma TowardsEnd(u: int, v: int)
    ensures Towards(u, v - u, 0) == u && Towards(u, v - u, Abs(v - u)) == v
  {
  }

  /** The line starts at `a` and ends at `b`. */
  lemma LineEnds(a: Point, b: Point)
    ensures LinePoint(a, b, 0) == a && LinePoint(a, b, Length(a, b)) == b
  {
    hide Offset, Towards;
    var adx, ady := Abs(b.x - a.x), Abs(b.y - a.y);
    TowardsEnd(a.x, b.x);
    TowardsEnd(a.y, b.y);
    if adx > ady {
      OffsetEnds(ady, adx);
    } else if ady > 0 {
      OffsetEnds(adx, ady);
    }
  }

  /** Its points are all different. */
  lemma PointsDiffer(a: Point, b: Point, k: nat, l: nat)
    requires k <= Length(a, b) && l <= Length(a, b)
    ensures LinePoint(a, b, k) == LinePoint(a, b, l) <==> k == l
  {
  }

  /** Successive points are neighbours. */
  lemma LineConnected(a: Point, b: Point, k: nat)
    requires k < Length(a, b)
    ensures var p, q := LinePoint(a, b, k), LinePoint(a, b, k + 1);
      Abs(q.x - p.x) <= 1 && Abs(q.y - p.y) <= 1 && p != q
  {
    var adx, ady := Abs(b.x - a.x), Abs(b.y - a.y);
    if adx > ady {
      OffsetSteps(k, ady, adx);
    } else {
      OffsetSteps(k, adx, ady);
    }
    hide Offset;
  }

  /** Every point is within half a pixel of the ideal line along the shorter axis: twice the distance,
      times the length of the longer axis, is at most that length. */
  lemma WithinHalfPixel(a: Point, b: Point, k: nat)
    requires k <= Length(a, b)
    ensures var p, dx, dy := LinePoint(a, b, k), b.x - a.x, b.y - a.y;
      if Abs(dx) > Abs(dy) then Abs(p.x - a.x) == k && 2 * Abs(Abs(dx) * Abs(p.y - a.y) - k * Abs(dy)) <= Abs(dx)
      else Abs(p.y - a.y) == k && 2 * Abs(Abs(dy) * Abs(p.x - a.x) - k * Abs(dx)) <= Abs(dy)
  {
    var adx, ady := Abs(b.x - a.x), Abs(b.y - a.y);
    if adx > ady {
      OffsetIsNearest(k, ady, adx, Offset(k, ady, adx));
      OnMajor(a.x, b.x - a.x, k);
      OnMajor(a.y, b.y - a.y, Offset(k, ady, adx));
    } else if ady > 0 {
      OffsetIsNearest(k, adx, ady, Offset(k, adx, ady));
      OnMajor(a.y, b.y - a.y, k);
      OnMajor(a.x, b.x - a.x, Offset(k, adx, ady));
    }
    hide Offset, Towards;
  }

  lemma OnMajor(from: int, d: int, k: nat)
    ensures Abs(Towards(from, d, k) - from) == k
  {
  }

  /** The ideal line passes midway between two points at step `k`. */
  predicate Tie(k: nat, minor: nat, major: nat)
    requires major > 0
  {
    2 * (k * minor % major) == major
  }

  /** Drawn backwards, a line has the same points except where the ideal line passes midway. */
  lemma BackwardsOffset(k: nat, minor: nat, major: nat)
    requires major > 0 && k <= major && minor <= major
    ensures minor - Offset(major - k, minor, major) == Offset(k, minor, major) <==> !Tie(k, minor, major)
  {
    var j, u: int := Offset(k, minor, major), minor - Offset(major - k, minor, major);
    OffsetIsNearest(k, minor, major, j);
    UpperNearest(k, minor, major);
    hide Offset, Tie;
    var t, r := TieParts(k, minor, major);
    HalvesOf(major, t, r, j, u, k * minor);
  }

  lemma TieParts(k: nat, minor: nat, major: nat) returns (t: nat, r: nat)
    requires major > 0
    ensures k * minor == major * t + r && r < major && (2 * r == major <==> Tie(k, minor, major))
  {
    t, r := k * minor / major, k * minor % major;
  }

  lemma UpperNearest(k: nat, minor: nat, major: nat)
    requires major > 0 && k <= major
    ensures var u: int := minor - Offset(major - k, minor, major);
      0 < 2 * (major * u - k * minor) + major <= 2 * major
  {
    var b := Offset(major - k, minor, major);
    OffsetIsNearest(major - k, minor, major, b);
    hide Offset;
    Mirror(k, b, minor, major);
  }

  lemma HalvesOf(m: nat, t: int, r: nat, j: int, u: int, n: int)
    requires m > 0 && n == m * t + r && r < m
    requires 0 <= 2 * (m * j - n) + m < 2 * m && 0 < 2 * (m * u - n) + m <= 2 * m
    ensures u == j <==> 2 * r != m
  {
    Near(m, t, j);
    Near(m, j, u);
    Halves(m, t, r, j, u, m * t, m * j, m * u, n);
  }

  lemma Near(m: nat, j: int, u: int)
    requires m > 0
    ensures u < j ==> m * u <= m * j - m
    ensures u > j ==> m * u >= m * j + m
    ensures u > j + 1 ==> m * u >= m * j + 2 * m
    ensures u == j + 1 ==> m * u == m * j + m
  {
    Spread(m, j, u);
    Spread(m, u, j);
    NextProduct(j, m);
  }

  lemma Mirror(k: int, b: int, minor: int, major: int)
    ensures major * b - (major - k) * minor == k * minor - major * (minor - b)
  {
    assert (major - k) * minor == major * minor - k * minor;
    assert major * (minor - b) == major * minor - major * b;
  }

  /** The nearest number rounding halves down, and rounding halves up, around `n == m * t + r` */
  lemma Halves(m: nat, t: int, r: nat, j: int, u: int, mt: int, mj: int, mu: int, n: int)
    requires m > 0 && n == mt + r && r < m
    requires 0 <= 2 * (mj - n) + m < 2 * m && 0 < 2 * (mu - n) + m <= 2 * m
    requires (j < t ==> mj <= mt - m) && (j > t + 1 ==> mj >= mt + 2 * m)
    requires (j == t ==> mj == mt) && (j == t + 1 ==> mj == mt + m)
    requires (u < j ==> mu <= mj - m) && (u > j ==> mu >= mj + m) && (u == j ==> mu == mj)
    ensures u == j <==> 2 * r != m
  {
  }

  /** So the two ways of drawing a line meet in a point exactly where there is no such tie. */
  lemma LineBackwards(a: Point, b: Point, k: nat)
    requires a != b && k <= Length(a, b)
    ensures var adx, ady := Abs(b.x - a.x), Abs(b.y - a.y);
      LinePoint(b, a, Length(a, b) - k) == LinePoint(a, b, k)
      <==> !Tie(k, if adx > ady then ady else adx, Length(a, b))
  {
    var adx, ady, n := Abs(b.x - a.x), Abs(b.y - a.y), Length(a, b);
    hide Offset, Tie, Towards;
    if adx > ady {
      BackwardsOffset(k, ady, adx);
      FromBothEnds(a.x, b.x, k, n - k);
      FromBothEnds(a.y, b.y, Offset(k, ady, adx), Offset(n - k, ady, adx));
      OffsetWithin(k, ady, adx);
      OffsetWithin(n - k, ady, adx);
    } else {
      BackwardsOffset(k, adx, ady);
      FromBothEnds(a.y, b.y, k, n - k);
      FromBothEnds(a.x, b.x, Offset(k, adx, ady), Offset(n - k, adx, ady));
      OffsetWithin(k, adx, ady);
      OffsetWithin(n - k, adx, ady);
    }
  }

  lemma FromBothEnds(u: int, v: int, i: int, j: int)
    ensures Towards(v, u - v, j) == Towards(u, v - u, i) <==> if u == v then i == j else Abs(v - u) - j == i
  {
  }

  // ----- the framebuffer -----

  predicate Inside(w: int, h: int, p: Point) {
    0 <= p.x < w && 0 <= p.y < h
  }

  function Cell(w: nat, p: Point): int {
    p.y * w + p.x
  }

  lemma CellFits(w: nat, h: nat, p: Point)
    requires Inside(w, h, p)
    ensures 0 <= Cell(w, p) < w * h
  {
    assert p.y * w + w <= h * w by {
      MulMono(p.y + 1, h, w);
    }
  }

  lemma MulMono(a: nat, b: nat, w: nat)
    requires a <= b
    ensures a * w <= b * w
  {
  }

  lemma CellInjective(w: nat, h: nat, p: Point, q: Point)
    requires Inside(w, h, p) && Inside(w, h, q) && Cell(w, p) == Cell(w, q)
    ensures p == q
  {
    DivModUnique(Cell(w, p), w, p.y, p.x);
    DivModUnique(Cell(w, p), w, q.y, q.x);
  }

  function Plot(fb: seq<U32>, w: nat, h: nat, p: Point, rgba: U32): (r: seq<U32>)
    requires |fb| == w * h
    ensures |r| == |fb|
  {
    if Inside(w, h, p) then
      CellFits(w, h, p);
      fb[Cell(w, p) := rgba]
    else fb
  }

  /** The first `n` points of a line, plotted one after the other */
  function Drawn(fb: seq<U32>, w: nat, h: nat, a: Point, b: Point, n: nat, rgba: U32): (r: seq<U32>)
    requires |fb| == w * h
    ensures |r| == |fb|
  {
    if n == 0 then fb else Plot(Drawn(fb, w, h, a, b, n - 1, rgba), w, h, LinePoint(a, b, n - 1), rgba)
  }

  /** A pixel has the colour of the line if one of the points lies on it, and is untouched otherwise. */
  lemma {:induction false} DrawnPixel(fb: seq<U32>, w: nat, h: nat, a: Point, b: Point, n: nat, rgba: U32, p: Point)
    requires |fb| == w * h && 0 <= p.x < w && 0 <= p.y < h
    ensures 0 <= p.y * w + p.x < |fb|
    ensures Drawn(fb, w, h, a, b, n, rgba)[p.y * w + p.x]
            == if exists k :: 0 <= k < n && LinePoint(a, b, k) == p then rgba else fb[p.y * w + p.x]
  {
    CellFits(w, h, p);
    if n > 0 {
      DrawnPixel(fb, w, h, a, b, n - 1, rgba, p);
      var last := LinePoint(a, b, n - 1);
      if Inside(w, h, last) {
        CellFits(w, h, last);
        if Cell(w, last) == Cell(w, p) {
          CellInjective(w, h, last, p);
        }
      }
      hide LinePoint, Inside, Cell;
    }
  }

  // ----- the error term -----

  /** After `k` steps along the longer axis and `j` along the shorter, the error says how far
      off the ideal line is. */
  predicate Balanced(err: int, k: nat, j: nat, minor: nat, major: nat) {
    err == major / 2 - k * minor + major * j && 0 <= err < major
  }

  lemma BalancedIsOffset(err: int, k: nat, j: nat, minor: nat, major: nat)
    requires major > 0 && Balanced(err, k, j, minor, major)
    ensures j == Offset(k, minor, major)
  {
    OffsetIsNearest(k, minor, major, j);
  }

  lemma BalancedStep(err: int, k: nat, j: nat, minor: nat, major: nat)
    requires Balanced(err, k, j, minor, major) && minor <= major
    ensures err >= minor ==> Balanced(err - minor, k + 1, j, minor, major)
    ensures err < minor ==> Balanced(err - minor + major, k + 1, j + 1, minor, major)
  {
    assert (k + 1) * minor == k * minor + minor;
    assert major * (j + 1) == major * j + major;
  }

  // ----- when the error term fits -----

  predicate InInt(v: int) {
    -0x8000_0000 <= v < 0x8000_0000
  }

  /** The error term before step `k` */
  function ErrorAt(dx: int, dy: int, k: nat): int {
    var adx, ady := Abs(dx), Abs(dy);
    if adx > ady then adx / 2 - k * ady + adx * Offset(k, ady, adx)
    else if ady == 0 then 0
    else -(ady / 2 - k * adx + ady * Offset(k, adx, ady))
  }

  /** Neither update of the error term in step `k` leaves the machine integers. */
  predicate StepFits(dx: int, dy: int, k: nat) {
    var e, adx: int, ady: int := ErrorAt(dx, dy, k), Abs(dx), Abs(dy);
    var e1 := if e > -adx then e - ady else e;
    InInt(e1) && (e < ady ==> InInt(e1 + adx))
  }

  /** Nothing that is computed on the way leaves them. */
  ghost predicate NoOverflow(dx: int, dy: int) {
    && InInt(dx) && InInt(dy) && InInt(Abs(dx)) && InInt(Abs(dy))
    && forall k :: 0 <= k < Length(Point(0, 0), Point(dx, dy)) ==> StepFits(dx, dy, k)
  }

  /** The largest value below `minor` that the error takes, for a step of the shorter axis */
  function Peak(minor: nat, major: nat): int
    requires minor > 0
  {
    minor - Gcd(minor, major) + major / 2 % Gcd(minor, major)
  }

  /** What a caller can check: along x nothing can happen, along y the sum of the differences counts. */
  predicate Fits(dx: int, dy: int) {
    var adx, ady := Abs(dx), Abs(dy);
    && adx < 0x8000_0000 && ady < 0x8000_0000
    && (0 < adx <= ady ==> Peak(adx, ady) + ady <= 0x8000_0000)
  }

  lemma ErrorBalanced(k: nat, minor: nat, major: nat)
    requires major > 0
    ensures var j := Offset(k, minor, major);
      Balanced(major / 2 - k * minor + major * j, k, j, minor, major)
  {
    var j := Offset(k, minor, major);
    OffsetIsNearest(k, minor, major, j);
    hide Offset;
  }

  lemma Collect(g: int, e: int, k: int, p: int, q: int, j: int)
    ensures g * e - k * (p * g) + (q * g) * j == g * (e - k * p + q * j)
  {
    assert k * (p * g) == g * (k * p);
    assert (q * g) * j == g * (q * j);
    assert g * (e - k * p + q * j) == g * e - g * (k * p) + g * (q * j);
  }

  lemma BelowMultiple(g: nat, t: int, r: nat, p: int)
    requires r < g && g * t + r < g * p
    ensures g * t <= g * p - g
  {
    assert g * (p - t) == g * p - g * t;
    MulStep(g, p - t);
    MulStep(g, p - t - 1);
    assert g * (p - t - 1) == g * (p - t) - g;
  }

  lemma Parts(h: nat, g: nat)
    requires g > 0
    ensures h == g * (h / g) + h % g && h % g < g
  {
  }

  /** The error is congruent to its start modulo the common divisor, so below `minor` it is at most the peak. */
  lemma BelowPeak(f: int, k: nat, j: nat, minor: nat, major: nat)
    requires 0 < minor && Balanced(f, k, j, minor, major) && f < minor
    ensures f <= Peak(minor, major)
  {
    var g, h := Gcd(minor, major), major / 2;
    var p, q := GcdDivides(minor, major);
    Parts(h, g);
    Collect(g, h / g, k, p, q, j);
    BelowMultiple(g, h / g - k * p + q * j, h % g, p);
  }

  lemma PeakRange(minor: nat, major: nat)
    requires 0 < minor
    ensures 0 <= Peak(minor, major) < minor
  {
    var g := Gcd(minor, major);
    var p, q := GcdDivides(minor, major);
    Parts(major / 2, g);
    MulStep(g, p);
    hide Gcd;
  }

  lemma Congruent(g: nat, h: nat, n: nat, r: nat, p: nat)
    requires g > 0 && n == h / g && r == h % g
    ensures h - (p * g - g + r) == g * (n - p + 1)
  {
    Parts(h, g);
    assert g * (n - p + 1) == g * n - p * g + g;
  }

  /** Half of `major` and the peak differ by a multiple of the common divisor. */
  lemma PeakCongruent(minor: nat, major: nat) returns (t: int)
    requires 0 < minor
    ensures major / 2 - Peak(minor, major) == Gcd(minor, major) * t
  {
    hide Gcd;
    var g, h := Gcd(minor, major), major / 2;
    var p, q := GcdDivides(minor, major);
    t := h / g - p + 1;
    Congruent(g, h, h / g, h % g, p);
  }

  /** The peak is reached. */
  lemma PeakReached(minor: nat, major: nat) returns (k: nat)
    requires 0 < minor <= major
    ensures k < major && major / 2 - k * minor + major * Offset(k, minor, major) == Peak(minor, major)
  {
    var t := PeakCongruent(minor, major);
    var u, v := Bezout(minor, major);
    PeakRange(minor, major);
    hide Gcd, Peak, Offset;
    var w;
    k, w := Reduce(u * t, major);
    PeakStep(Gcd(minor, major), t, u, v, w, k, minor, major);
    PeakOffset(k, minor, major, -(w * minor + v * t), Peak(minor, major));
  }

  lemma Reduce(n: int, m: nat) returns (k: nat, w: int)
    requires m > 0
    ensures k < m && n == m * w + k
  {
    k, w := n % m, n / m;
  }

  lemma PeakStep(g: int, t: int, u: int, v: int, w: int, k: int, minor: int, major: int)
    requires u * minor + v * major == g && u * t == major * w + k
    ensures g * t == k * minor - major * -(w * minor + v * t)
  {
    assert (u * minor + v * major) * t == (u * t) * minor + major * (v * t);
    assert (major * w + k) * minor == major * (w * minor) + k * minor;
    assert major * (w * minor + v * t) == major * (w * minor) + major * (v * t);
  }

  lemma PeakOffset(k: nat, minor: nat, major: nat, j: int, peak: int)
    requires major > 0 && 0 <= peak < major && peak == major / 2 - k * minor + major * j
    ensures major / 2 - k * minor + major * Offset(k, minor, major) == peak
  {
    ErrorBalanced(k, minor, major);
    var i := Offset(k, minor, major);
    hide Offset;
    assert major * (i - j) == major * i - major * j;
    MulStep(major, i - j);
  }

  lemma StepFitsAlongX(dx: int, dy: int, k: nat)
    requires Abs(dx) > Abs(dy) && Abs(dx) < 0x8000_0000
    ensures StepFits(dx, dy, k)
  {
    ErrorBalanced(k, Abs(dy), Abs(dx));
    hide Offset;
  }

  lemma StepFitsAlongY(dx: int, dy: int, k: nat)
    requires Abs(dx) <= Abs(dy) && 0 < Abs(dy) < 0x8000_0000
    ensures var f := -ErrorAt(dx, dy, k);
      && 0 <= f < Abs(dy) && (f < Abs(dx) ==> f <= Peak(Abs(dx), Abs(dy)))
      && (StepFits(dx, dy, k) <==> f >= Abs(dx) || f + Abs(dy) <= 0x8000_0000)
  {
    var adx, ady := Abs(dx), Abs(dy);
    var j := Offset(k, adx, ady);
    ErrorBalanced(k, adx, ady);
    var f := ady / 2 - k * adx + ady * j;
    if f < adx {
      BelowPeak(f, k, j, adx, ady);
    }
    hide Offset, Balanced, Peak;
  }

  /** Exactly the differences that fit can be drawn without leaving the machine integers. */
  lemma OverflowExactly(dx: int, dy: int)
    ensures NoOverflow(dx, dy) <==> Fits(dx, dy)
  {
    var adx, ady := Abs(dx), Abs(dy);
    hide StepFits, ErrorAt, Peak;
    if adx < 0x8000_0000 && ady < 0x8000_0000 {
      if adx > ady {
        forall k | 0 <= k < adx
          ensures StepFits(dx, dy, k)
        {
          StepFitsAlongX(dx, dy, k);
        }
      } else if ady > 0 {
        forall k | 0 <= k < ady
          ensures Fits(dx, dy) ==> StepFits(dx, dy, k)
        {
          StepFitsAlongY(dx, dy, k);
        }
        if adx > 0 && NoOverflow(dx, dy) {
          PeakOverflows(dx, dy);
        }
      }
    }
  }

  lemma PeakOverflows(dx: int, dy: int)
    requires 0 < Abs(dx) <= Abs(dy) < 0x8000_0000 && NoOverflow(dx, dy)
    ensures Peak(Abs(dx), Abs(dy)) + Abs(dy) <= 0x8000_0000
  {
    var k := PeakReached(Abs(dx), Abs(dy));
    assert StepFits(dx, dy, k);
    assert ErrorAt(dx, dy, k) == -Peak(Abs(dx), Abs(dy));
    hide Offset, Peak;
  }

  lemma DiagonalStart(d: nat)
    requires 0 < d < 0x8000_0000
    ensures ErrorAt(d, d, 0) == -(d / 2) && Peak(d, d) == d / 2
    ensures StepFits(d, d, 0) <==> d / 2 + d <= 0x8000_0000
  {
    OffsetEnds(d, d);
    SelfDivisor(d);
    hide Offset, Gcd;
    var j := Offset(0, d, d);
    assert 0 * d == 0 && d * j == 0;
    DivModUnique(d / 2, d, 0, d / 2);
    hide Peak;
  }

  /** A line that the loop cannot draw: its first step subtracts 3 * 2^29 from an error of -3 * 2^28. */
  lemma OverflowingLine()
    ensures ErrorAt(0x6000_0000, 0x6000_0000, 0) == -0x3000_0000
    ensures !StepFits(0x6000_0000, 0x6000_0000, 0) && !Fits(0x6000_0000, 0x6000_0000)
  {
    hide ErrorAt, StepFits, Peak;
    DiagonalStart(0x6000_0000);
  }

  lemma SelfDivisor(d: nat)
    requires d > 0
    ensures Gcd(d, d) == d
  {
    assert d % d == 0;
    assert Gcd(d, 0) == d;
  }

  // ----- drawing -----

  class Window {
    var client: array?<U32>
    var width: Int
    var height: Int
    var clientDirty: bool

    constructor (width: Int, height: Int)
      requires width >= 0 && height >= 0
      ensures client != null && fresh(client) && client.Length == width as int * height as int
      ensures this.width == width && this.height == height && !clientDirty
    {
      client := new U32[width as int * height as int](i => 0);
      this.width, this.height, clientDirty := width, height, false;
    }
  }

  /** colorref_to_rgba: red, green and blue stay in place under an opaque alpha. */
  function Rgba(color: U32): U32 {
    color % 0x100 + 0x100 * (color / 0x100 % 0x100) + 0x1_0000 * (color / 0x1_0000 % 0x100) + 0xFF00_0000
  }

  /** Red, green and blue are the low three bytes, and stay what they are; the fourth is opaque. */
  lemma RgbaBytes(red: Byte, green: Byte, blue: Byte, unused: Byte)
    ensures Rgba(red + 0x100 * green + 0x1_0000 * blue + 0x100_0000 * unused)
         == red + 0x100 * green + 0x1_0000 * blue + 0x100_0000 * 255
  {
    var high: int := blue + 0x100 * unused;
    var mid: int := green + 0x100 * high;
    var color: int := red + 0x100 * mid;
    assert color / 0x100 == mid && color % 0x100 == red;
    assert color / 0x1_0000 == mid / 0x100 == high && mid % 0x100 == green;
    assert high % 0x100 == blue;
  }

  /** `v / 2`, towards zero */
  function HalfOf(v: Int): (r: Int)
    ensures r as int == if v >= 0 then v as int / 2 else -(-(v as int) / 2)
  {
    if v >= 0 then v / 2 else if v == -0x8000_0000 then -0x4000_0000 else -(-v / 2)
  }

  lemma RowFits(w: nat, h: nat, p: Point)
    requires Inside(w, h, p) && w * h <= 0x8000_0000
    ensures 0 <= p.y * w <= Cell(w, p) < w * h
  {
    CellFits(w, h, p);
    MulMono(0, p.y, w);
  }

  method PutPixel(fb: array<U32>, w: Int, h: Int, x: Int, y: Int, rgba: U32)
    requires w >= 0 && h >= 0 && fb.Length == w as int * h as int <= 0x8000_0000
    modifies fb
    ensures fb[..] == Plot(old(fb[..]), w as int, h as int, Point(x as int, y as int), rgba)
  {
    if x < 0 || y < 0 || x >= w || y >= h {
      return;
    }
    CellFits(w as int, h as int, Point(x as int, y as int));
    RowFits(w as int, h as int, Point(x as int, y as int));
    fb[(y * w + x) as int] := rgba;
  }

  /** Where the loop stands after `k` steps. */
  ghost predicate Underway(a: Point, b: Point, k: nat, x0: int, y0: int, err: int) {
    var adx, ady := Abs(b.x - a.x), Abs(b.y - a.y);
    && k <= Length(a, b) && Point(x0, y0) == LinePoint(a, b, k)
    && (adx > ady ==> Balanced(err, k, Abs(y0 - a.y), ady, adx) && Abs(x0 - a.x) == k)
    && (adx <= ady && ady > 0 ==> Balanced(-err, k, Abs(x0 - a.x), adx, ady) && Abs(y0 - a.y) == k)
  }

  lemma Started(a: Point, b: Point, err: int)
    requires var adx, ady := Abs(b.x - a.x), Abs(b.y - a.y);
      err == if adx > ady then adx / 2 else -(ady / 2)
    ensures Underway(a, b, 0, a.x, a.y, err)
  {
    LineEnds(a, b);
  }

  /** The loop ends exactly at the end of the line. */
  lemma AtTheEnd(a: Point, b: Point, k: nat, x0: int, y0: int, err: int)
    requires Underway(a, b, k, x0, y0, err)
    ensures Point(x0, y0) == b <==> k == Length(a, b)
  {
    LineEnds(a, b);
    PointsDiffer(a, b, k, Length(a, b));
  }

  lemma BalancedRange(err: int, k: nat, j: nat, minor: nat, major: nat)
    requires Balanced(err, k, j, minor, major)
    ensures 0 <= err < major
  {
  }

  /** What the two tests of the loop do when the line is longer along x ... */
  lemma AdvancesAlongX(a: Point, b: Point, k: nat, x0: int, y0: int, err: int, adx: int, ady: int)
    requires Underway(a, b, k, x0, y0, err) && k < Length(a, b)
    requires adx == Abs(b.x - a.x) && ady == Abs(b.y - a.y) && adx > ady
    ensures err > -adx
    ensures Underway(a, b, k + 1, Towards(x0, b.x - a.x, 1), if err < ady then Towards(y0, b.y - a.y, 1) else y0,
                     err - ady + (if err < ady then adx else 0))
  {
    hide Balanced, Offset;
    var j := Abs(y0 - a.y);
    var j' := if err < ady then j + 1 else j;
    BalancedStep(err, k, j, ady, adx);
    BalancedIsOffset(err - ady + (if err < ady then adx else 0), k + 1, j', ady, adx);
    BalancedIsOffset(err, k, j, ady, adx);
    BalancedRange(err, k, j, ady, adx);
  }

  /** ... and when it is not. */
  lemma AdvancesAlongY(a: Point, b: Point, k: nat, x0: int, y0: int, err: int, adx: int, ady: int)
    requires Underway(a, b, k, x0, y0, err) && k < Length(a, b)
    requires adx == Abs(b.x - a.x) && ady == Abs(b.y - a.y) && adx <= ady
    ensures err < ady
    ensures Underway(a, b, k + 1, if err > -adx then Towards(x0, b.x - a.x, 1) else x0, Towards(y0, b.y - a.y, 1),
                     err + adx - (if err > -adx then ady else 0))
  {
    hide Balanced, Offset;
    var j := Abs(x0 - a.x);
    var j' := if err > -adx then j + 1 else j;
    BalancedStep(-err, k, j, adx, ady);
    BalancedIsOffset(-err - adx + (if err > -adx then ady else 0), k + 1, j', adx, ady);
    BalancedIsOffset(-err, k, j, adx, ady);
    BalancedRange(-err, k, j, adx, ady);
  }

  lemma Advances(a: Point, b: Point, k: nat, x0: int, y0: int, err: int, adx: int, ady: int)
    requires Underway(a, b, k, x0, y0, err) && k < Length(a, b)
    requires adx == Abs(b.x - a.x) && ady == Abs(b.y - a.y)
    ensures Underway(a, b, k + 1, if err > -adx then Towards(x0, b.x - a.x, 1) else x0,
                     if err < ady then Towards(y0, b.y - a.y, 1) else y0,
                     err - (if err > -adx then ady else 0) + (if err < ady then adx else 0))
  {
    if adx > ady {
      AdvancesAlongX(a, b, k, x0, y0, err, adx, ady);
    } else {
      AdvancesAlongY(a, b, k, x0, y0, err, adx, ady);
    }
    hide Underway;
  }

  lemma ErrorBounds(a: Point, b: Point, k: nat, x0: int, y0: int, err: int, adx: int, ady: int)
    requires Underway(a, b, k, x0, y0, err) && adx == Abs(b.x - a.x) && ady == Abs(b.y - a.y) && a != b
    ensures if adx > ady then 0 <= err < adx else -ady < err <= 0
  {
    if adx > ady {
      BalancedRange(err, k, Abs(y0 - a.y), ady, adx);
    } else {
      BalancedRange(-err, k, Abs(x0 - a.x), adx, ady);
    }
    hide Balanced, LinePoint;
  }

  lemma OffsetWithin(k: nat, minor: nat, major: nat)
    requires major > 0 && k <= major
    ensures Offset(k, minor, major) <= minor
  {
    var j := Offset(k, minor, major);
    OffsetIsNearest(k, minor, major, j);
    MulMono(k, major, minor);
    Near(major, minor, j);
  }

  predicate Between(u: int, p: int, v: int) {
    u <= p <= v || v <= p <= u
  }

  /** No point leaves the rectangle that the ends span. */
  lemma PointWithin(a: Point, b: Point, k: nat)
    requires k <= Length(a, b)
    ensures Between(a.x, LinePoint(a, b, k).x, b.x) && Between(a.y, LinePoint(a, b, k).y, b.y)
  {
    var adx, ady := Abs(b.x - a.x), Abs(b.y - a.y);
    if adx > ady {
      OffsetWithin(k, ady, adx);
    } else if ady > 0 {
      OffsetWithin(k, adx, ady);
    }
    hide Offset;
  }

  lemma PointsFit(a: Point, b: Point, k: nat, x0: int, y0: int, err: int)
    requires Underway(a, b, k, x0, y0, err)
    ensures Between(a.x, x0, b.x) && Between(a.y, y0, b.y)
  {
    PointWithin(a, b, k);
    hide LinePoint;
  }

  lemma ErrorIs(a: Point, b: Point, k: nat, x0: int, y0: int, err: int)
    requires Underway(a, b, k, x0, y0, err) && a != b
    ensures err == ErrorAt(b.x - a.x, b.y - a.y, k)
  {
    var adx, ady := Abs(b.x - a.x), Abs(b.y - a.y);
    if adx > ady {
      BalancedIsOffset(err, k, Abs(y0 - a.y), ady, adx);
    } else {
      BalancedIsOffset(-err, k, Abs(x0 - a.x), adx, ady);
    }
    hide Offset, LinePoint;
  }

  /** `err - ady` stays within machine integers. */
  lemma ErrorFits(a: Point, b: Point, k: nat, x0: int, y0: int, err: int)
    requires Underway(a, b, k, x0, y0, err) && k < Length(a, b) && a != b && Fits(b.x - a.x, b.y - a.y)
    ensures var adx: int, ady: int := Abs(b.x - a.x), Abs(b.y - a.y);
      var e1 := if err > -adx then err - ady else err;
      InInt(e1) && (err < ady ==> InInt(e1 + adx))
  {
    ErrorIs(a, b, k, x0, y0, err);
    OverflowExactly(b.x - a.x, b.y - a.y);
    hide Fits, ErrorAt, Underway;
    assert StepFits(b.x - a.x, b.y - a.y, k);
  }

  /** The two tests of the loop */
  method NextPoint(x0: Int, y0: Int, err0: Int, adx: Int, ady: Int, sx: Int, sy: Int,
                   ghost a: Point, ghost b: Point, ghost k: nat)
    returns (x: Int, y: Int, err: Int)
    requires Underway(a, b, k, x0 as int, y0 as int, err0 as int) && k < Length(a, b) && a != b
    requires adx as int == Abs(b.x - a.x) && ady as int == Abs(b.y - a.y) && Fits(b.x - a.x, b.y - a.y)
    requires sx == (if b.x - a.x < 0 then -1 else 1) && sy == (if b.y - a.y < 0 then -1 else 1)
    requires InInt(a.x) && InInt(a.y) && InInt(b.x) && InInt(b.y)
    ensures Underway(a, b, k + 1, x as int, y as int, err as int)
  {
    ghost var x1, y1, e1, e := TurnFits(a, b, k, x0 as int, y0 as int, err0 as int,
                                        adx as int, ady as int, sx as int, sy as int);
    hide *;
    x, y, err := x0, y0, err0;
    var e2 := err;
    if e2 > -adx {
      err := err - ady;
      x := x + sx;
    }
    if e2 < ady {
      err := err + adx;
      y := y + sy;
    }
  }

  /** A turn of the loop, and every value it computes, within machine integers */
  lemma TurnFits(a: Point, b: Point, k: nat, x0: int, y0: int, err: int, adx: int, ady: int, sx: int, sy: int)
    returns (x: int, y: int, e1: int, e: int)
    requires Underway(a, b, k, x0, y0, err) && k < Length(a, b) && a != b && Fits(b.x - a.x, b.y - a.y)
    requires adx == Abs(b.x - a.x) && ady == Abs(b.y - a.y)
    requires sx == (if b.x - a.x < 0 then -1 else 1) && sy == (if b.y - a.y < 0 then -1 else 1)
    requires InInt(a.x) && InInt(a.y) && InInt(b.x) && InInt(b.y)
    ensures if err > -adx then e1 == err - ady && x == x0 + sx else e1 == err && x == x0
    ensures if err < ady then e == e1 + adx && y == y0 + sy else e == e1 && y == y0
    ensures -0x8000_0000 <= e1 < 0x8000_0000 && -0x8000_0000 <= e < 0x8000_0000
    ensures err > -adx ==> -0x8000_0000 <= x < 0x8000_0000
    ensures err < ady ==> -0x8000_0000 <= y < 0x8000_0000
    ensures Underway(a, b, k + 1, x, y, e)
  {
    hide Underway, LinePoint, Length, Fits, Abs;
    Advances(a, b, k, x0, y0, err, adx, ady);
    NextFits(a, b, k, x0, y0, err, adx, ady);
    ErrorFits(a, b, k, x0, y0, err);
    e1, x := if err > -adx then err - ady else err, if err > -adx then x0 + sx else x0;
    e, y := if err < ady then e1 + adx else e1, if err < ady then y0 + sy else y0;
  }

  lemma NextFits(a: Point, b: Point, k: nat, x0: int, y0: int, err: int, adx: int, ady: int)
    requires Underway(a, b, k, x0, y0, err) && k < Length(a, b)
    requires adx == Abs(b.x - a.x) && ady == Abs(b.y - a.y)
    ensures err > -adx ==> Between(a.x, Towards(x0, b.x - a.x, 1), b.x)
    ensures err < ady ==> Between(a.y, Towards(y0, b.y - a.y, 1), b.y)
  {
    Advances(a, b, k, x0, y0, err, adx, ady);
    hide Underway;
    PointsFit(a, b, k + 1, if err > -adx then Towards(x0, b.x - a.x, 1) else x0,
              if err < ady then Towards(y0, b.y - a.y, 1) else y0,
              err - (if err > -adx then ady else 0) + (if err < ady then adx else 0));
  }

  /** The loop of wg_gdi_line_to, from its start */
  method PlotLine(fb: array<U32>, w: Int, h: Int, xa: Int, ya: Int, x1: Int, y1: Int, err0: Int,
                  adx: Int, ady: Int, sx: Int, sy: Int, rgba: U32, ghost a: Point, ghost b: Point)
    requires w >= 0 && h >= 0 && fb.Length == w as int * h as int <= 0x8000_0000
    requires a == Point(xa as int, ya as int) && b == Point(x1 as int, y1 as int) && Fits(b.x - a.x, b.y - a.y)
    requires adx as int == Abs(b.x - a.x) && ady as int == Abs(b.y - a.y)
    requires sx == (if b.x - a.x < 0 then -1 else 1) && sy == (if b.y - a.y < 0 then -1 else 1)
    requires Underway(a, b, 0, xa as int, ya as int, err0 as int)
    modifies fb
    ensures fb[..] == Drawn(old(fb[..]), w as int, h as int, a, b, Length(a, b) + 1, rgba)
  {
    hide LinePoint, Underway, Plot, Length, Abs, Fits, Drawn;
    var x0, y0, err := xa, ya, err0;
    ghost var k, was := 0, fb[..];
    DrawnNothing(was, w as int, h as int, a, b, rgba);
    while true
      invariant Underway(a, b, k, x0 as int, y0 as int, err as int) && k <= Length(a, b)
      invariant fb[..] == Drawn(was, w as int, h as int, a, b, k, rgba)
      decreases Length(a, b) - k
    {
      PutPixel(fb, w, h, x0, y0, rgba);
      DrawnNext(was, w as int, h as int, a, b, k, rgba);
      UnderwayAt(a, b, k, x0 as int, y0 as int, err as int);
      AtTheEnd(a, b, k, x0 as int, y0 as int, err as int);
      if x0 == x1 && y0 == y1 {
        break;
      }
      x0, y0, err := NextPoint(x0, y0, err, adx, ady, sx, sy, a, b, k);
      k := k + 1;
    }
  }

  /** wg_gdi_line_to between two points */
  method DrawLine(fb: array<U32>, w: Int, h: Int, x0: Int, y0: Int, x1: Int, y1: Int, rgba: U32)
    requires w >= 0 && h >= 0 && fb.Length == w as int * h as int <= 0x8000_0000
    requires Fits(x1 as int - x0 as int, y1 as int - y0 as int)
    modifies fb
    ensures var a, b := Point(x0 as int, y0 as int), Point(x1 as int, y1 as int);
      fb[..] == Drawn(old(fb[..]), w as int, h as int, a, b, Length(a, b) + 1, rgba)
  {
    hide LinePoint, Underway, Plot, Length, Drawn, Peak;
    var dx, dy := x1 - x0, y1 - y0;
    var adx, ady := if dx < 0 then -dx else dx, if dy < 0 then -dy else dy;
    var sx: Int, sy: Int := if dx < 0 then -1 else 1, if dy < 0 then -1 else 1;
    var err := HalfOf(if adx > ady then adx else -ady);
    ghost var a, b := Point(x0 as int, y0 as int), Point(x1 as int, y1 as int);
    Started(a, b, err as int);
    PlotLine(fb, w, h, x0, y0, x1, y1, err, adx, ady, sx, sy, rgba, a, b);
  }

  lemma DrawnNothing(fb: seq<U32>, w: nat, h: nat, a: Point, b: Point, rgba: U32)
    requires |fb| == w * h
    ensures Drawn(fb, w, h, a, b, 0, rgba) == fb
  {
  }

  lemma DrawnNext(fb: seq<U32>, w: nat, h: nat, a: Point, b: Point, k: nat, rgba: U32)
    requires |fb| == w * h
    ensures Drawn(fb, w, h, a, b, k + 1, rgba) == Plot(Drawn(fb, w, h, a, b, k, rgba), w, h, LinePoint(a, b, k), rgba)
  {
  }

  lemma UnderwayAt(a: Point, b: Point, k: nat, x0: int, y0: int, err: int)
    requires Underway(a, b, k, x0, y0, err)
    ensures Point(x0, y0) == LinePoint(a, b, k) && k <= Length(a, b)
    ensures a == b ==> k == Length(a, b)
  {
  }

  class DeviceContext {
    var window: Window?
    var textColor: U32
    var curX: Int
    var curY: Int

    constructor (window: Window?, textColor: U32)
      ensures this.window == window && this.textColor == textColor && curX == 0 && curY == 0
    {
      this.window, this.textColor, curX, curY := window, textColor, 0, 0;
    }

    ghost predicate Valid()
      reads this, window
    {
      window != null && window.client != null ==>
        && window.width >= 0 && window.height >= 0
        && window.client.Length == window.width as int * window.height as int <= 0x8000_0000
    }

    ghost function Canvas(): set<object>
      reads this, window
    {
      if window == null then {} else if window.client == null then {window} else {window, window.client}
    }

    /** wg_gdi_line_to */
    method LineTo(x: Int, y: Int)
      requires Valid()
      requires window != null && window.client != null ==> Fits(x as int - curX as int, y as int - curY as int)
      modifies this`curX, this`curY, Canvas()
      ensures Valid()
      ensures window == null || window.client == null ==> curX == old(curX) && curY == old(curY)
      ensures window != null ==>
                && window.client == old(window.client)
                && window.width == old(window.width) && window.height == old(window.height)
      ensures window != null && window.client != null ==>
                var a, b := Point(old(curX) as int, old(curY) as int), Point(x as int, y as int);
                && curX == x && curY == y && window.clientDirty
                && window.client[..] == Drawn(old(window.client[..]), window.width as int, window.height as int,
                                              a, b, Length(a, b) + 1, Rgba(textColor))
    {
      if window == null || window.client == null {
        return;
      }
      var fb, w, h, rgba := window.client, window.width, window.height, Rgba(textColor);
      DrawLine(fb, w, h, curX, curY, x, y, rgba);
      curX, curY := x, y;
      window.clientDirty := true;
    }
  }
}
