/**
 * `findTriangleContainingPoint` and `fuzzyIsPointInTriangle`: the first
 * triangle of the triangulation that contains a point, where "contains"
 * tolerates a small rounding error. The exact point-in-triangle test of the
 * triangulation library is a parameter.
 */
module TriangleLookup {
  import opened Wrappers
  import opened Geometry
  import opened Constants

  /** The triangulation library's exact `Triangle2D.contains`. */
  type Containment = (Triangle, Vector2D) -> bool

  function Min3(a: real, b: real, c: real): (m: real)
    ensures m <= a && m <= b && m <= c
    ensures m == a || m == b || m == c
  {
    if a <= b && a <= c then a else if b <= c then b else c
  }

  function Max3(a: real, b: real, c: real): (m: real)
    ensures m >= a && m >= b && m >= c
    ensures m == a || m == b || m == c
  {
    if a >= b && a >= c then a else if b >= c then b else c
  }

  /** The triangle's bounding box grown by `w` on every side contains the point. */
  predicate InGrownBox(point: Vector2D, t: Triangle, w: real)
  {
    var minX := Min3(t.a.x, t.b.x, t.c.x) - w;
    var minY := Min3(t.a.y, t.b.y, t.c.y) - w;
    var maxX := Max3(t.a.x, t.b.x, t.c.x) + w;
    var maxY := Max3(t.a.y, t.b.y, t.c.y) + w;
    !(point.x < minX || point.y < minY || point.x > maxX || point.y > maxY)
  }

  /** The four probes of the "+" shape, in the order they are tested. */
  function PlusProbes(p: Vector2D, w: real): seq<Vector2D>
  {
    [Vector2D(p.x, p.y + w), Vector2D(p.x + w, p.y), Vector2D(p.x, p.y - w), Vector2D(p.x - w, p.y)]
  }

  /** The four probes of the "X" shape, in the order they are tested. */
  function CrossProbes(p: Vector2D, w: real): seq<Vector2D>
  {
    [Vector2D(p.x + w, p.y + w), Vector2D(p.x + w, p.y - w), Vector2D(p.x - w, p.y + w), Vector2D(p.x - w, p.y - w)]
  }

  predicate SomeContained(contains: Containment, t: Triangle, probes: seq<Vector2D>)
  {
    exists k :: 0 <= k < |probes| && contains(t, probes[k])
  }

  /**
   * The tolerant containment test: inside the grown bounding box, and either
   * the point itself or one of the eight probes around it is contained.
   */
  predicate FuzzyInside(point: Vector2D, t: Triangle, w: real, contains: Containment): (b: bool)
    ensures b ==> InGrownBox(point, t, w)
    ensures InGrownBox(point, t, w) && contains(t, point) ==> b
  {
    InGrownBox(point, t, w)
    && (contains(t, point) || SomeContained(contains, t, PlusProbes(point, w)) || SomeContained(contains, t, CrossProbes(point, w)))
  }

  /** Counts the probes the triangle contains, as the loops over `pointsToTest` do. */
  method CountHits(contains: Containment, t: Triangle, probes: seq<Vector2D>, hits0: int) returns (hits: int)
    requires hits0 >= 0
    ensures hits >= hits0
    ensures hits > 0 <==> hits0 > 0 || SomeContained(contains, t, probes)
  {
    hits := hits0;
    var i := 0;
    while i < |probes|
      invariant 0 <= i <= |probes|
      invariant hits >= hits0
      invariant hits > 0 <==> hits0 > 0 || exists k :: 0 <= k < i && contains(t, probes[k])
    {
      if contains(t, probes[i]) {
        hits := hits + 1;
      }
      i := i + 1;
    }
  }

  /** `fuzzyIsPointInTriangle`. */
  method FuzzyIsPointInTriangle(point: Vector2D, t: Triangle, w: real, contains: Containment) returns (r: bool)
    ensures r == FuzzyInside(point, t, w, contains)
  {
    var minX := Min3(t.a.x, t.b.x, t.c.x) - w;
    var minY := Min3(t.a.y, t.b.y, t.c.y) - w;
    var maxX := Max3(t.a.x, t.b.x, t.c.x) + w;
    var maxY := Max3(t.a.y, t.b.y, t.c.y) + w;
    if point.x < minX || point.y < minY || point.x > maxX || point.y > maxY {
      return false;
    }
    if contains(t, point) {
      return true;
    }
    var hits := CountHits(contains, t, PlusProbes(point, w), 0);
    if hits > 0 {
      return true;
    }
    hits := CountHits(contains, t, CrossProbes(point, w), hits);
    r := hits > 0;
  }

  /** With no tolerance every probe is the point itself, so the test is the exact one inside the box. */
  lemma ZeroWidthIsExact(point: Vector2D, t: Triangle, contains: Containment)
    ensures FuzzyInside(point, t, 0.0, contains) <==> InGrownBox(point, t, 0.0) && contains(t, point)
  {
    assert forall k :: 0 <= k < 4 ==> PlusProbes(point, 0.0)[k] == point;
    assert forall k :: 0 <= k < 4 ==> CrossProbes(point, 0.0)[k] == point;
  }

  /** The vertices of a triangle always lie in its grown box, so a contained vertex is fuzzily inside. */
  lemma ContainedVertexIsInside(t: Triangle, w: real, contains: Containment)
    requires w >= 0.0
    ensures contains(t, t.a) ==> FuzzyInside(t.a, t, w, contains)
    ensures contains(t, t.b) ==> FuzzyInside(t.b, t, w, contains)
    ensures contains(t, t.c) ==> FuzzyInside(t.c, t, w, contains)
  {
  }

  /** A point farther than `w` beyond the triangle's extent in x is never inside. */
  lemma FarPointIsOutside(point: Vector2D, t: Triangle, w: real, contains: Containment)
    requires point.x > t.a.x + w && point.x > t.b.x + w && point.x > t.c.x + w
    ensures !FuzzyInside(point, t, w, contains)
  {
  }

  /**
   * The index of the first triangle that fuzzily contains the point: it does,
   * and no earlier one does; `None` when no triangle does.
   */
  function FirstFuzzy(triangles: seq<Triangle>, point: Vector2D, w: real, contains: Containment): (r: Option<nat>)
    ensures r.Some? ==> r.value < |triangles| && FuzzyInside(point, triangles[r.value], w, contains)
    ensures r.Some? ==> forall j :: 0 <= j < r.value ==> !FuzzyInside(point, triangles[j], w, contains)
    ensures r.None? <==> forall j :: 0 <= j < |triangles| ==> !FuzzyInside(point, triangles[j], w, contains)
  {
    if |triangles| == 0 then None
    else if FuzzyInside(point, triangles[0], w, contains) then Some(0)
    else
      match FirstFuzzy(triangles[1..], point, w, contains)
      case None => None
      case Some(i) => Some(i + 1)
  }

  /** The triangle `findTriangleContainingPoint` returns; `None` stands for `null`. */
  function ContainingTriangle(triangles: seq<Triangle>, point: Vector2D, contains: Containment): Option<Triangle>
  {
    match FirstFuzzy(triangles, point, FUZZY_WIDTH, contains)
    case None => None
    case Some(i) => Some(triangles[i])
  }

  /**
   * The triangle found passes the tolerant test; none is found exactly when
   * no triangle passes it.
   */
  lemma ContainingTriangleIsFuzzyMatch(triangles: seq<Triangle>, point: Vector2D, contains: Containment)
    ensures var r := ContainingTriangle(triangles, point, contains);
            && (r.Some? ==> r.value in triangles && FuzzyInside(point, r.value, FUZZY_WIDTH, contains))
            && (r.None? <==> forall t :: t in triangles ==> !FuzzyInside(point, t, FUZZY_WIDTH, contains))
  {
    var r := ContainingTriangle(triangles, point, contains);
    if r.None? {
      forall t | t in triangles
        ensures !FuzzyInside(point, t, FUZZY_WIDTH, contains)
      {
        var k :| 0 <= k < |triangles| && triangles[k] == t;
      }
    }
  }

  /** `findTriangleContainingPoint`: the first triangle that passes the tolerant test. */
  method FindTriangleContainingPoint(triangles: seq<Triangle>, point: Vector2D, contains: Containment) returns (found: Option<Triangle>)
    ensures found == ContainingTriangle(triangles, point, contains)
    ensures found.Some? ==> found.value in triangles && FuzzyInside(point, found.value, FUZZY_WIDTH, contains)
    ensures found.None? <==> forall t :: t in triangles ==> !FuzzyInside(point, t, FUZZY_WIDTH, contains)
  {
    var i := 0;
    while i < |triangles|
      invariant 0 <= i <= |triangles|
      invariant forall j :: 0 <= j < i ==> !FuzzyInside(point, triangles[j], FUZZY_WIDTH, contains)
    {
      var inside := FuzzyIsPointInTriangle(point, triangles[i], FUZZY_WIDTH, contains);
      if inside {
        FirstFuzzyIsFirstMatch(triangles, point, FUZZY_WIDTH, contains, i);
        return Some(triangles[i]);
      }
      i := i + 1;
    }
    return None;
  }

  /** The first match of a left-to-right scan is the one `FirstFuzzy` names. */
  lemma FirstFuzzyIsFirstMatch(triangles: seq<Triangle>, point: Vector2D, w: real, contains: Containment, i: nat)
    requires i < |triangles| && FuzzyInside(point, triangles[i], w, contains)
    requires forall j :: 0 <= j < i ==> !FuzzyInside(point, triangles[j], w, contains)
    ensures FirstFuzzy(triangles, point, w, contains) == Some(i)
  {
  }
}
