/** The city field: points with integer coordinates and the weight of an edge between two of them. */
module CityField {

  /** A city of the field; the generator draws both coordinates as integers. */
  datatype City = City(x: int, y: int)

  /** The weight of the edge between two cities, as the tour evaluator sees it. */
  type Weight = (City, City) -> real

  ghost predicate Symmetric(w: Weight) {
    forall a, b :: w(a, b) == w(b, a)
  }

  ghost predicate NonNegative(w: Weight) {
    forall a, b :: w(a, b) >= 0.0
  }

  /** The square of the Euclidean distance between two cities: the quantity under the square root
      of the distance function, exact on integer coordinates. */
  function SquaredDistance(a: City, b: City): (d: int)
    ensures d >= 0
    ensures d == 0 <==> a == b
  {
    var dx, dy := a.x - b.x, a.y - b.y;
    assert dx * dx >= 0 && dy * dy >= 0;
    assert dx != 0 ==> dx * dx > 0;
    assert dy != 0 ==> dy * dy > 0;
    dx * dx + dy * dy
  }

  lemma SquaredDistanceSymmetric(a: City, b: City)
    ensures SquaredDistance(a, b) == SquaredDistance(b, a)
  {
    assert (a.x - b.x) * (a.x - b.x) == (b.x - a.x) * (b.x - a.x);
    assert (a.y - b.y) * (a.y - b.y) == (b.y - a.y) * (b.y - a.y);
  }

  /** The squared Euclidean distance as an edge weight. */
  function SquaredEuclidean(a: City, b: City): real {
    SquaredDistance(a, b) as real
  }

  /** `w` is the Euclidean distance: the non-negative square root of the squared distance. */
  ghost predicate EuclideanWeight(w: Weight) {
    forall a, b :: w(a, b) >= 0.0 && w(a, b) * w(a, b) == SquaredDistance(a, b) as real
  }

  /** A non-negative square root is unique. */
  lemma SquareRootUnique(x: real, y: real)
    requires x >= 0.0 && y >= 0.0 && x * x == y * y
    ensures x == y
  {
    assert (x - y) * (x + y) == x * x - y * y;
    if x + y != 0.0 {
      assert x - y == 0.0;
    }
  }

  /** The distance function is a symmetric, non-negative weight that is zero from a city to
      itself, so the tour-length results apply to the weight the solvers use. */
  lemma EuclideanWeightIsSymmetricNonNegative(w: Weight)
    requires EuclideanWeight(w)
    ensures Symmetric(w) && NonNegative(w)
    ensures forall a :: w(a, a) == 0.0
  {
    forall a, b ensures w(a, b) == w(b, a) {
      SquaredDistanceSymmetric(a, b);
      SquareRootUnique(w(a, b), w(b, a));
    }
    forall a ensures w(a, a) == 0.0 {
      SquareRootUnique(w(a, a), 0.0);
    }
  }

  /** Squared Euclidean distance is a weight the tour-length lemmas apply to. */
  lemma SquaredEuclideanIsSymmetricNonNegative()
    ensures Symmetric(SquaredEuclidean)
    ensures NonNegative(SquaredEuclidean)
  {
    forall a, b ensures SquaredEuclidean(a, b) == SquaredEuclidean(b, a) {
      SquaredDistanceSymmetric(a, b);
    }
  }
}
