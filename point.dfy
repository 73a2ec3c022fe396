/** Point (ICLUtils/src/iclPoint.h) over integers: a 2D position or offset
    with coordinate-wise arithmetic. Point values are a datatype; a point
    variable that += and -= update in place is the class PointVar. */
module Points {

  datatype Point = Point(x: int, y: int)

  /** Point::null, the point (0, 0). */
  const Null: Point := Point(0, 0)

  /** The copy constructor with its default argument: Point() copies null. */
  function DefaultPoint(): (p: Point)
    ensures p == Null && p.x == 0 && p.y == 0
  {
    Copy(Null)
  }

  /** The copy constructor Point(const Point&): a deep copy of both
      coordinates. */
  function Copy(p: Point): (q: Point)
    ensures q == p
  {
    Point(p.x, p.y)
  }

  /** operator==: both coordinates agree, which is equality of points. */
  predicate Equals(p: Point, q: Point): (b: bool)
    ensures b <==> p == q
  {
    p.x == q.x && p.y == q.y
  }

  /** operator!=: some coordinate differs, exactly when operator== fails. */
  predicate NotEquals(p: Point, q: Point): (b: bool)
    ensures b <==> !Equals(p, q)
  {
    p.x != q.x || p.y != q.y
  }

  /** isNull(): the point compares equal to null, i.e. both coordinates
      are 0. */
  predicate IsNull(p: Point): (b: bool)
    ensures b <==> p.x == 0 && p.y == 0
  {
    Equals(p, Null)
  }

  /** operator+: coordinate-wise sum. */
  function Plus(p: Point, q: Point): (r: Point)
    ensures r.x == p.x + q.x && r.y == p.y + q.y
  {
    Point(p.x + q.x, p.y + q.y)
  }

  /** operator-: coordinate-wise difference. */
  function Minus(p: Point, q: Point): (r: Point)
    ensures r.x == p.x - q.x && r.y == p.y - q.y
  {
    Point(p.x - q.x, p.y - q.y)
  }

  /** Subtracting q undoes adding q, and adding q undoes subtracting q. */
  lemma MinusUndoesPlus(p: Point, q: Point)
    ensures Minus(Plus(p, q), q) == p
    ensures Plus(Minus(p, q), q) == p
  {
  }

  /** Vector addition is commutative, associative and has null as its
      neutral element; p - p is null. */
  lemma PlusIsAGroup(p: Point, q: Point, s: Point)
    ensures Plus(p, q) == Plus(q, p)
    ensures Plus(Plus(p, q), s) == Plus(p, Plus(q, s))
    ensures Plus(p, Null) == p && IsNull(Minus(p, p))
  {
  }

  /** A Point variable: += and -= update its two fields in place and return
      the variable itself. */
  class PointVar {
    var x: int
    var y: int

    function Value(): (p: Point)
      reads this
      ensures p.x == x && p.y == y
    {
      Point(x, y)
    }

    /** Point(int x, int y). */
    constructor (x: int, y: int)
      ensures Value() == Point(x, y)
    {
      this.x := x;
      this.y := y;
    }

    /** operator+=: x += s.x, then y += s.y. The argument may be this same
        variable (p += p doubles p). */
    method AddAssign(s: PointVar) returns (self: PointVar)
      modifies this
      ensures self == this
      ensures Value() == Plus(old(Value()), old(s.Value()))
    {
      x := x + s.x;
      y := y + s.y;
      self := this;
    }

    /** operator-=: x -= s.x, then y -= s.y. The argument may be this same
        variable (p -= p makes p null). */
    method SubAssign(s: PointVar) returns (self: PointVar)
      modifies this
      ensures self == this
      ensures Value() == Minus(old(Value()), old(s.Value()))
    {
      x := x - s.x;
      y := y - s.y;
      self := this;
    }
  }
}
