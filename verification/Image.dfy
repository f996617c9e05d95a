/** Binary images: pixel coordinates, the image rectangle, and the set of
    non-zero ("white") pixels of a HEIGHT x WIDTH byte buffer. */
module Image {

  /** One uint8_t mask pixel. */
  type Pixel = v: int | 0 <= v < 256

  datatype Point = Point(x: int, y: int)

  predicate InImage(h: nat, w: nat, p: Point) {
    0 <= p.x < w && 0 <= p.y < h
  }

  ghost function Grid(h: nat, w: nat): (g: set<Point>)
    ensures forall p :: p in g <==> InImage(h, w, p)
  {
    var g := set x, y | 0 <= x < w && 0 <= y < h :: Point(x, y);
    assert forall p :: InImage(h, w, p) ==> p == Point(p.x, p.y);
    g
  }

  ghost function Row(w: nat, y: int): (r: set<Point>)
    ensures forall p :: p in r <==> 0 <= p.x < w && p.y == y
    ensures |r| == w
  {
    if w == 0 then {} else Row(w - 1, y) + {Point(w - 1, y)}
  }

  lemma DisjointUnionSize<T>(a: set<T>, b: set<T>, u: set<T>)
    requires a !! b
    requires forall t :: t in u <==> t in a || t in b
    ensures |u| == |a| + |b|
  {
    assert u == a + b;
  }

  /** The image has exactly HEIGHT * WIDTH pixels. */
  lemma {:induction false} GridSize(h: nat, w: nat)
    ensures |Grid(h, w)| == h * w
  {
    if h == 0 {
      assert Grid(h, w) == {};
    } else {
      GridSize(h - 1, w);
      DisjointUnionSize(Grid(h - 1, w), Row(w, h - 1), Grid(h, w));
      Distribute(h, w);
    }
  }

  lemma Distribute(h: nat, w: nat)
    requires h > 0
    ensures h * w == (h - 1) * w + w
  {
  }

  lemma SubsetSize<T>(a: set<T>, b: set<T>)
    requires a <= b
    ensures |a| <= |b|
    ensures a != b ==> |a| < |b|
  {
    assert b == a + (b - a);
    if a != b {
      assert b - a != {};
    }
  }

  /** A one-to-one image has as many members. */
  lemma {:induction false} ImageSize<T(!new), U>(s: set<T>, f: T -> U, image: set<U>)
    requires forall x, y :: x in s && y in s && f(x) == f(y) ==> x == y
    requires image == set x | x in s :: f(x)
    ensures |image| == |s|
  {
    if s == {} {
      assert image == {};
    } else {
      var x :| x in s;
      ImageSize(s - {x}, f, set y | y in s - {x} :: f(y));
      DisjointUnionSize(set y | y in s - {x} :: f(y), {f(x)}, image);
    }
  }

  lemma {:induction false} SubsetOfSize<T>(s: set<T>, n: nat) returns (t: set<T>)
    requires n <= |s|
    ensures t <= s && |t| == n
  {
    t := s;
    if n < |s| {
      var x :| x in s;
      t := SubsetOfSize(s - {x}, n);
    }
  }

  /** The white pixels of a mask buffer. */
  ghost function White(mask: array2<Pixel>): (s: set<Point>)
    reads mask
    ensures forall p :: p in s <==> InImage(mask.Length0, mask.Length1, p) && mask[p.y, p.x] != 0
  {
    set p | p in Grid(mask.Length0, mask.Length1) && mask[p.y, p.x] != 0
  }
}
