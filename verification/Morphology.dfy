/** Erosion and dilation by a 3x3 block, with the border ring forced to black,
    and the opening (erode, then dilate) the image kernel runs on every mask. */
module Morphology {
  import opened Image

  // ---------------------------------------------------------------- meaning

  /** The pixels that have all eight neighbours inside the image. */
  predicate Interior(h: nat, w: nat, p: Point) {
    1 <= p.x < w - 1 && 1 <= p.y < h - 1
  }

  /** q lies in the 3x3 block centred on c. */
  predicate InBlock(c: Point, q: Point) {
    -1 <= q.x - c.x <= 1 && -1 <= q.y - c.y <= 1
  }

  /** c is the centre of an in-image 3x3 block lying wholly in `white`. */
  ghost predicate WhiteBlock(h: nat, w: nat, white: set<Point>, c: Point) {
    Interior(h, w, c) && forall q :: InBlock(c, q) ==> q in white
  }

  ghost function Erode(h: nat, w: nat, white: set<Point>): set<Point> {
    set p | p in Grid(h, w) && WhiteBlock(h, w, white, p)
  }

  ghost function Dilate(h: nat, w: nat, white: set<Point>): set<Point> {
    set p | p in Grid(h, w) && Interior(h, w, p) && exists q :: InBlock(p, q) && q in white
  }

  /** Erosion followed by dilation. */
  ghost function Open(h: nat, w: nat, white: set<Point>): set<Point> {
    Dilate(h, w, Erode(h, w, white))
  }

  // -------------------------------------------------------------- operations

  /** Is the whole 3x3 block around (x, y) white? */
  method BlockAllWhite(mask: array2<Pixel>, y: int, x: int) returns (keep: Pixel)
    requires Interior(mask.Length0, mask.Length1, Point(x, y))
    ensures keep == 0 || keep == 1
    ensures keep == 1 <==> WhiteBlock(mask.Length0, mask.Length1, White(mask), Point(x, y))
  {
    for dy := -1 to 2
      invariant forall q :: InBlock(Point(x, y), q) && q.y < y + dy ==> q in White(mask)
    {
      for dx := -1 to 2
        invariant forall q :: InBlock(Point(x, y), q) && (q.y < y + dy || (q.y == y + dy && q.x < x + dx)) ==>
          q in White(mask)
      {
        if mask[y + dy, x + dx] == 0 {
          assert InBlock(Point(x, y), Point(x + dx, y + dy)) && Point(x + dx, y + dy) !in White(mask);
          return 0;
        }
      }
    }
    return 1;
  }

  /** Is any pixel of the 3x3 block around (x, y) white? */
  method BlockAnyWhite(mask: array2<Pixel>, y: int, x: int) returns (found: Pixel)
    requires Interior(mask.Length0, mask.Length1, Point(x, y))
    ensures found == 0 || found == 1
    ensures found == 1 <==> exists q :: InBlock(Point(x, y), q) && q in White(mask)
  {
    for dy := -1 to 2
      invariant forall q :: InBlock(Point(x, y), q) && q.y < y + dy ==> q !in White(mask)
    {
      for dx := -1 to 2
        invariant forall q :: InBlock(Point(x, y), q) && (q.y < y + dy || (q.y == y + dy && q.x < x + dx)) ==>
          q !in White(mask)
      {
        if mask[y + dy, x + dx] != 0 {
          assert InBlock(Point(x, y), Point(x + dx, y + dy)) && Point(x + dx, y + dy) in White(mask);
          return 1;
        }
      }
    }
    return 0;
  }

  /** The interior pixels before (x, y) in scan order hold 1 exactly on `target`. */
  ghost predicate Drawn(temp: array2<Pixel>, target: set<Point>, y: int, x: int)
    reads temp
  {
    forall p :: Interior(temp.Length0, temp.Length1, p) && (p.y < y || (p.y == y && p.x < x)) ==>
      temp[p.y, p.x] == if p in target then 1 else 0
  }

  method ErodeMask(mask: array2<Pixel>, temp: array2<Pixel>)
    requires mask != temp && mask.Length0 == temp.Length0 >= 1 && mask.Length1 == temp.Length1 >= 1
    modifies temp
    ensures White(temp) == Erode(mask.Length0, mask.Length1, White(mask))
    ensures forall p :: p in White(temp) ==> temp[p.y, p.x] == 1
  {
    ghost var target := Erode(mask.Length0, mask.Length1, White(mask));
    var y := 1;
    while y < temp.Length0 - 1
      invariant 1 <= y && Drawn(temp, target, y, 1)
    {
      var x := 1;
      while x < temp.Length1 - 1
        invariant 1 <= x && Drawn(temp, target, y, x)
      {
        var keep := BlockAllWhite(mask, y, x);
        temp[y, x] := keep;
        x := x + 1;
      }
      y := y + 1;
    }
    ClearBorder(temp, target);
  }

  method DilateMask(mask: array2<Pixel>, temp: array2<Pixel>)
    requires mask != temp && mask.Length0 == temp.Length0 >= 1 && mask.Length1 == temp.Length1 >= 1
    modifies temp
    ensures White(temp) == Dilate(mask.Length0, mask.Length1, White(mask))
    ensures forall p :: p in White(temp) ==> temp[p.y, p.x] == 1
  {
    ghost var target := Dilate(mask.Length0, mask.Length1, White(mask));
    var y := 1;
    while y < temp.Length0 - 1
      invariant 1 <= y && Drawn(temp, target, y, 1)
    {
      var x := 1;
      while x < temp.Length1 - 1
        invariant 1 <= x && Drawn(temp, target, y, x)
      {
        var found := BlockAnyWhite(mask, y, x);
        temp[y, x] := found;
        x := x + 1;
      }
      y := y + 1;
    }
    ClearBorder(temp, target);
  }

  /** The four edges go black. */
  method ClearBorder(temp: array2<Pixel>, ghost target: set<Point>)
    requires temp.Length0 >= 1 && temp.Length1 >= 1
    requires Drawn(temp, target, temp.Length0 - 1, 1)
    requires forall p :: p in target ==> Interior(temp.Length0, temp.Length1, p)
    modifies temp
    ensures White(temp) == target
    ensures forall p :: p in White(temp) ==> temp[p.y, p.x] == 1
  {
    ClearRows(temp, target);
    ClearColumns(temp, target);
  }

  /** Black on the first `n` pixels of the top and bottom rows. */
  ghost predicate RowsBlack(temp: array2<Pixel>, n: int)
    reads temp
  {
    forall p :: InImage(temp.Length0, temp.Length1, p) && (p.y == 0 || p.y == temp.Length0 - 1) && p.x < n ==>
      temp[p.y, p.x] == 0
  }

  ghost predicate ColumnsBlack(temp: array2<Pixel>, n: int)
    reads temp
  {
    forall p :: InImage(temp.Length0, temp.Length1, p) && (p.x == 0 || p.x == temp.Length1 - 1) && p.y < n ==>
      temp[p.y, p.x] == 0
  }

  method ClearRows(temp: array2<Pixel>, ghost target: set<Point>)
    requires temp.Length0 >= 1 && Drawn(temp, target, temp.Length0 - 1, 1)
    modifies temp
    ensures Drawn(temp, target, temp.Length0 - 1, 1) && RowsBlack(temp, temp.Length1)
  {
    for x := 0 to temp.Length1
      invariant Drawn(temp, target, temp.Length0 - 1, 1) && RowsBlack(temp, x)
    {
      temp[0, x] := 0;
      temp[temp.Length0 - 1, x] := 0;
    }
  }

  method ClearColumns(temp: array2<Pixel>, ghost target: set<Point>)
    requires temp.Length1 >= 1 && Drawn(temp, target, temp.Length0 - 1, 1) && RowsBlack(temp, temp.Length1)
    requires forall p :: p in target ==> Interior(temp.Length0, temp.Length1, p)
    modifies temp
    ensures White(temp) == target
    ensures forall p :: p in White(temp) ==> temp[p.y, p.x] == 1
  {
    for y := 0 to temp.Length0
      invariant Drawn(temp, target, temp.Length0 - 1, 1) && RowsBlack(temp, temp.Length1) && ColumnsBlack(temp, y)
    {
      temp[y, 0] := 0;
      temp[y, temp.Length1 - 1] := 0;
    }
  }

  /** Erode into a scratch buffer, dilate back. */
  method OpenMask(mask: array2<Pixel>, temp: array2<Pixel>)
    requires mask != temp && mask.Length0 == temp.Length0 >= 1 && mask.Length1 == temp.Length1 >= 1
    modifies mask, temp
    ensures White(mask) == Open(mask.Length0, mask.Length1, old(White(mask)))
  {
    ErodeMask(mask, temp);
    DilateMask(temp, mask);
  }

  // --------------------------------------------------------------- properties

  /** The opening keeps exactly the interior pixels covered by some in-image
      3x3 block that is wholly white. */
  lemma OpeningMeaning(h: nat, w: nat, white: set<Point>, p: Point)
    ensures p in Open(h, w, white)
       <==> Interior(h, w, p) && exists c :: InBlock(c, p) && WhiteBlock(h, w, white, c)
  {
    if c :| InBlock(c, p) && WhiteBlock(h, w, white, c) {
      assert InBlock(p, c) && c in Erode(h, w, white);
    }
    if p in Open(h, w, white) {
      var c :| InBlock(p, c) && c in Erode(h, w, white);
      assert InBlock(c, p);
    }
  }

  lemma OpeningShrinks(h: nat, w: nat, white: set<Point>)
    ensures Open(h, w, white) <= white
  {
  }

  lemma OpeningMonotone(h: nat, w: nat, a: set<Point>, b: set<Point>)
    requires a <= b
    ensures Open(h, w, a) <= Open(h, w, b)
  {
  }

  ghost function WithoutBorder(h: nat, w: nat, white: set<Point>): set<Point> {
    set p | p in white && Interior(h, w, p)
  }

  /** A second opening sees the mask as if its border ring had been black. */
  lemma OpeningTwice(h: nat, w: nat, white: set<Point>)
    ensures Open(h, w, Open(h, w, white)) == Open(h, w, WithoutBorder(h, w, white))
  {
    var once, inner := Open(h, w, white), WithoutBorder(h, w, white);
    OpeningShrinks(h, w, white);
    forall c ensures WhiteBlock(h, w, once, c) <==> WhiteBlock(h, w, inner, c) {
      if WhiteBlock(h, w, once, c) {
        forall q | InBlock(c, q) ensures q in inner { assert q in once; }
      }
      if WhiteBlock(h, w, inner, c) {
        assert WhiteBlock(h, w, white, c);
        forall q | InBlock(c, q) ensures q in once {
          assert q in inner;
          OpeningMeaning(h, w, white, q);
        }
      }
    }
    forall p ensures p in Open(h, w, once) <==> p in Open(h, w, inner) {
      OpeningMeaning(h, w, once, p);
      OpeningMeaning(h, w, inner, p);
      if c :| InBlock(c, p) && WhiteBlock(h, w, once, c) { assert WhiteBlock(h, w, inner, c); }
      if c :| InBlock(c, p) && WhiteBlock(h, w, inner, c) { assert WhiteBlock(h, w, once, c); }
    }
  }

  /** Every white block that touches the border ring is covered, inside the
      ring, by white blocks that do not touch it. */
  ghost predicate BorderBlocksBacked(h: nat, w: nat, white: set<Point>) {
    forall c, p :: WhiteBlock(h, w, white, c) && InBlock(c, p) && Interior(h, w, p) ==> Backed(h, w, white, p)
  }

  ghost predicate Backed(h: nat, w: nat, white: set<Point>, p: Point) {
    exists d :: InBlock(d, p) && WhiteBlock(h, w, white, d) && 2 <= d.x < w - 2 && 2 <= d.y < h - 2
  }

  lemma BackedMeaning(h: nat, w: nat, white: set<Point>, p: Point)
    requires Interior(h, w, p)
    ensures Backed(h, w, white, p) <==> p in Open(h, w, WithoutBorder(h, w, white))
  {
    var inner := WithoutBorder(h, w, white);
    OpeningMeaning(h, w, inner, p);
    if Backed(h, w, white, p) {
      var d :| InBlock(d, p) && WhiteBlock(h, w, white, d) && 2 <= d.x < w - 2 && 2 <= d.y < h - 2;
      assert WhiteBlock(h, w, inner, d);
    }
    if d :| InBlock(d, p) && WhiteBlock(h, w, inner, d) {
      assert WhiteBlock(h, w, white, d);
      assert InBlock(d, Point(d.x - 1, d.y - 1)) && InBlock(d, Point(d.x + 1, d.y + 1));
      assert Point(d.x - 1, d.y - 1) in inner && Point(d.x + 1, d.y + 1) in inner;
    }
  }

  /** Exactly when the opening is idempotent. */
  lemma OpeningIdempotentIff(h: nat, w: nat, white: set<Point>)
    ensures Open(h, w, Open(h, w, white)) == Open(h, w, white) <==> BorderBlocksBacked(h, w, white)
  {
    var inner := WithoutBorder(h, w, white);
    OpeningTwice(h, w, white);
    OpeningMonotone(h, w, inner, white);
    if BorderBlocksBacked(h, w, white) {
      forall p | p in Open(h, w, white) ensures p in Open(h, w, inner) {
        OpeningMeaning(h, w, white, p);
        var c :| InBlock(c, p) && WhiteBlock(h, w, white, c);
        BackedMeaning(h, w, white, p);
      }
    }
    if Open(h, w, inner) == Open(h, w, white) {
      forall c, p | WhiteBlock(h, w, white, c) && InBlock(c, p) && Interior(h, w, p) ensures Backed(h, w, white, p) {
        OpeningMeaning(h, w, white, p);
        BackedMeaning(h, w, white, p);
      }
    }
  }

  /** In particular on every mask whose border ring is black. */
  lemma OpeningIdempotentInside(h: nat, w: nat, white: set<Point>)
    requires forall p :: p in white ==> Interior(h, w, p)
    ensures Open(h, w, Open(h, w, white)) == Open(h, w, white)
  {
  }

  /** So a third opening never changes what a second one left. */
  lemma OpeningThrice(h: nat, w: nat, white: set<Point>)
    ensures Open(h, w, Open(h, w, Open(h, w, white))) == Open(h, w, Open(h, w, white))
  {
  }

  /** The smallest witness: an all-white 3x3 image loses its centre the second time. */
  lemma OpeningNotIdempotent()
    ensures Open(3, 3, Grid(3, 3)) == {Point(1, 1)}
    ensures Open(3, 3, Open(3, 3, Grid(3, 3))) == {}
  {
    var once := Open(3, 3, Grid(3, 3));
    forall p ensures p in once <==> p == Point(1, 1) {
      OpeningMeaning(3, 3, Grid(3, 3), p);
      assert WhiteBlock(3, 3, Grid(3, 3), Point(1, 1));
      assert InBlock(Point(1, 1), Point(1, 1));
    }
    forall p ensures p !in Open(3, 3, once) {
      OpeningMeaning(3, 3, once, p);
      if c :| InBlock(c, p) && WhiteBlock(3, 3, once, c) {
        assert InBlock(c, Point(c.x - 1, c.y)) && InBlock(c, c);
        assert false;
      }
    }
  }
}
