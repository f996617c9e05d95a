/** The whole per-frame image kernel: opening, then the blob filter. */
module ImageKernel {
  import opened Image
  import opened Connectivity
  import opened Morphology
  import opened Blobs

  /** MAX_LABELS and the blob size used by the mask thread. */
  const MAX_LABELS := 10000
  const MIN_BLOB := 600

  ghost function Kernel(h: nat, w: nat, white: set<Point>, minSize: int, maxLabels: int): set<Point> {
    Filtered(Open(h, w, white), minSize, maxLabels)
  }

  /** Pixel p is inside the border ring, and a 3x3 block of the image that is
      white throughout covers it. */
  ghost predicate Covered(h: nat, w: nat, white: set<Point>, p: Point) {
    && 1 <= p.x < w - 1 && 1 <= p.y < h - 1
    && exists c: Point :: BlockAt(h, w, white, c) && -1 <= p.x - c.x <= 1 && -1 <= p.y - c.y <= 1
  }

  ghost predicate BlockAt(h: nat, w: nat, white: set<Point>, c: Point) {
    && 1 <= c.x < w - 1 && 1 <= c.y < h - 1
    && forall q: Point :: c.x - 1 <= q.x <= c.x + 1 && c.y - 1 <= q.y <= c.y + 1 ==> q in white
  }

  ghost function Opened(h: nat, w: nat, white: set<Point>): set<Point> {
    set p | p in Grid(h, w) && Covered(h, w, white, p)
  }

  /** One frame, pixel by pixel: white afterwards are the covered pixels, all of
      them if they form more than 9998 blobs, and otherwise those whose blob of
      covered pixels has at least 600. */
  method ProcessMask(mask: array2<Pixel>, temp: array2<Pixel>)
    requires mask != temp && mask.Length0 == temp.Length0 >= 1 && mask.Length1 == temp.Length1 >= 1
    modifies mask, temp
    ensures White(mask) == Kernel(mask.Length0, mask.Length1, old(White(mask)), MIN_BLOB, MAX_LABELS)
    ensures var covered := Opened(mask.Length0, mask.Length1, old(White(mask)));
      forall p :: p in White(mask) <==>
        p in covered && (|Components(covered)| > 9998 || |Component(covered, p)| >= 600)
  {
    OpenMask(mask, temp);
    FilterSmallBlobs(mask, MIN_BLOB, MAX_LABELS);
    OpenedIsOpen(mask.Length0, mask.Length1, old(White(mask)));
    KernelPixels(mask.Length0, mask.Length1, old(White(mask)), MIN_BLOB, MAX_LABELS);
  }

  lemma BlockAtIsWhite(h: nat, w: nat, white: set<Point>, c: Point)
    ensures BlockAt(h, w, white, c) <==> WhiteBlock(h, w, white, c)
  {
    forall q ensures InBlock(c, q) <==> c.x - 1 <= q.x <= c.x + 1 && c.y - 1 <= q.y <= c.y + 1 {
    }
  }

  lemma OpenedIsOpen(h: nat, w: nat, white: set<Point>)
    ensures Opened(h, w, white) == Open(h, w, white)
  {
    forall p ensures p in Opened(h, w, white) <==> p in Open(h, w, white) {
      CoveredIsOpen(h, w, white, p);
    }
  }

  lemma CoveredIsOpen(h: nat, w: nat, white: set<Point>, p: Point)
    ensures Covered(h, w, white, p) <==> p in Open(h, w, white)
    ensures Covered(h, w, white, p) ==> p in Grid(h, w)
  {
    OpeningMeaning(h, w, white, p);
    if c: Point :| BlockAt(h, w, white, c) && -1 <= p.x - c.x <= 1 && -1 <= p.y - c.y <= 1 {
      BlockAtIsWhite(h, w, white, c);
      assert InBlock(c, p);
    }
    if c :| InBlock(c, p) && WhiteBlock(h, w, white, c) {
      BlockAtIsWhite(h, w, white, c);
    }
  }

  /** The kernel in terms of covered pixels and their blobs. */
  lemma KernelPixels(h: nat, w: nat, white: set<Point>, minSize: int, maxLabels: int)
    ensures var covered := Opened(h, w, white);
      forall p :: p in Kernel(h, w, white, minSize, maxLabels) <==>
        p in covered && (|Components(covered)| > maxLabels - 2 || |Component(covered, p)| >= minSize)
  {
    OpenedIsOpen(h, w, white);
  }

  /** Any two pixels of a white block are joined inside it. */
  lemma BlockConnected(h: nat, w: nat, white: set<Point>, c: Point, q: Point)
    requires WhiteBlock(h, w, white, c) && InBlock(c, q)
    ensures Connected(white, c, q)
  {
    assert InBlock(c, c) && InBlock(c, Point(q.x, c.y));
    ConnectedSelf(white, c);
    if q.x != c.x {
      ConnectedStep(white, c, c, Point(q.x, c.y));
    }
    if q.y != c.y {
      ConnectedStep(white, c, Point(q.x, c.y), q);
    }
  }

  /** A block around a kept pixel is kept with it. */
  lemma BlockKept(h: nat, w: nat, white: set<Point>, minSize: int, c: Point, p: Point)
    requires WhiteBlock(h, w, white, c) && InBlock(c, p) && p in KeepLarge(white, minSize)
    ensures WhiteBlock(h, w, KeepLarge(white, minSize), c)
  {
    assert InBlock(c, c);
    BlockConnected(h, w, white, c, p);
    ComponentShared(white, c, p);
    forall q | InBlock(c, q) ensures q in KeepLarge(white, minSize) {
      BlockConnected(h, w, white, c, q);
      ComponentShared(white, c, q);
    }
  }

  /** Filtering an opened mask leaves an opened mask. */
  lemma FilterKeepsOpen(h: nat, w: nat, white: set<Point>, minSize: int, maxLabels: int)
    requires Open(h, w, white) == white
    ensures Open(h, w, Filtered(white, minSize, maxLabels)) == Filtered(white, minSize, maxLabels)
  {
    var kept := KeepLarge(white, minSize);
    OpeningShrinks(h, w, kept);
    forall p | p in kept ensures p in Open(h, w, kept) {
      OpeningMeaning(h, w, white, p);
      OpeningMeaning(h, w, kept, p);
      var c :| InBlock(c, p) && WhiteBlock(h, w, white, c);
      BlockKept(h, w, white, minSize, c, p);
    }
  }

  /** On every mask whose border ring is black, running the kernel on its own
      output changes nothing. */
  lemma KernelStable(h: nat, w: nat, white: set<Point>, minSize: int, maxLabels: int)
    requires forall p :: p in white ==> Interior(h, w, p)
    ensures var once := Kernel(h, w, white, minSize, maxLabels);
      Kernel(h, w, once, minSize, maxLabels) == once
  {
    OpeningIdempotentInside(h, w, white);
    FilterKeepsOpen(h, w, Open(h, w, white), minSize, maxLabels);
    FilterTwice(Open(h, w, white), minSize, maxLabels);
  }

  /** The kernel's output always has a black border ring, so on every mask a
      third run equals the second. */
  lemma KernelThrice(h: nat, w: nat, white: set<Point>, minSize: int, maxLabels: int)
    ensures var once := Kernel(h, w, white, minSize, maxLabels);
      var twice := Kernel(h, w, once, minSize, maxLabels);
      Kernel(h, w, twice, minSize, maxLabels) == twice
  {
    KernelStable(h, w, Kernel(h, w, white, minSize, maxLabels), minSize, maxLabels);
  }

  // ------------------------------------------ the table overflows in practice

  /** The centre of tile c, tiles lying four pixels apart. */
  function Centre(c: Point): Point { Point(4 * c.x + 2, 4 * c.y + 2) }

  ghost function Tile(c: Point): (t: set<Point>)
    ensures forall p :: p in t <==> InBlock(Centre(c), p)
    ensures |t| == 9
  {
    var t := set q | q in Grid(3, 3) :: Shifted(c, q);
    TileMembers(c, t);
    t
  }

  /** Pixel q of the 3x3 image, moved to the corner of tile c. */
  function Shifted(c: Point, q: Point): Point { Point(4 * c.x + 1 + q.x, 4 * c.y + 1 + q.y) }

  lemma TileMembers(c: Point, t: set<Point>)
    requires t == set q | q in Grid(3, 3) :: Shifted(c, q)
    ensures forall p :: p in t <==> InBlock(Centre(c), p)
    ensures |t| == 9
  {
    forall p | InBlock(Centre(c), p) ensures p in t {
      var q := Point(p.x - 4 * c.x - 1, p.y - 4 * c.y - 1);
      assert q in Grid(3, 3) && Shifted(c, q) == p;
    }
    GridSize(3, 3);
    ImageSize(Grid(3, 3), (q: Point) => Shifted(c, q), t);
  }

  ghost function Tiled(tiles: set<Point>): set<Point> {
    set c, p | c in tiles && p in Tile(c) :: p
  }

  /** Tiles are apart: a neighbour of a pixel of one tile is in no other. */
  lemma TilesApart(tiles: set<Point>, c: Point)
    requires c in tiles
    ensures ClosedIn(Tiled(tiles), Tile(c))
  {
    forall p, q | p in Tile(c) && q in Tiled(tiles) && Adjacent(p, q) ensures q in Tile(c) {
      var b :| b in tiles && q in Tile(b);
      SameTile(c, b, p, q);
    }
  }

  lemma SameTile(c: Point, b: Point, p: Point, q: Point)
    requires InBlock(Centre(c), p) && InBlock(Centre(b), q) && Adjacent(p, q)
    ensures b == c
  {
  }

  lemma TileIsWhiteBlock(h: nat, w: nat, a: nat, b: nat, tiles: set<Point>, c: Point)
    requires 4 * a < h && 4 * b < w && tiles <= Grid(a, b) && c in tiles
    ensures WhiteBlock(h, w, Tiled(tiles), Centre(c))
    ensures forall p :: p in Tile(c) ==> Interior(h, w, p)
  {
    assert InImage(a, b, c);
    forall q | InBlock(Centre(c), q) ensures q in Tiled(tiles) {
      assert q in Tile(c);
    }
  }

  /** Every tile is one component. */
  lemma TileIsComponent(h: nat, w: nat, a: nat, b: nat, tiles: set<Point>, c: Point, p: Point)
    requires 4 * a < h && 4 * b < w && tiles <= Grid(a, b) && c in tiles && p in Tile(c)
    ensures Component(Tiled(tiles), p) == Tile(c)
  {
    var white := Tiled(tiles);
    TilesApart(tiles, c);
    TileIsWhiteBlock(h, w, a, b, tiles, c);
    forall q | q in Tile(c) ensures Connected(white, Centre(c), q) {
      BlockConnected(h, w, white, Centre(c), q);
    }
    ComponentUnique(white, Tile(c), Centre(c));
    ComponentShared(white, Centre(c), p);
  }

  ghost function AllTiles(tiles: set<Point>): set<set<Point>> {
    set c | c in tiles :: Tile(c)
  }

  lemma AllTilesSize(tiles: set<Point>)
    ensures |AllTiles(tiles)| == |tiles|
  {
    forall c, b | c in tiles && b in tiles && Tile(c) == Tile(b) ensures c == b {
      SameCentre(c, b);
    }
    ImageSize(tiles, (c: Point) => Tile(c), AllTiles(tiles));
  }

  lemma SameCentre(c: Point, b: Point)
    requires Tile(c) == Tile(b)
    ensures c == b
  {
    assert Centre(c) in Tile(c) && Centre(c) in Tile(b);
  }

  lemma PixelsTile(h: nat, w: nat, a: nat, b: nat, tiles: set<Point>, p: Point)
    requires 4 * a < h && 4 * b < w && tiles <= Grid(a, b) && p in Tiled(tiles)
    ensures Component(Tiled(tiles), p) in AllTiles(tiles) && |Component(Tiled(tiles), p)| == 9
  {
    var c :| c in tiles && p in Tile(c);
    TileIsComponent(h, w, a, b, tiles, c, p);
  }

  lemma TiledComponents(h: nat, w: nat, a: nat, b: nat, tiles: set<Point>)
    requires 4 * a < h && 4 * b < w && tiles <= Grid(a, b)
    ensures Components(Tiled(tiles)) == AllTiles(tiles)
  {
    var white := Tiled(tiles);
    forall p | p in white ensures Component(white, p) in AllTiles(tiles) {
      PixelsTile(h, w, a, b, tiles, p);
    }
    forall t | t in AllTiles(tiles) ensures t in Components(white) {
      var c :| c in tiles && t == Tile(c);
      assert Centre(c) in Tile(c);
      TileIsComponent(h, w, a, b, tiles, c, Centre(c));
    }
  }

  lemma TiledIsOpen(h: nat, w: nat, a: nat, b: nat, tiles: set<Point>)
    requires 4 * a < h && 4 * b < w && tiles <= Grid(a, b)
    ensures Open(h, w, Tiled(tiles)) == Tiled(tiles)
  {
    var white := Tiled(tiles);
    OpeningShrinks(h, w, white);
    forall p | p in white ensures p in Open(h, w, white) {
      var c :| c in tiles && p in Tile(c);
      TileIsWhiteBlock(h, w, a, b, tiles, c);
      OpeningMeaning(h, w, white, p);
    }
  }

  /** The whole kernel can meet a full table: in an image with room for a * b tiles
      of 3x3 pixels four apart there is, for every table length up to that many
      plus one, a mask of small blobs that the kernel leaves exactly as it was.
      480 x 640 pixels have room for 119 * 159, that is 18921; the program's
      table has 10000 entries and its smallest blob 600 pixels. */
  lemma KernelOverflowIsReached(h: nat, w: nat, a: nat, b: nat, minSize: int, maxLabels: int)
    returns (white: set<Point>)
    requires 4 * a < h && 4 * b < w && minSize >= 10 && 2 <= maxLabels <= a * b + 1
    ensures white <= Grid(h, w) && |Components(white)| == maxLabels - 1
    ensures Kernel(h, w, white, minSize, maxLabels) == white && KeepLarge(white, minSize) == {} && white != {}
  {
    GridSize(a, b);
    var tiles := SubsetOfSize(Grid(a, b), maxLabels - 1);
    white := Tiled(tiles);
    AllTilesSize(tiles);
    TiledComponents(h, w, a, b, tiles);
    TiledIsOpen(h, w, a, b, tiles);
    forall p | p in white ensures |Component(white, p)| == 9 {
      PixelsTile(h, w, a, b, tiles, p);
    }
    assert Components(white) != {};
  }

  /** A single white block of nine pixels comes out black. */
  lemma SmallBlockVanishes(h: nat, w: nat, a: nat, b: nat, minSize: int, maxLabels: int, c: Point)
    returns (white: set<Point>)
    requires 4 * a < h && 4 * b < w && InImage(a, b, c) && minSize >= 10 && maxLabels >= 3
    ensures Open(h, w, white) == white <= Grid(h, w) && |white| == 9
    ensures Kernel(h, w, white, minSize, maxLabels) == {}
  {
    white := OneTileBlob(h, w, a, b, c);
    KernelOfSmall(h, w, white, minSize, maxLabels);
  }

  lemma OneTile(c: Point)
    ensures Tiled({c}) == Tile(c)
  {
  }

  lemma OneTileBlob(h: nat, w: nat, a: nat, b: nat, c: Point) returns (white: set<Point>)
    requires 4 * a < h && 4 * b < w && InImage(a, b, c)
    ensures Open(h, w, white) == white <= Grid(h, w) && |white| == 9 && |Components(white)| == 1
    ensures forall p :: p in white ==> |Component(white, p)| == 9
  {
    var tiles := {c};
    white := Tiled(tiles);
    OneTile(c);
    TiledIsOpen(h, w, a, b, tiles);
    AllTilesSize(tiles);
    TiledComponents(h, w, a, b, tiles);
    forall p | p in white ensures |Component(white, p)| == 9 {
      PixelsTile(h, w, a, b, tiles, p);
    }
  }

  lemma KernelOfSmall(h: nat, w: nat, white: set<Point>, minSize: int, maxLabels: int)
    requires Open(h, w, white) == white && |Components(white)| <= maxLabels - 2
    requires forall p :: p in white ==> |Component(white, p)| < minSize
    ensures Kernel(h, w, white, minSize, maxLabels) == {}
  {
    assert KeepLarge(white, minSize) == {};
  }

  /** In particular at the program's image size and with its constants. */
  lemma SmallBlockGoesBlack() returns (white: set<Point>)
    ensures Open(480, 640, white) == white <= Grid(480, 640) && |white| == 9
    ensures Kernel(480, 640, white, 600, 10000) == {}
  {
    white := SmallBlockVanishes(480, 640, 119, 159, 600, 10000, Point(50, 50));
  }
}
