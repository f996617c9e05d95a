/** The breadth-first blob filter of the image kernel: label every 4-connected
    blob, record its size, and blacken the pixels of blobs below `minSize`.
    `maxLabels` is the length of the size table (10000 in the program). */
module Blobs {
  import opened Image
  import opened Connectivity

  // ---------------------------------------------------------------- meaning

  /** The pixels whose blob has at least `minSize` pixels. */
  ghost function KeepLarge(white: set<Point>, minSize: int): set<Point> {
    set p | p in white && |Component(white, p)| >= minSize
  }

  /** What the filter leaves white. With more than `maxLabels - 2` blobs the
      size table is full before the scan ends and nothing is removed. */
  ghost function Filtered(white: set<Point>, minSize: int, maxLabels: int): set<Point> {
    if |Components(white)| <= maxLabels - 2 then KeepLarge(white, minSize) else white
  }

  // ------------------------------------------------------- label map contents

  /** `labels` holds k + 1 exactly on the pixels of parts[k], |parts| + 1 exactly
      on the pixels of `found`, and 0 elsewhere. */
  ghost predicate Paints(labels: array2<int>, parts: seq<set<Point>>, found: set<Point>)
    reads labels
  {
    && (forall p :: p in found ==> InImage(labels.Length0, labels.Length1, p))
    && (forall k, p :: 0 <= k < |parts| && p in parts[k] ==>
          InImage(labels.Length0, labels.Length1, p) && labels[p.y, p.x] == k + 1)
    && (forall p :: InImage(labels.Length0, labels.Length1, p) ==> LabelFits(labels[p.y, p.x], parts, found, p))
  }

  ghost predicate LabelFits(l: int, parts: seq<set<Point>>, found: set<Point>, p: Point) {
    && 0 <= l <= |parts| + 1
    && (0 < l <= |parts| ==> p in parts[l - 1])
    && (p in found <==> l == |parts| + 1)
  }

  /** Every part is a whole component of `white`. */
  ghost predicate WholeBlobs(white: set<Point>, parts: seq<set<Point>>) {
    forall k :: 0 <= k < |parts| ==> IsBlob(white, parts[k])
  }

  ghost predicate IsBlob(white: set<Point>, c: set<Point>) {
    exists p :: p in white && p in c && c == Component(white, p)
  }

  /** sizes[l] is the number of pixels labelled l. */
  ghost predicate SizesMatch(sizes: array<int>, parts: seq<set<Point>>)
    reads sizes
  {
    |parts| < sizes.Length && forall k :: 0 <= k < |parts| ==> sizes[k + 1] == |parts[k]|
  }

  lemma PaintsClose(labels: array2<int>, parts: seq<set<Point>>, found: set<Point>)
    requires Paints(labels, parts, found)
    ensures Paints(labels, parts + [found], {})
  {
  }

  // ------------------------------------------------------------- flood fill

  /** The 4-neighbours in the order the program lists them. */
  function Neighbour(p: Point, i: int): (q: Point)
    requires 0 <= i < 4
    ensures Adjacent(p, q)
  {
    if i == 0 then Point(p.x - 1, p.y)
    else if i == 1 then Point(p.x + 1, p.y)
    else if i == 2 then Point(p.x, p.y - 1)
    else Point(p.x, p.y + 1)
  }

  lemma NeighboursAreAdjacent(p: Point, q: Point)
    ensures Adjacent(p, q) <==> exists i :: 0 <= i < 4 && q == Neighbour(p, i)
  {
    assert q == Neighbour(p, 0) || q == Neighbour(p, 1) || q == Neighbour(p, 2) || q == Neighbour(p, 3)
      <==> Adjacent(p, q);
  }

  /** State of one breadth-first search: `found` is what has been labelled,
      `done` is what has been taken off the queue and expanded. */
  ghost predicate Flood(white: set<Point>, seed: Point, found: set<Point>, done: set<Point>) {
    && done <= found <= white
    && seed in found
    && (forall p :: p in found ==> Connected(white, seed, p))
    && (forall p, q :: p in done && q in white && Adjacent(p, q) ==> q in found)
  }

  /** The queue window holds what was found and not yet expanded. */
  ghost predicate Pending(found: set<Point>, done: set<Point>, window: seq<Point>) {
    && (forall p :: p in found ==> p in done || p in window)
    && (forall p :: p in window ==> p in found)
  }

  lemma FloodComplete(white: set<Point>, seed: Point, found: set<Point>, done: set<Point>)
    requires Flood(white, seed, found, done) && Pending(found, done, [])
    ensures found == Component(white, seed)
  {
    assert ClosedIn(white, found);
    ComponentUnique(white, found, seed);
  }

  lemma BlobKeepsNeighbours(white: set<Point>, c: set<Point>, p: Point, q: Point)
    requires IsBlob(white, c) && p in white && q in c && Adjacent(p, q)
    ensures p in c
  {
    var r :| r in white && r in c && c == Component(white, r);
    ComponentClosed(white, r);
    assert Adjacent(q, p);
  }

  /** A white neighbour that already carries a label carries this blob's label. */
  lemma LabelledNeighbour(white: set<Point>, labels: array2<int>, parts: seq<set<Point>>,
                          found: set<Point>, p: Point, q: Point)
    requires Paints(labels, parts, found) && WholeBlobs(white, parts)
    requires p in found && p in white && Adjacent(p, q)
    requires InImage(labels.Length0, labels.Length1, q) && labels[q.y, q.x] != 0
    ensures q in found
  {
    var k := labels[q.y, q.x] - 1;
    assert LabelFits(labels[q.y, q.x], parts, found, q);
    assert LabelFits(labels[p.y, p.x], parts, found, p);
    if k < |parts| {
      BlobKeepsNeighbours(white, parts[k], p, q);
    }
  }

  /** A queue of HEIGHT * WIDTH entries cannot overflow: an unlabelled white pixel is one more. */
  lemma QueueHasRoom(h: nat, w: nat, found: set<Point>, n: Point)
    requires found <= Grid(h, w) && n in Grid(h, w) && n !in found
    ensures |found| < h * w
  {
    GridSize(h, w);
    SubsetSize(found + {n}, Grid(h, w));
  }

  /** Label one unlabelled pixel and append it to the queue. */
  method Discover(labels: array2<int>, queue: array<Point>, n: Point, current: int, start: nat, end: nat,
                  ghost parts: seq<set<Point>>, ghost found: set<Point>, ghost done: set<Point>)
    requires start <= end < queue.Length && current == |parts| + 1
    requires Paints(labels, parts, found) && Pending(found, done, queue[start..end])
    requires InImage(labels.Length0, labels.Length1, n) && labels[n.y, n.x] == 0
    modifies labels, queue
    ensures Paints(labels, parts, found + {n}) && n !in found
    ensures Pending(found + {n}, done, queue[start..end + 1])
  {
    assert LabelFits(labels[n.y, n.x], parts, found, n);
    ghost var window := queue[start..end];
    labels[n.y, n.x] := current;
    queue[end] := n;
    assert queue[start..end + 1] == window + [n];
  }

  /** One search in progress: `done` is fully expanded, `taken` is `done` plus
      the pixel being expanded, and queue[start..end] is what is left to do. */
  ghost predicate Searching(white: set<Point>, labels: array2<int>, queue: array<Point>,
                            parts: seq<set<Point>>, seed: Point, found: set<Point>, done: set<Point>,
                            taken: set<Point>, start: nat, end: nat)
    reads labels, queue
  {
    && queue.Length == labels.Length0 * labels.Length1
    && start <= end <= queue.Length && end == |found|
    && white <= Grid(labels.Length0, labels.Length1)
    && WholeBlobs(white, parts)
    && Paints(labels, parts, found)
    && Flood(white, seed, found, done)
    && Pending(found, taken, queue[start..end])
  }

  lemma Unlabelled(white: set<Point>, labels: array2<int>, queue: array<Point>, parts: seq<set<Point>>, seed: Point,
                   found: set<Point>, done: set<Point>, p: Point, n: Point, start: nat, end: nat)
    requires Searching(white, labels, queue, parts, seed, found, done, done + {p}, start, end)
    requires p in found && Adjacent(p, n) && n in white && labels[n.y, n.x] == 0
    ensures end < queue.Length && n !in found && Connected(white, seed, n)
  {
    assert LabelFits(labels[n.y, n.x], parts, found, n);
    QueueHasRoom(labels.Length0, labels.Length1, found, n);
    ConnectedStep(white, seed, p, n);
  }

  /** Label and queue an unlabelled white neighbour. */
  method VisitNew(labels: array2<int>, queue: array<Point>, p: Point, n: Point, current: int, start: nat, end: nat,
                  ghost white: set<Point>, ghost parts: seq<set<Point>>, ghost seed: Point,
                  ghost found: set<Point>, ghost done: set<Point>)
    requires Searching(white, labels, queue, parts, seed, found, done, done + {p}, start, end)
    requires current == |parts| + 1 && p in found && Adjacent(p, n)
    requires n in white && labels[n.y, n.x] == 0
    modifies labels, queue
    ensures Searching(white, labels, queue, parts, seed, found + {n}, done, done + {p}, start, end + 1)
  {
    Unlabelled(white, labels, queue, parts, seed, found, done, p, n, start, end);
    FloodMore(white, seed, found, done, n);
    Discover(labels, queue, n, current, start, end, parts, found, done + {p});
  }

  lemma FloodMore(white: set<Point>, seed: Point, found: set<Point>, done: set<Point>, n: Point)
    requires Flood(white, seed, found, done) && n in white && Connected(white, seed, n)
    ensures Flood(white, seed, found + {n}, done)
  {
  }

  lemma AlreadyFound(white: set<Point>, labels: array2<int>, queue: array<Point>, parts: seq<set<Point>>, seed: Point,
                     found: set<Point>, done: set<Point>, p: Point, n: Point, start: nat, end: nat)
    requires Searching(white, labels, queue, parts, seed, found, done, done + {p}, start, end)
    requires p in found && Adjacent(p, n) && n in white && labels[n.y, n.x] != 0
    ensures n in found
  {
    LabelledNeighbour(white, labels, parts, found, p, n);
  }

  /** The body of the neighbour loop. */
  method Visit(mask: array2<Pixel>, labels: array2<int>, queue: array<Point>, p: Point, n: Point, current: int,
               start: nat, queueEnd: nat, ghost white: set<Point>, ghost parts: seq<set<Point>>, ghost seed: Point,
               ghost found: set<Point>, ghost done: set<Point>)
    returns (end: nat, ghost more: set<Point>)
    requires white == White(mask) && mask.Length0 == labels.Length0 && mask.Length1 == labels.Length1
    requires Searching(white, labels, queue, parts, seed, found, done, done + {p}, start, queueEnd)
    requires current == |parts| + 1 && p in found && Adjacent(p, n)
    modifies labels, queue
    ensures Searching(white, labels, queue, parts, seed, more, done, done + {p}, start, end)
    ensures queueEnd <= end <= queueEnd + 1 && found <= more && (n in white ==> n in more)
  {
    more, end := found, queueEnd;
    if n.x >= 0 && n.x < mask.Length1 && n.y >= 0 && n.y < mask.Length0 {
      if mask[n.y, n.x] != 0 {
        if labels[n.y, n.x] == 0 {
          VisitNew(labels, queue, p, n, current, start, end, white, parts, seed, found, done);
          end := end + 1;
          more := more + {n};
        } else {
          AlreadyFound(white, labels, queue, parts, seed, found, done, p, n, start, end);
        }
      }
    }
  }

  /** After pixel p left the queue, queue its unlabelled white neighbours. */
  method Expand(mask: array2<Pixel>, labels: array2<int>, queue: array<Point>, p: Point, current: int,
                start: nat, queueEnd: nat, sizeSoFar: nat,
                ghost white: set<Point>, ghost parts: seq<set<Point>>, ghost seed: Point,
                ghost found: set<Point>, ghost done: set<Point>)
    returns (end: nat, size: nat, ghost more: set<Point>)
    requires white == White(mask) && mask.Length0 == labels.Length0 && mask.Length1 == labels.Length1
    requires Searching(white, labels, queue, parts, seed, found, done, done + {p}, start, queueEnd)
    requires current == |parts| + 1 && p in found
    modifies labels, queue
    ensures Searching(white, labels, queue, parts, seed, more, done + {p}, done + {p}, start, end)
    ensures size - sizeSoFar == end - queueEnd
  {
    more, end, size := found, queueEnd, sizeSoFar;
    for i := 0 to 4
      invariant white == White(mask) && found <= more && size - sizeSoFar == end - queueEnd
      invariant Searching(white, labels, queue, parts, seed, more, done, done + {p}, start, end)
      invariant Reached(white, more, p, i)
    {
      var n := Neighbour(p, i);
      var previous := end;
      ghost var before := more;
      end, more := Visit(mask, labels, queue, p, n, current, start, end, white, parts, seed, more, done);
      size := size + (end - previous);
      ReachedMore(white, before, more, p, i);
    }
    FloodGrows(white, labels, queue, parts, seed, more, done, p, start, end);
  }

  ghost predicate Reached(white: set<Point>, found: set<Point>, p: Point, i: int) {
    forall j :: 0 <= j < i && j < 4 && Neighbour(p, j) in white ==> Neighbour(p, j) in found
  }

  lemma ReachedMore(white: set<Point>, found: set<Point>, more: set<Point>, p: Point, i: nat)
    requires Reached(white, found, p, i) && i < 4 && found <= more
    requires Neighbour(p, i) in white ==> Neighbour(p, i) in more
    ensures Reached(white, more, p, i + 1)
  {
  }

  lemma FloodGrows(white: set<Point>, labels: array2<int>, queue: array<Point>, parts: seq<set<Point>>, seed: Point,
                   found: set<Point>, done: set<Point>, p: Point, start: nat, end: nat)
    requires Searching(white, labels, queue, parts, seed, found, done, done + {p}, start, end)
    requires p in found && Reached(white, found, p, 4)
    ensures Searching(white, labels, queue, parts, seed, found, done + {p}, done + {p}, start, end)
  {
    forall q | q in white && Adjacent(p, q) ensures q in found {
      NeighboursAreAdjacent(p, q);
    }
  }

  /** Label the whole blob around an unlabelled white pixel. */
  method FloodFill(mask: array2<Pixel>, labels: array2<int>, queue: array<Point>, seed: Point, current: int,
                   ghost parts: seq<set<Point>>)
    returns (size: nat)
    requires mask.Length0 == labels.Length0 && mask.Length1 == labels.Length1
    requires queue.Length == mask.Length0 * mask.Length1
    requires current == |parts| + 1 && Paints(labels, parts, {}) && WholeBlobs(White(mask), parts)
    requires seed in White(mask) && labels[seed.y, seed.x] == 0
    modifies labels, queue
    ensures Paints(labels, parts + [Component(White(mask), seed)], {})
    ensures size == |Component(White(mask), seed)|
  {
    ghost var white := White(mask);
    ghost var found, done := {seed}, {};
    ConnectedSelf(white, seed);
    QueueHasRoom(labels.Length0, labels.Length1, {}, seed);
    Discover(labels, queue, seed, current, 0, 0, parts, {}, {});
    var start, end := 0, 1;
    size := 1;
    assert {} + {seed} == {seed};
    while start < end
      invariant White(mask) == white
      invariant Searching(white, labels, queue, parts, seed, found, done, done, start, end)
      invariant size == end
      decreases queue.Length - start
    {
      var p := queue[start];
      start := start + 1;
      TakeFromQueue(white, labels, queue, parts, seed, found, done, start, end);
      end, size, found := Expand(mask, labels, queue, p, current, start, end, size, white, parts, seed, found, done);
      done := done + {p};
    }
    FloodComplete(white, seed, found, done);
    PaintsClose(labels, parts, found);
  }

  lemma TakeFromQueue(white: set<Point>, labels: array2<int>, queue: array<Point>, parts: seq<set<Point>>, seed: Point,
                      found: set<Point>, done: set<Point>, start: nat, end: nat)
    requires 0 < start <= end
    requires Searching(white, labels, queue, parts, seed, found, done, done, start - 1, end)
    ensures Searching(white, labels, queue, parts, seed, found, done, done + {queue[start - 1]}, start, end)
    ensures queue[start - 1] in found
  {
  }

  // ------------------------------------------------------- labelling an image

  /** Pixel (x, y) comes before pixel p in scan order. */
  predicate Before(p: Point, y: int, x: int) {
    p.y < y || (p.y == y && p.x < x)
  }

  /** Progress of the raster scan: every white pixel already scanned is in a part. */
  ghost predicate Scanned(white: set<Point>, parts: seq<set<Point>>, y: int, x: int) {
    forall p :: p in white && Before(p, y, x) ==> exists k :: 0 <= k < |parts| && p in parts[k]
  }

  ghost predicate Labelling(white: set<Point>, labels: array2<int>, sizes: array<int>, parts: seq<set<Point>>)
    reads labels, sizes
  {
    Paints(labels, parts, {}) && WholeBlobs(white, parts) && SizesMatch(sizes, parts)
  }

  lemma ScanStep(white: set<Point>, labels: array2<int>, parts: seq<set<Point>>, p: Point)
    requires Paints(labels, parts, {}) && InImage(labels.Length0, labels.Length1, p)
    requires Scanned(white, parts, p.y, p.x)
    requires p !in white || labels[p.y, p.x] != 0
    ensures Scanned(white, parts, p.y, p.x + 1)
  {
  }

  lemma ScanGrows(white: set<Point>, parts: seq<set<Point>>, c: set<Point>, y: int, x: int)
    requires Scanned(white, parts, y, x)
    ensures Scanned(white, parts + [c], y, x)
  {
    forall p | p in white && Before(p, y, x)
      ensures exists k :: 0 <= k < |parts + [c]| && p in (parts + [c])[k]
    {
      var k :| 0 <= k < |parts| && p in parts[k];
      assert p in (parts + [c])[k];
    }
  }

  /** One new blob, its labels and its entry in the size table. */
  method LabelBlob(mask: array2<Pixel>, labels: array2<int>, sizes: array<int>, queue: array<Point>,
                   seed: Point, current: int, ghost parts: seq<set<Point>>)
    requires mask.Length0 == labels.Length0 && mask.Length1 == labels.Length1
    requires queue.Length == mask.Length0 * mask.Length1
    requires current == |parts| + 1 < sizes.Length && Labelling(White(mask), labels, sizes, parts)
    requires seed in White(mask) && labels[seed.y, seed.x] == 0
    modifies labels, sizes, queue
    ensures Labelling(White(mask), labels, sizes, parts + [Component(White(mask), seed)])
    ensures labels[seed.y, seed.x] == current
  {
    ghost var white := White(mask);
    var size := FloodFill(mask, labels, queue, seed, current, parts);
    sizes[current] := size;
    ghost var all := parts + [Component(white, seed)];
    ConnectedSelf(white, seed);
    assert IsBlob(white, all[|parts|]);
    assert forall k :: 0 <= k < |parts| ==> all[k] == parts[k];
  }

  /** Every pixel starts unlabelled. */
  method ClearLabels(labels: array2<int>)
    modifies labels
    ensures Paints(labels, [], {})
  {
    for y := 0 to labels.Length0
      invariant forall p :: InImage(labels.Length0, labels.Length1, p) && p.y < y ==> labels[p.y, p.x] == 0
    {
      for x := 0 to labels.Length1
        invariant forall p :: InImage(labels.Length0, labels.Length1, p) && Before(p, y, x) ==> labels[p.y, p.x] == 0
      {
        labels[y, x] := 0;
      }
    }
  }

  /** One pixel of the scan: if it is white and unlabelled, label its blob. */
  method ScanPixel(mask: array2<Pixel>, labels: array2<int>, sizes: array<int>, queue: array<Point>,
                   x: int, y: int, current: int, ghost parts: seq<set<Point>>)
    returns (next: int, ghost more: seq<set<Point>>)
    requires mask.Length0 == labels.Length0 && mask.Length1 == labels.Length1
    requires queue.Length == mask.Length0 * mask.Length1
    requires current == |parts| + 1 < sizes.Length && InImage(mask.Length0, mask.Length1, Point(x, y))
    requires Labelling(White(mask), labels, sizes, parts) && Scanned(White(mask), parts, y, x)
    modifies labels, sizes, queue
    ensures Labelling(White(mask), labels, sizes, more) && Scanned(White(mask), more, y, x + 1)
    ensures next == |more| + 1 <= sizes.Length
  {
    next, more := current, parts;
    if !(mask[y, x] == 0 || labels[y, x] != 0) {
      LabelBlob(mask, labels, sizes, queue, Point(x, y), current, parts);
      ScanGrows(White(mask), parts, Component(White(mask), Point(x, y)), y, x);
      more := more + [Component(White(mask), Point(x, y))];
      next := next + 1;
    }
    ScanStep(White(mask), labels, more, Point(x, y));
  }

  /** Scan the image and label blob after blob, giving up once
      the size table is full. */
  method LabelBlobs(mask: array2<Pixel>, labels: array2<int>, sizes: array<int>)
    returns (complete: bool, ghost parts: seq<set<Point>>)
    requires mask.Length0 == labels.Length0 && mask.Length1 == labels.Length1
    requires sizes.Length >= 2
    modifies labels, sizes
    ensures Labelling(White(mask), labels, sizes, parts)
    ensures complete ==> Scanned(White(mask), parts, mask.Length0, 0)
    ensures complete ==> |parts| <= sizes.Length - 2
    ensures !complete ==> |parts| == sizes.Length - 1
  {
    ClearLabels(labels);
    var queue := new Point[mask.Length0 * mask.Length1];
    var current := 1;
    parts := [];
    for y := 0 to mask.Length0
      invariant Labelling(White(mask), labels, sizes, parts) && Scanned(White(mask), parts, y, 0)
      invariant current == |parts| + 1 < sizes.Length
    {
      for x := 0 to mask.Length1
        invariant Labelling(White(mask), labels, sizes, parts) && Scanned(White(mask), parts, y, x)
        invariant current == |parts| + 1 < sizes.Length
      {
        current, parts := ScanPixel(mask, labels, sizes, queue, x, y, current, parts);
        if current >= sizes.Length {
          return false, parts;
        }
      }
    }
    return true, parts;
  }

  // --------------------------------------------------- counting and filtering

  ghost predicate DistinctParts(parts: seq<set<Point>>) {
    forall j, k :: 0 <= j < k < |parts| ==> parts[j] != parts[k]
  }

  lemma PaintsDistinct(white: set<Point>, labels: array2<int>, parts: seq<set<Point>>)
    requires Paints(labels, parts, {}) && WholeBlobs(white, parts)
    ensures DistinctParts(parts)
  {
  }

  ghost function Range(parts: seq<set<Point>>): set<set<Point>> {
    set k | 0 <= k < |parts| :: parts[k]
  }

  lemma {:induction false} RangeSize(parts: seq<set<Point>>)
    requires DistinctParts(parts)
    ensures |Range(parts)| == |parts|
  {
    if parts == [] {
      assert Range(parts) == {};
    } else {
      var n := |parts| - 1;
      RangeSize(parts[..n]);
      forall c ensures c in Range(parts) <==> c in Range(parts[..n]) || c in {parts[n]} {
        if c in Range(parts) {
          var k :| 0 <= k < |parts| && parts[k] == c;
          assert k < n ==> parts[..n][k] == c;
        }
      }
      assert parts[n] !in Range(parts[..n]);
      DisjointUnionSize(Range(parts[..n]), {parts[n]}, Range(parts));
    }
  }

  /** The blobs found so far are some of the components. */
  lemma PartsAreComponents(white: set<Point>, parts: seq<set<Point>>)
    requires WholeBlobs(white, parts)
    ensures Range(parts) <= Components(white)
  {
  }

  /** A complete scan has found them all. */
  lemma ScanFindsAll(white: set<Point>, parts: seq<set<Point>>, h: nat, w: nat)
    requires WholeBlobs(white, parts) && white <= Grid(h, w) && Scanned(white, parts, h, 0)
    ensures Range(parts) == Components(white)
  {
    PartsAreComponents(white, parts);
    forall p | p in white ensures Component(white, p) in Range(parts) {
      assert Before(p, h, 0);
      var k :| 0 <= k < |parts| && p in parts[k];
      PartIsComponent(white, parts, k, p);
    }
  }

  lemma PartIsComponent(white: set<Point>, parts: seq<set<Point>>, k: nat, p: Point)
    requires WholeBlobs(white, parts) && k < |parts| && p in parts[k]
    ensures p in white && parts[k] == Component(white, p)
  {
    assert IsBlob(white, parts[k]);
    var r :| r in white && r in parts[k] && parts[k] == Component(white, r);
    ComponentShared(white, r, p);
  }

  lemma PartOf(white: set<Point>, parts: seq<set<Point>>, h: nat, p: Point) returns (k: nat)
    requires Scanned(white, parts, h, 0) && p in white && p.y < h
    ensures k < |parts| && p in parts[k]
  {
    assert Before(p, h, 0);
    k :| 0 <= k < |parts| && p in parts[k];
  }

  /** After a complete scan, exactly the white pixels carry a label. */
  lemma LabelledIffWhite(white: set<Point>, labels: array2<int>, parts: seq<set<Point>>, p: Point)
    requires Paints(labels, parts, {}) && WholeBlobs(white, parts) && Scanned(white, parts, labels.Length0, 0)
    requires InImage(labels.Length0, labels.Length1, p)
    ensures p in white <==> labels[p.y, p.x] != 0
  {
  }

  /** Reading a pixel's label and looking its size up gives the size of its blob. */
  lemma LookedUpSize(white: set<Point>, labels: array2<int>, sizes: array<int>, parts: seq<set<Point>>, p: Point)
    requires Labelling(white, labels, sizes, parts) && Scanned(white, parts, labels.Length0, 0)
    requires InImage(labels.Length0, labels.Length1, p)
    ensures p in white <==> labels[p.y, p.x] != 0
    ensures p in white ==> 0 < labels[p.y, p.x] < sizes.Length && sizes[labels[p.y, p.x]] == |Component(white, p)|
  {
    LabelledIffWhite(white, labels, parts, p);
    var l := labels[p.y, p.x];
    assert LabelFits(l, parts, {}, p);
    if l != 0 {
      PartIsComponent(white, parts, l - 1, p);
      assert sizes[l - 1 + 1] == |parts[l - 1]|;
    }
  }

  /** Pixels of the same part are connected, pixels of disjoint parts are not. */
  lemma PartsDecide(white: set<Point>, parts: seq<set<Point>>, j: nat, k: nat, p: Point, q: Point)
    requires WholeBlobs(white, parts) && j < |parts| && k < |parts| && p in parts[j] && q in parts[k]
    requires j != k ==> parts[j] !! parts[k]
    ensures j == k <==> Connected(white, p, q)
  {
    PartIsComponent(white, parts, j, p);
    PartIsComponent(white, parts, k, q);
    assert q in white;
    assert q in parts[j] <==> Connected(white, p, q);
  }

  lemma PartsDisjoint(labels: array2<int>, parts: seq<set<Point>>, j: nat, k: nat)
    requires Paints(labels, parts, {}) && j < |parts| && k < |parts| && j != k
    ensures parts[j] !! parts[k]
  {
    forall p | p in parts[j] ensures p !in parts[k] {
      assert labels[p.y, p.x] == j + 1;
    }
  }

  /** After a complete labelling, two white pixels carry one label exactly when
      a 4-connected white path joins them. */
  lemma SameLabelIffConnected(white: set<Point>, labels: array2<int>, parts: seq<set<Point>>, p: Point, q: Point)
    requires Paints(labels, parts, {}) && WholeBlobs(white, parts)
    requires white <= Grid(labels.Length0, labels.Length1) && Scanned(white, parts, labels.Length0, 0)
    requires p in white && q in white
    ensures labels[p.y, p.x] == labels[q.y, q.x] <==> Connected(white, p, q)
  {
    var j := PartOf(white, parts, labels.Length0, p);
    var k := PartOf(white, parts, labels.Length0, q);
    if j != k {
      PartsDisjoint(labels, parts, j, k);
    }
    PartsDecide(white, parts, j, k, p, q);
  }

  /** The label map and the size table condemn exactly the pixels of `small`. */
  ghost predicate Condemns(labels: array2<int>, sizes: array<int>, minSize: int, small: set<Point>)
    reads labels, sizes
  {
    forall p :: InImage(labels.Length0, labels.Length1, p) ==>
      && 0 <= labels[p.y, p.x] < sizes.Length
      && (p in small <==> labels[p.y, p.x] != 0 && sizes[labels[p.y, p.x]] < minSize)
  }

  lemma LabellingCondemns(white: set<Point>, labels: array2<int>, sizes: array<int>, parts: seq<set<Point>>,
                          minSize: int)
    requires Labelling(white, labels, sizes, parts) && Scanned(white, parts, labels.Length0, 0)
    ensures Condemns(labels, sizes, minSize, white - KeepLarge(white, minSize))
  {
    forall p | InImage(labels.Length0, labels.Length1, p)
      ensures 0 <= labels[p.y, p.x] < sizes.Length
      ensures p in white - KeepLarge(white, minSize) <==> labels[p.y, p.x] != 0 && sizes[labels[p.y, p.x]] < minSize
    {
      LookedUpSize(white, labels, sizes, parts, p);
    }
  }

  ghost predicate ErasedBefore(mask: array2<Pixel>, original: map<Point, Pixel>, small: set<Point>, y: int, x: int)
    reads mask
  {
    forall p :: InImage(mask.Length0, mask.Length1, p) && p in original ==>
      mask[p.y, p.x] == if Before(p, y, x) && p in small then 0 else original[p]
  }

  ghost function Pixels(mask: array2<Pixel>): map<Point, Pixel>
    reads mask
  {
    map p | p in Grid(mask.Length0, mask.Length1) :: mask[p.y, p.x]
  }

  /** Blacken every pixel whose label has a small size. */
  method EraseSmall(mask: array2<Pixel>, labels: array2<int>, sizes: array<int>, minSize: int,
                    ghost white: set<Point>, ghost original: map<Point, Pixel>, ghost small: set<Point>)
    requires mask.Length0 == labels.Length0 && mask.Length1 == labels.Length1
    requires white == White(mask) && original == Pixels(mask) && Condemns(labels, sizes, minSize, small)
    modifies mask
    ensures White(mask) == white - small
    ensures forall p :: p in White(mask) ==> mask[p.y, p.x] == original[p]
  {
    for y := 0 to mask.Length0
      invariant ErasedBefore(mask, original, small, y, 0)
    {
      for x := 0 to mask.Length1
        invariant ErasedBefore(mask, original, small, y, x)
      {
        var l := labels[y, x];
        assert InImage(labels.Length0, labels.Length1, Point(x, y));
        if l != 0 && sizes[l] < minSize {
          mask[y, x] := 0;
        }
      }
    }
  }

  /** The whole filter: blobs below `minSize` go black and nothing else
      changes; when the size table fills up first, nothing changes at all. */
  method FilterSmallBlobs(mask: array2<Pixel>, minSize: int, maxLabels: nat)
    requires maxLabels >= 2
    modifies mask
    ensures White(mask) == Filtered(old(White(mask)), minSize, maxLabels)
    ensures forall p :: p in White(mask) ==> mask[p.y, p.x] == old(Pixels(mask))[p]
  {
    var labels := new int[mask.Length0, mask.Length1];
    var sizes := new int[maxLabels](_ => 0);
    LabelAndErase(mask, labels, sizes, minSize, White(mask), Pixels(mask), Filtered(White(mask), minSize, maxLabels));
  }

  method LabelAndErase(mask: array2<Pixel>, labels: array2<int>, sizes: array<int>, minSize: int,
                       ghost white: set<Point>, ghost original: map<Point, Pixel>, ghost result: set<Point>)
    requires mask.Length0 == labels.Length0 && mask.Length1 == labels.Length1 && sizes.Length >= 2
    requires white == White(mask) && original == Pixels(mask) && result == Filtered(white, minSize, sizes.Length)
    modifies mask, labels, sizes
    ensures White(mask) == result
    ensures forall p :: p in White(mask) ==> mask[p.y, p.x] == original[p]
  {
    var complete, parts := LabelBlobs(mask, labels, sizes);
    ghost var small := Outcome(white, labels, sizes, parts, complete, minSize);
    if complete {
      EraseSmall(mask, labels, sizes, minSize, white, original, small);
    }
  }

  lemma Outcome(white: set<Point>, labels: array2<int>, sizes: array<int>, parts: seq<set<Point>>,
                complete: bool, minSize: int)
    returns (small: set<Point>)
    requires Labelling(white, labels, sizes, parts) && white <= Grid(labels.Length0, labels.Length1)
    requires complete ==> Scanned(white, parts, labels.Length0, 0) && |parts| <= sizes.Length - 2
    requires !complete ==> |parts| == sizes.Length - 1
    ensures complete ==> Condemns(labels, sizes, minSize, small)
    ensures Filtered(white, minSize, sizes.Length) == if complete then white - small else white
  {
    small := white - KeepLarge(white, minSize);
    assert white - small == KeepLarge(white, minSize);
    CountBlobs(white, labels, parts, complete);
    if complete {
      LabellingCondemns(white, labels, sizes, parts, minSize);
    }
  }

  /** Labels are used one per component. */
  lemma CountBlobs(white: set<Point>, labels: array2<int>, parts: seq<set<Point>>, complete: bool)
    requires Paints(labels, parts, {}) && WholeBlobs(white, parts) && white <= Grid(labels.Length0, labels.Length1)
    requires complete ==> Scanned(white, parts, labels.Length0, 0)
    ensures |parts| <= |Components(white)|
    ensures complete ==> |parts| == |Components(white)|
  {
    PaintsDistinct(white, labels, parts);
    RangeSize(parts);
    PartsAreComponents(white, parts);
    SubsetSize(Range(parts), Components(white));
    if complete {
      ScanFindsAll(white, parts, labels.Length0, labels.Length1);
    }
  }

  // ------------------------------------------------------------ consequences

  /** Large blobs keep their exact shape when the small ones go. */
  lemma KeptBlobUnchanged(white: set<Point>, minSize: int, p: Point)
    requires p in KeepLarge(white, minSize)
    ensures Component(KeepLarge(white, minSize), p) == Component(white, p)
  {
    var kept := KeepLarge(white, minSize);
    forall q, r | q in kept && r in white && Adjacent(q, r) ensures r in kept {
      ConnectedSelf(white, q);
      ConnectedStep(white, q, q, r);
      ComponentShared(white, q, r);
    }
    ComponentSurvives(white, kept, p);
  }

  /** Running the filter again changes nothing, whether or not the table filled up. */
  lemma FilterTwice(white: set<Point>, minSize: int, maxLabels: int)
    ensures Filtered(Filtered(white, minSize, maxLabels), minSize, maxLabels) == Filtered(white, minSize, maxLabels)
  {
    if |Components(white)| <= maxLabels - 2 {
      var kept := KeepLarge(white, minSize);
      forall p | p in kept ensures Component(kept, p) == Component(white, p) {
        KeptBlobUnchanged(white, minSize, p);
      }
      assert Components(kept) <= Components(white);
      SubsetSize(Components(kept), Components(white));
      assert KeepLarge(kept, minSize) == kept;
    }
  }

  /** The filter removes exactly the small blobs if and only if either the size
      table is long enough for every blob, or no blob is small. */
  lemma FilterMeetsIntent(white: set<Point>, minSize: int, maxLabels: int)
    ensures Filtered(white, minSize, maxLabels) == KeepLarge(white, minSize)
       <==> |Components(white)| <= maxLabels - 2 || forall c :: c in Components(white) ==> |c| >= minSize
  {
  }

  // ------------------------------------------------------- a table too short

  /** No two white pixels touch: every blob is a single pixel. */
  ghost predicate Isolated(s: set<Point>) {
    forall p, q :: p in s && q in s ==> !Adjacent(p, q)
  }

  lemma IsolatedComponent(s: set<Point>, p: Point)
    requires Isolated(s) && p in s
    ensures Component(s, p) == {p}
  {
    ConnectedSelf(s, p);
    ComponentUnique(s, {p}, p);
  }

  /** Isolated pixels are as many blobs. */
  lemma IsolatedBlobs(s: set<Point>)
    requires Isolated(s)
    ensures |Components(s)| == |s|
  {
    forall p | p in s ensures Component(s, p) == {p} {
      IsolatedComponent(s, p);
    }
    ImageSize(s, (p: Point) => {p}, Components(s));
  }

  /** The pixels spread out to even coordinates, where none touch. */
  ghost function Spread(s: set<Point>): set<Point> {
    set p | p in s :: Point(2 * p.x, 2 * p.y)
  }

  lemma SpreadSize(s: set<Point>)
    ensures |Spread(s)| == |s|
  {
    ImageSize(s, (p: Point) => Point(2 * p.x, 2 * p.y), Spread(s));
  }

  /** Images with one blob too many exist for every table length up to a quarter
      of the image's pixels: all blobs are small and every one of them stays. For
      480 x 640 pixels that is 76801, well above the program's 10000. */
  lemma TableOverflowIsReached(h: nat, w: nat, minSize: int, maxLabels: int) returns (white: set<Point>)
    requires minSize >= 2 && 2 <= maxLabels <= h * w + 1
    ensures white <= Grid(2 * h, 2 * w) && |white| == |Components(white)| == maxLabels - 1
    ensures Filtered(white, minSize, maxLabels) == white && KeepLarge(white, minSize) == {}
  {
    GridSize(h, w);
    var points := SubsetOfSize(Grid(h, w), maxLabels - 1);
    white := Spread(points);
    SpreadSize(points);
    IsolatedBlobs(white);
    forall p | p in white ensures |Component(white, p)| == 1 {
      IsolatedComponent(white, p);
    }
  }
}
