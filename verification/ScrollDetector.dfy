/** Vertical scroll detection by row hashes, src/codec/omni/scroll_detector.cpp, and what a
    COPY tile shows when it is trusted. */
module ScrollDetection {
  import opened Words
  import opened Arithmetic
  import opened Frames
  import opened Color
  import opened OmniFormat

  /** The row and tile hashes: any function of the pixels. */
  type Hash = seq<Pixel> -> int

  const MAX_SCROLL_DISTANCE := 512

  /** `matches` out of `rows` rows agree; the confidence of the source is their quotient. */
  datatype ScrollResult = ScrollResult(detected: bool, mvX: int, mvY: int, confidence: real)

  const NOT_SCROLLED := ScrollResult(false, 0, 0, 0.0)

  function RowPixels(frame: seq<Pixel>, g: Grid, y: nat): (row: seq<Pixel>)
    requires |frame| == g.Area() && y < g.height
    ensures |row| == g.width
  {
    RowBounds(g, y);
    frame[y * g.width..(y + 1) * g.width]
  }

  lemma RowBounds(g: Grid, y: nat)
    requires y < g.height
    ensures 0 <= y * g.width <= (y + 1) * g.width <= g.Area() && (y + 1) * g.width == y * g.width + g.width
  {
    MulMonotone(y + 1, g.height, g.width);
    MulMonotone(0, y, g.width);
  }

  function RowHashes(hash: Hash, frame: seq<Pixel>, g: Grid): (hs: seq<int>)
    requires |frame| == g.Area()
    ensures |hs| == g.height
  {
    seq(g.height, y requires 0 <= y < g.height => hash(RowPixels(frame, g, y)))
  }

  /** Hashes of the h rows from py on; rows below the frame keep the initial zero. */
  function TileRowHashes(hash: Hash, frame: seq<Pixel>, g: Grid, py: nat, h: nat): (hs: seq<int>)
    requires |frame| == g.Area()
    ensures |hs| == h
  {
    seq(h, y requires 0 <= y < h => if py + y < g.height then hash(RowPixels(frame, g, py + y)) else 0)
  }

  predicate Hit(cur: seq<int>, ref: seq<int>, py: nat, dy: int, y: nat)
    requires y < |cur|
  {
    0 <= py + y + dy < |ref| && cur[y] == ref[py + y + dy]
  }

  function Matches(cur: seq<int>, ref: seq<int>, py: nat, dy: int, n: nat): (m: nat)
    requires n <= |cur|
    ensures m <= n
  {
    if n == 0 then 0
    else Matches(cur, ref, py, dy, n - 1) + (if Hit(cur, ref, py, dy, n - 1) then 1 else 0)
  }

  datatype Best = Best(offset: int, matches: nat)

  function Better(b: Best, dy: int, matches: nat): Best
  {
    if dy != 0 && matches > b.matches then Best(dy, matches) else b
  }

  /** The best of the offsets before dy. */
  function Search(cur: seq<int>, ref: seq<int>, py: nat, dy: int): (b: Best)
    requires -MAX_SCROLL_DISTANCE <= dy
    ensures b.matches <= |cur|
    decreases dy + MAX_SCROLL_DISTANCE
  {
    if dy == -MAX_SCROLL_DISTANCE then Best(0, 0)
    else Better(Search(cur, ref, py, dy - 1), dy - 1, Matches(cur, ref, py, dy - 1, |cur|))
  }

  predicate Enough(matches: nat, rows: nat) { 4 * matches >= 3 * rows && matches >= 4 }

  function Judged(b: Best, rows: nat): ScrollResult
  {
    var confidence := b.matches as real / Max(rows, 1) as real;
    if confidence >= 0.75 && b.matches >= 4 then ScrollResult(true, 0, ToI16(b.offset), confidence) else NOT_SCROLLED
  }

  function Scroll(cur: seq<int>, ref: seq<int>, py: nat): ScrollResult
  {
    Judged(Search(cur, ref, py, MAX_SCROLL_DISTANCE + 1), |cur|)
  }

  predicate Offset(dy: int) { -MAX_SCROLL_DISTANCE <= dy <= MAX_SCROLL_DISTANCE && dy != 0 }

  /** The search finds the first of the best offsets, if any offset matches a row at all. */
  lemma {:induction false} SearchFindsBest(cur: seq<int>, ref: seq<int>, py: nat, end: int)
    requires -MAX_SCROLL_DISTANCE <= end <= MAX_SCROLL_DISTANCE + 1
    ensures var b := Search(cur, ref, py, end);
      && (forall dy :: -MAX_SCROLL_DISTANCE <= dy < end && dy != 0 ==> Matches(cur, ref, py, dy, |cur|) <= b.matches)
      && (b.matches > 0 ==> Offset(b.offset) && b.offset < end && Matches(cur, ref, py, b.offset, |cur|) == b.matches)
      && (b.matches > 0 ==>
            forall dy :: -MAX_SCROLL_DISTANCE <= dy < b.offset && dy != 0 ==>
              Matches(cur, ref, py, dy, |cur|) < b.matches)
    decreases end + MAX_SCROLL_DISTANCE
  {
    if end > -MAX_SCROLL_DISTANCE {
      SearchFindsBest(cur, ref, py, end - 1);
    }
  }

  lemma ConfidenceIsQuarters(matches: nat, rows: nat)
    requires matches <= rows
    ensures matches as real / Max(rows, 1) as real >= 0.75 && matches >= 4 <==> Enough(matches, rows)
  {
    if rows > 0 {
      Quarters(matches as real, rows as real);
    }
  }

  lemma Quarters(m: real, n: real)
    requires n > 0.0
    ensures m / n >= 0.75 <==> 4.0 * m >= 3.0 * n
  {
    assert m / n >= 0.75 <==> m / n * n >= 0.75 * n;
  }

  predicate Accepted(cur: seq<int>, ref: seq<int>, py: nat, dy: int)
  {
    Offset(dy) && Enough(Matches(cur, ref, py, dy, |cur|), |cur|)
  }

  /** The first of the offsets that match most rows. */
  ghost predicate FirstBest(cur: seq<int>, ref: seq<int>, py: nat, best: int)
  {
    var m := Matches(cur, ref, py, best, |cur|);
    && (forall dy :: Offset(dy) ==> Matches(cur, ref, py, dy, |cur|) <= m)
    && (forall dy :: Offset(dy) && dy < best ==> Matches(cur, ref, py, dy, |cur|) < m)
  }

  lemma SearchFindsFirstBest(cur: seq<int>, ref: seq<int>, py: nat, b: Best)
    requires b == Search(cur, ref, py, MAX_SCROLL_DISTANCE + 1)
    ensures forall dy :: Offset(dy) ==> Matches(cur, ref, py, dy, |cur|) <= b.matches
    ensures b.matches > 0 ==>
      Offset(b.offset) && FirstBest(cur, ref, py, b.offset) && Matches(cur, ref, py, b.offset, |cur|) == b.matches
  {
    SearchFindsBest(cur, ref, py, MAX_SCROLL_DISTANCE + 1);
  }

  lemma JudgedWhenEnough(b: Best, rows: nat)
    requires b.matches <= rows && (b.matches > 0 ==> Offset(b.offset))
    ensures Judged(b, rows).detected <==> Enough(b.matches, rows)
    ensures Judged(b, rows).detected ==> Judged(b, rows).mvX == 0 && Judged(b, rows).mvY == b.offset
  {
    ConfidenceIsQuarters(b.matches, rows);
  }

  lemma AcceptedMeansEnough(cur: seq<int>, ref: seq<int>, py: nat, b: Best, dy: int)
    requires forall o :: Offset(o) ==> Matches(cur, ref, py, o, |cur|) <= b.matches
    requires Accepted(cur, ref, py, dy)
    ensures Enough(b.matches, |cur|)
  {
    assert Matches(cur, ref, py, dy, |cur|) <= b.matches;
  }

  lemma BestIsAccepted(cur: seq<int>, ref: seq<int>, py: nat, b: Best)
    requires b == Search(cur, ref, py, MAX_SCROLL_DISTANCE + 1)
    ensures Enough(b.matches, |cur|) <==> exists dy :: Accepted(cur, ref, py, dy)
    ensures Enough(b.matches, |cur|) ==> Accepted(cur, ref, py, b.offset) && FirstBest(cur, ref, py, b.offset)
  {
    SearchFindsFirstBest(cur, ref, py, b);
    forall dy | Accepted(cur, ref, py, dy)
      ensures Enough(b.matches, |cur|)
    {
      AcceptedMeansEnough(cur, ref, py, b, dy);
    }
    if Enough(b.matches, |cur|) {
      assert Accepted(cur, ref, py, b.offset);
    }
  }

  /** A scroll is reported exactly when some offset matches enough rows, and the offset reported
      is the first of those that match most. */
  lemma ScrollIsBest(cur: seq<int>, ref: seq<int>, py: nat, r: ScrollResult)
    requires r == Scroll(cur, ref, py)
    ensures r.detected <==> exists dy :: Accepted(cur, ref, py, dy)
    ensures r.detected ==> r.mvX == 0 && Accepted(cur, ref, py, r.mvY) && FirstBest(cur, ref, py, r.mvY)
  {
    var b := Search(cur, ref, py, MAX_SCROLL_DISTANCE + 1);
    SearchFindsFirstBest(cur, ref, py, b);
    BestIsAccepted(cur, ref, py, b);
    JudgedWhenEnough(b, |cur|);
  }

  /** The rows of the tile that the reference repeats dy rows further down. */
  ghost function Agreeing(cur: seq<int>, ref: seq<int>, py: nat, dy: int, n: nat): set<nat>
    requires n <= |cur|
  {
    set y: nat | y < n && 0 <= py + y + dy < |ref| && cur[y] == ref[py + y + dy]
  }

  lemma {:induction false} MatchesIsCount(cur: seq<int>, ref: seq<int>, py: nat, dy: int, n: nat)
    requires n <= |cur|
    ensures Matches(cur, ref, py, dy, n) == |Agreeing(cur, ref, py, dy, n)|
  {
    if n == 0 {
      assert Agreeing(cur, ref, py, dy, n) == {};
    } else {
      MatchesIsCount(cur, ref, py, dy, n - 1);
      var before := Agreeing(cur, ref, py, dy, n - 1);
      if Hit(cur, ref, py, dy, n - 1) {
        assert Agreeing(cur, ref, py, dy, n) == before + {n - 1};
      } else {
        assert Agreeing(cur, ref, py, dy, n) == before;
      }
    }
  }

  /** dy repeats at least four rows, and three quarters of them. */
  ghost predicate Repeats(cur: seq<int>, ref: seq<int>, py: nat, dy: int)
  {
    && -512 <= dy <= 512 && dy != 0
    && |Agreeing(cur, ref, py, dy, |cur|)| >= 4 && 4 * |Agreeing(cur, ref, py, dy, |cur|)| >= 3 * |cur|
  }

  /** The confidence is the share of rows that agree. */
  lemma ConfidenceMeans(cur: seq<int>, ref: seq<int>, py: nat, r: ScrollResult)
    requires r == Scroll(cur, ref, py) && r.detected
    ensures |cur| > 0 && r.confidence == |Agreeing(cur, ref, py, r.mvY, |cur|)| as real / |cur| as real
  {
    var b := Search(cur, ref, py, MAX_SCROLL_DISTANCE + 1);
    JudgedIs(b, |cur|, r);
    SearchFindsBest(cur, ref, py, MAX_SCROLL_DISTANCE + 1);
    MatchesIsCount(cur, ref, py, b.offset, |cur|);
  }

  lemma JudgedIs(b: Best, rows: nat, r: ScrollResult)
    requires r == Judged(b, rows) && r.detected && b.matches <= rows
    ensures rows > 0 && b.matches > 0 && r.confidence == b.matches as real / rows as real
    ensures -0x8000 <= b.offset < 0x8000 ==> r.mvY == b.offset
  {
  }

  lemma AcceptedMeans(cur: seq<int>, ref: seq<int>, py: nat, dy: int)
    ensures Accepted(cur, ref, py, dy) <==> Repeats(cur, ref, py, dy)
  {
    MatchesIsCount(cur, ref, py, dy, |cur|);
  }

  /** The search in plain terms: a scroll is reported if and only if the reference repeats the tile at
      some offset up to 512 rows away, and then at the first offset where it repeats most rows. */
  lemma ScrollExactly(cur: seq<int>, ref: seq<int>, py: nat, r: ScrollResult)
    requires r == Scroll(cur, ref, py)
    ensures r.detected <==> exists dy :: Repeats(cur, ref, py, dy)
    ensures r.detected ==> r.mvX == 0 && Repeats(cur, ref, py, r.mvY)
    ensures r.detected ==> forall dy :: -512 <= dy <= 512 && dy != 0 ==>
        |Agreeing(cur, ref, py, dy, |cur|)| <= |Agreeing(cur, ref, py, r.mvY, |cur|)|
        && (dy < r.mvY ==> |Agreeing(cur, ref, py, dy, |cur|)| < |Agreeing(cur, ref, py, r.mvY, |cur|)|)
  {
    ScrollIsBest(cur, ref, py, r);
    forall dy
      ensures Accepted(cur, ref, py, dy) <==> Repeats(cur, ref, py, dy)
      ensures Matches(cur, ref, py, dy, |cur|) == |Agreeing(cur, ref, py, dy, |cur|)|
    {
      AcceptedMeans(cur, ref, py, dy);
      MatchesIsCount(cur, ref, py, dy, |cur|);
    }
  }

  // ---- What a COPY tile shows ----

  /** Hashes of rows of the two frames agree only for equal rows. */
  ghost predicate NoRowCollision(hash: Hash, cur: seq<Pixel>, ref: seq<Pixel>, g: Grid)
    requires |cur| == g.Area() && |ref| == g.Area()
  {
    forall y, z ::
      0 <= y < g.height && 0 <= z < g.height && hash(RowPixels(cur, g, y)) == hash(RowPixels(ref, g, z)) ==>
      RowPixels(cur, g, y) == RowPixels(ref, g, z)
  }

  lemma RowPixel(frame: seq<Pixel>, g: Grid, y: nat, x: nat)
    requires |frame| == g.Area() && y < g.height && x < g.width
    ensures 0 <= y * g.width + x < g.Area() && RowPixels(frame, g, y)[x] == frame[y * g.width + x]
  {
    RowBounds(g, y);
  }

  /** A matched row is copied from inside the decoder's reference `shown`, whatever that holds, at
      the place where the encoder's reference holds the current frame's row. */
  lemma MatchedRow(hash: Hash, cur: seq<Pixel>, ref: seq<Pixel>, shown: seq<Pixel>, g: Grid, b: Box, dy: int, row: nat,
                   col: nat) returns (from: nat, at: nat)
    requires |cur| == |ref| == |shown| == g.Area() && Inside(b, g) && row < b.h && col < b.w
    requires NoRowCollision(hash, cur, ref, g)
    requires Hit(TileRowHashes(hash, cur, g, b.y, b.h), RowHashes(hash, ref, g), b.y, dy, row)
    ensures 0 <= b.y + row + dy < g.height && from == (b.y + row + dy) * g.width + (b.x + col) < g.Area()
    ensures at == (b.y + row) * g.width + (b.x + col) < g.Area()
    ensures CopiedPixel(shown, g, b, 0, dy, row, col) == shown[from] && ref[from] == cur[at]
  {
    var y, z := b.y + row, b.y + row + dy;
    assert RowPixels(cur, g, y) == RowPixels(ref, g, z);
    RowPixel(cur, g, y, b.x + col);
    RowPixel(ref, g, z, b.x + col);
    from, at := z * g.width + (b.x + col), y * g.width + (b.x + col);
  }

  lemma {:induction false} AllHit(cur: seq<int>, ref: seq<int>, py: nat, dy: int, n: nat, y: nat)
    requires y < n <= |cur| && Matches(cur, ref, py, dy, n) == n
    ensures Hit(cur, ref, py, dy, y)
  {
    if y < n - 1 {
      AllHit(cur, ref, py, dy, n - 1, y);
    }
  }

  lemma FullMatchAt(hash: Hash, cur: seq<Pixel>, ref: seq<Pixel>, shown: seq<Pixel>, g: Grid, b: Box, dy: int, i: nat,
                    row: nat, col: nat) returns (from: nat)
    requires |cur| == |ref| == |shown| == g.Area() && Inside(b, g) && i < b.w * b.h
    requires row < b.h && col < b.w && row == i / b.w && col == i % b.w
    requires NoRowCollision(hash, cur, ref, g)
    requires Matches(TileRowHashes(hash, cur, g, b.y, b.h), RowHashes(hash, ref, g), b.y, dy, b.h) == b.h
    ensures from < g.Area() && CopiedTile(shown, g, b, 0, dy)[i] == shown[from] && Cut(cur, g, b)[i] == ref[from]
  {
    AllHit(TileRowHashes(hash, cur, g, b.y, b.h), RowHashes(hash, ref, g), b.y, dy, b.h, row);
    var at;
    from, at := MatchedRow(hash, cur, ref, shown, g, b, dy, row, col);
    PixelAt(cur, shown, g, b, dy, i, row, col);
  }

  lemma PixelAt(cur: seq<Pixel>, shown: seq<Pixel>, g: Grid, b: Box, dy: int, i: nat, row: nat, col: nat)
    requires |cur| == g.Area() && |shown| == g.Area() && Inside(b, g) && i < b.w * b.h
    requires row < b.h && col < b.w && row == i / b.w && col == i % b.w
    ensures 0 <= (b.y + row) * g.width + (b.x + col) < g.Area()
    ensures CopiedTile(shown, g, b, 0, dy)[i] == CopiedPixel(shown, g, b, 0, dy, row, col)
    ensures Cut(cur, g, b)[i] == cur[(b.y + row) * g.width + (b.x + col)]
  {
    AtInFrame(g, b, i);
  }

  lemma RowAndColumn(b: Box, i: nat) returns (row: nat, col: nat)
    requires i < b.w * b.h
    ensures row < b.h && col < b.w && row == i / b.w && col == i % b.w
  {
    RowOf(b.w, b.h, i);
    row, col := i / b.w, i % b.w;
  }

  lemma FullMatchOf(hash: Hash, cur: seq<Pixel>, ref: seq<Pixel>, shown: seq<Pixel>, g: Grid, b: Box, dy: int, i: nat,
                    e: int)
    requires |cur| == |ref| == |shown| == g.Area() && Inside(b, g) && i < b.w * b.h && PictureNear(shown, ref, e)
    requires NoRowCollision(hash, cur, ref, g)
    requires Matches(TileRowHashes(hash, cur, g, b.y, b.h), RowHashes(hash, ref, g), b.y, dy, b.h) == b.h
    ensures PixelNear(CopiedTile(shown, g, b, 0, dy)[i], Cut(cur, g, b)[i], e)
  {
    var row, col := RowAndColumn(b, i);
    var from := FullMatchAt(hash, cur, ref, shown, g, b, dy, i, row, col);
  }

  /** When every row matches, the COPY tile is as near the current frame as the decoder's reference
      is to the encoder's: copying adds no error. */
  lemma FullMatchAddsNothing(hash: Hash, cur: seq<Pixel>, ref: seq<Pixel>, shown: seq<Pixel>, g: Grid, b: Box,
                             dy: int, e: int)
    requires |cur| == |ref| == |shown| == g.Area() && Inside(b, g) && PictureNear(shown, ref, e)
    requires NoRowCollision(hash, cur, ref, g)
    requires Matches(TileRowHashes(hash, cur, g, b.y, b.h), RowHashes(hash, ref, g), b.y, dy, b.h) == b.h
    ensures PictureNear(CopiedTile(shown, g, b, 0, dy), Cut(cur, g, b), e)
  {
    forall i | 0 <= i < b.w * b.h
      ensures PixelNear(CopiedTile(shown, g, b, 0, dy)[i], Cut(cur, g, b)[i], e)
    {
      FullMatchOf(hash, cur, ref, shown, g, b, dy, i, e);
    }
  }

  /** In particular it is exact when the decoder holds the opaque form of the encoder's reference,
      which is what a keyframe leaves. */
  lemma FullMatchIsExact(hash: Hash, cur: seq<Pixel>, ref: seq<Pixel>, g: Grid, b: Box, dy: int)
    requires |cur| == |ref| == g.Area() && Inside(b, g)
    requires NoRowCollision(hash, cur, ref, g)
    requires Matches(TileRowHashes(hash, cur, g, b.y, b.h), RowHashes(hash, ref, g), b.y, dy, b.h) == b.h
    ensures CopiedTile(OpaqueTile(ref), g, b, 0, dy) == OpaqueTile(Cut(cur, g, b))
  {
    NearIsOpaque(OpaqueTile(ref), ref);
    FullMatchAddsNothing(hash, cur, ref, OpaqueTile(ref), g, b, dy, 0);
    NearIsOpaque(CopiedTile(OpaqueTile(ref), g, b, 0, dy), Cut(cur, g, b));
  }

  /** Rows of a COPY tile that show the current frame within e. */
  ghost function RightRows(cur: seq<Pixel>, shown: seq<Pixel>, g: Grid, b: Box, dy: int, n: nat, e: int): nat
    requires |cur| == |shown| == g.Area() && Inside(b, g) && n <= b.h
  {
    if n == 0 then 0
    else RightRows(cur, shown, g, b, dy, n - 1, e) + (if RowIsRight(cur, shown, g, b, dy, n - 1, e) then 1 else 0)
  }

  ghost predicate RowIsRight(cur: seq<Pixel>, shown: seq<Pixel>, g: Grid, b: Box, dy: int, row: nat, e: int)
    requires |cur| == |shown| == g.Area() && Inside(b, g) && row < b.h
  {
    forall col :: 0 <= col < b.w ==> PixelIsRight(cur, shown, g, b, dy, row, col, e)
  }

  ghost predicate PixelIsRight(cur: seq<Pixel>, shown: seq<Pixel>, g: Grid, b: Box, dy: int, row: nat, col: nat, e: int)
    requires |cur| == |shown| == g.Area() && Inside(b, g) && row < b.h && col < b.w
  {
    Position(g.width, g.height, b.y + row, b.x + col);
    PixelNear(CopiedPixel(shown, g, b, 0, dy, row, col), cur[(b.y + row) * g.width + (b.x + col)], e)
  }

  lemma HitIsRight(hash: Hash, cur: seq<Pixel>, ref: seq<Pixel>, shown: seq<Pixel>, g: Grid, b: Box, dy: int,
                   row: nat, e: int)
    requires |cur| == |ref| == |shown| == g.Area() && Inside(b, g) && row < b.h && PictureNear(shown, ref, e)
    requires NoRowCollision(hash, cur, ref, g)
    requires Hit(TileRowHashes(hash, cur, g, b.y, b.h), RowHashes(hash, ref, g), b.y, dy, row)
    ensures RowIsRight(cur, shown, g, b, dy, row, e)
  {
    forall col | 0 <= col < b.w
      ensures PixelIsRight(cur, shown, g, b, dy, row, col, e)
    {
      var from, at := MatchedRow(hash, cur, ref, shown, g, b, dy, row, col);
    }
  }

  lemma {:induction false} MatchesAreRight(hash: Hash, cur: seq<Pixel>, ref: seq<Pixel>, shown: seq<Pixel>, g: Grid,
                                           b: Box, dy: int, n: nat, e: int)
    requires |cur| == |ref| == |shown| == g.Area() && Inside(b, g) && n <= b.h && PictureNear(shown, ref, e)
    requires NoRowCollision(hash, cur, ref, g)
    ensures Matches(TileRowHashes(hash, cur, g, b.y, b.h), RowHashes(hash, ref, g), b.y, dy, n)
         <= RightRows(cur, shown, g, b, dy, n, e)
  {
    if n > 0 {
      MatchesAreRight(hash, cur, ref, shown, g, b, dy, n - 1, e);
      if Hit(TileRowHashes(hash, cur, g, b.y, b.h), RowHashes(hash, ref, g), b.y, dy, n - 1) {
        HitIsRight(hash, cur, ref, shown, g, b, dy, n - 1, e);
      }
    }
  }

  /** A COPY tile that is sent shows at least three quarters of its rows as near the current frame
      as the decoder's reference is to the encoder's. */
  lemma CopyShowsThreeQuarters(hash: Hash, cur: seq<Pixel>, ref: seq<Pixel>, shown: seq<Pixel>, g: Grid, b: Box, e: int)
    requires |cur| == |ref| == |shown| == g.Area() && Inside(b, g) && PictureNear(shown, ref, e)
    requires NoRowCollision(hash, cur, ref, g)
    requires Scroll(TileRowHashes(hash, cur, g, b.y, b.h), RowHashes(hash, ref, g), b.y).detected
    ensures var mvY := Scroll(TileRowHashes(hash, cur, g, b.y, b.h), RowHashes(hash, ref, g), b.y).mvY;
      4 * RightRows(cur, shown, g, b, mvY, b.h, e) >= 3 * b.h
  {
    var hs, rs := TileRowHashes(hash, cur, g, b.y, b.h), RowHashes(hash, ref, g);
    ScrollIsBest(hs, rs, b.y, Scroll(hs, rs, b.y));
    MatchesAreRight(hash, cur, ref, shown, g, b, Scroll(hs, rs, b.y).mvY, b.h, e);
  }

  // ---- The class ----

  class ScrollDetector {
    const hash: Hash
    const g: Grid
    const refRowHashes: array<int>

    ghost predicate Valid() reads this { refRowHashes.Length == g.height }

    constructor (hash: Hash, g: Grid)
      ensures Valid() && this.hash == hash && this.g == g && fresh(refRowHashes)
      ensures forall y :: 0 <= y < g.height ==> refRowHashes[y] == 0
    {
      this.hash, this.g := hash, g;
      refRowHashes := new int[g.height](_ => 0);
    }

    method UpdateReference(frame: seq<Pixel>)
      requires Valid() && |frame| == g.Area()
      modifies refRowHashes
      ensures refRowHashes[..] == RowHashes(hash, frame, g)
    {
      for y := 0 to g.height
        invariant forall z :: 0 <= z < y ==> refRowHashes[z] == hash(RowPixels(frame, g, z))
      {
        RowBounds(g, y);
        refRowHashes[y] := hash(frame[y * g.width..(y + 1) * g.width]);
      }
    }

    method HashTileRows(frame: seq<Pixel>, py: nat, h: nat) returns (hashes: array<int>)
      requires |frame| == g.Area()
      ensures fresh(hashes) && hashes[..] == TileRowHashes(hash, frame, g, py, h)
    {
      hashes := new int[h](_ => 0);
      var y := 0;
      while y < h && py + y < g.height
        invariant 0 <= y <= h
        invariant forall z :: 0 <= z < y ==> hashes[z] == TileRowHashes(hash, frame, g, py, h)[z]
        invariant forall z :: y <= z < h ==> hashes[z] == 0
      {
        RowBounds(g, py + y);
        var row := frame[(py + y) * g.width..(py + y + 1) * g.width];
        assert row == RowPixels(frame, g, py + y);
        hashes[y] := hash(row);
        y := y + 1;
      }
    }

    method CountMatches(current: array<int>, py: nat, dy: int) returns (matches: nat)
      requires Valid()
      ensures matches == Matches(current[..], refRowHashes[..], py, dy, current.Length)
    {
      matches := 0;
      for y := 0 to current.Length
        invariant matches == Matches(current[..], refRowHashes[..], py, dy, y)
      {
        var refRow := py + y + dy;
        if 0 <= refRow < refRowHashes.Length && current[y] == refRowHashes[refRow] {
          matches := matches + 1;
        }
      }
    }

    method FindBest(current: array<int>, py: nat) returns (bestOffset: int, bestMatches: nat)
      requires Valid()
      ensures Best(bestOffset, bestMatches) == Search(current[..], refRowHashes[..], py, MAX_SCROLL_DISTANCE + 1)
    {
      bestOffset, bestMatches := 0, 0;
      for dy := -MAX_SCROLL_DISTANCE to MAX_SCROLL_DISTANCE + 1
        invariant Best(bestOffset, bestMatches) == Search(current[..], refRowHashes[..], py, dy)
      {
        if dy != 0 {
          var matches := CountMatches(current, py, dy);
          if matches > bestMatches {
            bestOffset, bestMatches := dy, matches;
          }
        }
      }
    }

    method DetectTileScroll(frame: seq<Pixel>, py: nat, tileH: nat) returns (result: ScrollResult)
      requires Valid() && |frame| == g.Area()
      ensures result == Scroll(TileRowHashes(hash, frame, g, py, tileH), refRowHashes[..], py)
    {
      var current := HashTileRows(frame, py, tileH);
      var bestOffset, bestMatches := FindBest(current, py);
      var confidence := bestMatches as real / Max(tileH, 1) as real;
      result := NOT_SCROLLED;
      if confidence >= 0.75 && bestMatches >= 4 {
        result := ScrollResult(true, 0, ToI16(bestOffset), confidence);
      }
    }
  }
}
