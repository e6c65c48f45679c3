/** Descrambling an image cut into tiles (internal/scraper/imagepuzzle.go), on
    flat pixel buffers: pixel (x, y) of an image `width` wide is element
    y * width + x. */
module ImagePuzzle {
  import opened Options
  import opened Sets

  datatype Pixel = RGBA(r: nat, g: nat, b: nat, a: nat)

  const WHITE := RGBA(255, 255, 255, 255)

  datatype Puzzle = Puzzle(hor: int, ver: int, multiply: int, matrix: seq<int>, flips: seq<int>)

  datatype Error =
    | MatrixNotSet
    | BadGrid
    | MatrixTooShort
    | BadImage
    | BadTile
    | OutOfRange(i: nat)

  datatype Image = Image(width: nat, height: nat, pix: seq<Pixel>)

  ghost predicate WellFormed(img: Image) { |img.pix| == img.width * img.height }

  /** NewImagePuzzle: every tile in its own place. */
  function NewImagePuzzle(hor: int, ver: int): (p: Puzzle)
    ensures p.hor == hor && p.ver == ver && p.multiply == 1
    ensures |p.matrix| == |p.flips| == if hor * ver < 0 then 0 else hor * ver
    ensures forall i :: 0 <= i < |p.matrix| ==> p.matrix[i] == i && Flip(p, i) == 0
  {
    var n := if hor * ver < 0 then 0 else hor * ver;
    Puzzle(hor, ver, 1, seq(n, i => i), seq(n, i => 0))
  }

  function Blocks(p: Puzzle): int { p.hor * p.ver }

  /** One side of a tile: `length` cut into `blocks`, rounded down to a multiple
      of `multiply`. */
  function BlockSide(length: nat, blocks: nat, multiply: int): nat
    requires blocks > 0
  {
    if multiply <= 1 then length / blocks
    else
      PositiveProduct(blocks, multiply);
      var tiles := length / (blocks * multiply);
      MulMono(0, tiles, multiply);
      tiles * multiply
  }

  function Flip(p: Puzzle, i: int): int { if 0 <= i < |p.flips| then p.flips[i] else 0 }

  /** Bit 0 of a flip mirrors horizontally, bit 1 vertically. */
  predicate FlipsX(flags: int) { flags % 2 == 1 }
  predicate FlipsY(flags: int) { flags / 2 % 2 == 1 }

  // ------------------------------------------------------------ arithmetic

  lemma PositiveProduct(a: int, b: int)
    requires a > 0 && b > 0
    ensures a * b > 0
  {
  }

  lemma MulMono(a: int, b: int, c: int)
    requires a <= b && c >= 0
    ensures a * c <= b * c
  {
  }

  /** x lies in the c-th stretch of length b exactly if x / b is c. */
  lemma Stretch(x: int, b: int, c: int)
    requires b > 0
    ensures c * b <= x < c * b + b <==> x / b == c
    ensures x / b == c ==> x % b == x - c * b
  {
    var q := x / b;
    assert x == q * b + x % b;
    if c * b <= x < c * b + b {
      if q < c { MulMono(q + 1, c, b); }
      if q > c { MulMono(c + 1, q, b); }
    }
  }

  /** The offset of a pixel, and the pixel back from its offset. */
  lemma Offset(w: nat, x: int, y: int)
    requires 0 <= x < w
    ensures (y * w + x) / w == y && (y * w + x) % w == x
  {
    Stretch(y * w + x, w, y);
  }

  lemma OffsetInside(w: nat, h: nat, x: int, y: int)
    requires 0 <= x < w && 0 <= y < h
    ensures 0 <= y * w + x < w * h
  {
    MulMono(0, y, w);
    MulMono(y + 1, h, w);
  }

  lemma PixelInside(w: nat, h: nat, k: int)
    requires 0 <= k < w * h
    ensures w > 0 && 0 <= k % w < w && 0 <= k / w < h && k / w * w + k % w == k
  {
    if w == 0 { assert false; }
    if k / w >= h { MulMono(h, k / w, w); }
  }

  /** The tiles fit the image: they never reach past its edge, whatever the
      rounding, so no tile copied is ever clipped. */
  lemma TilesFit(length: nat, blocks: nat, multiply: int, c: int)
    requires blocks > 0 && 0 <= c < blocks
    ensures var side := BlockSide(length, blocks, multiply);
            0 <= c * side && c * side + side <= blocks * side <= length
  {
    var side := BlockSide(length, blocks, multiply);
    MulMono(0, c, side);
    MulMono(c + 1, blocks, side);
    if multiply <= 1 {
      assert length / blocks * blocks <= length;
    } else {
      PositiveProduct(blocks, multiply);
      var q := length / (blocks * multiply);
      assert q * (blocks * multiply) <= length;
      assert blocks * side == q * (blocks * multiply);
    }
  }

  /** The tile side is a multiple of `multiply`, and the greatest that fits: one
      step more for every tile would not. */
  lemma SideIsGreatest(length: nat, blocks: nat, multiply: int)
    requires blocks > 0
    ensures var side, m := BlockSide(length, blocks, multiply), if multiply <= 1 then 1 else multiply;
            side % m == 0 && blocks * side <= length < blocks * (side + m)
  {
    if multiply <= 1 {
      var q := length / blocks;
      assert length == q * blocks + length % blocks;
      assert blocks * (q + 1) == q * blocks + blocks;
    } else {
      PositiveProduct(blocks, multiply);
      var step := blocks * multiply;
      var q := length / step;
      assert length == q * step + length % step;
      MulMono(0, q, multiply);
      Multiple(q, multiply);
      Regrouped(blocks, q, multiply);
      assert blocks * (q * multiply + multiply) == blocks * (q * multiply) + step;
    }
  }

  lemma Multiple(q: int, m: int)
    requires m > 0
    ensures q * m % m == 0
  {
    Stretch(q * m, m, q);
  }

  lemma Regrouped(a: int, b: int, c: int)
    ensures a * (b * c) == b * (a * c)
  {
  }

  /** A length the grid divides is cut up whole if no rounding is asked for. */
  lemma NothingLeftOver(length: nat, blocks: nat, multiply: int)
    requires blocks > 0 && multiply <= 1 && length % blocks == 0
    ensures blocks * BlockSide(length, blocks, multiply) == length
  {
    assert length == length / blocks * blocks + length % blocks;
  }

  /** The tiles cover a stretch that starts at the edge. */
  lemma TileNumber(x: int, side: nat, blocks: nat)
    requires 0 <= x < blocks * side
    ensures side > 0 && 0 <= x / side < blocks && x / side * side + x % side == x && 0 <= x % side < side
  {
    if side == 0 { assert false; }
    if x / side >= blocks { MulMono(blocks, x / side, side); }
  }

  lemma TileIndex(hor: nat, ver: nat, c: int, r: int)
    requires 0 <= c < hor && 0 <= r < ver
    ensures 0 <= r * hor + c < hor * ver
    ensures (r * hor + c) % hor == c && (r * hor + c) / hor == r
  {
    Offset(hor, c, r);
    OffsetInside(hor, ver, c, r);
  }

  lemma TileAddress(hor: nat, ver: nat, t: int)
    requires 0 <= t < hor * ver
    ensures hor > 0 && 0 <= t % hor < hor && 0 <= t / hor < ver && t / hor * hor + t % hor == t
  {
    PixelInside(hor, ver, t);
  }

  // --------------------------------------------------------- specification

  /** The tiles of an image `p` cuts up: sizes positive, and inside it. */
  ghost predicate Cuts(p: Puzzle, width: nat, height: nat) {
    && p.hor > 0 && p.ver > 0 && |p.matrix| >= Blocks(p)
    && BlockSide(width, p.hor, p.multiply) > 0 && BlockSide(height, p.ver, p.multiply) > 0
  }

  /** Pixel (u, v) of tile t. */
  function TilePixel(p: Puzzle, img: Image, t: int, u: int, v: int): Pixel
    requires WellFormed(img) && Cuts(p, img.width, img.height) && 0 <= t < Blocks(p)
    requires 0 <= u < BlockSide(img.width, p.hor, p.multiply)
    requires 0 <= v < BlockSide(img.height, p.ver, p.multiply)
  {
    var bw, bh := BlockSide(img.width, p.hor, p.multiply), BlockSide(img.height, p.ver, p.multiply);
    TileAddress(p.hor, p.ver, t);
    TilesFit(img.width, p.hor, p.multiply, t % p.hor);
    TilesFit(img.height, p.ver, p.multiply, t / p.hor);
    OffsetInside(img.width, img.height, t % p.hor * bw + u, t / p.hor * bh + v);
    img.pix[(t / p.hor * bh + v) * img.width + (t % p.hor * bw + u)]
  }

  /** Pixel (u, v) of tile t, mirrored as `flags` say. */
  function MirroredPixel(p: Puzzle, img: Image, t: int, u: int, v: int, flags: int): Pixel
    requires WellFormed(img) && Cuts(p, img.width, img.height) && 0 <= t < Blocks(p)
    requires 0 <= u < BlockSide(img.width, p.hor, p.multiply)
    requires 0 <= v < BlockSide(img.height, p.ver, p.multiply)
  {
    var bw, bh := BlockSide(img.width, p.hor, p.multiply), BlockSide(img.height, p.ver, p.multiply);
    TilePixel(p, img, t, if FlipsX(flags) then bw - 1 - u else u, if FlipsY(flags) then bh - 1 - v else v)
  }

  /** The last of the first n tiles sent to t. */
  function LastSource(matrix: seq<int>, n: nat, t: int): (r: Option<nat>)
    requires n <= |matrix|
    ensures r.Some? ==> r.value < n && matrix[r.value] == t
  {
    if n == 0 then None
    else if matrix[n - 1] == t then Some(n - 1)
    else LastSource(matrix, n - 1, t)
  }

  predicate InGrid(p: Puzzle, width: nat, height: nat, x: int, y: int)
    requires p.hor > 0 && p.ver > 0
  {
    0 <= x < p.hor * BlockSide(width, p.hor, p.multiply) && 0 <= y < p.ver * BlockSide(height, p.ver, p.multiply)
  }

  /** The tile a pixel of the grid lies in. */
  function TileAt(p: Puzzle, width: nat, height: nat, x: int, y: int): int
    requires Cuts(p, width, height)
  {
    y / BlockSide(height, p.ver, p.multiply) * p.hor + x / BlockSide(width, p.hor, p.multiply)
  }

  /** What pixel (x, y) is once the first n tiles are in place. */
  function Placed(p: Puzzle, img: Image, n: nat, x: int, y: int): Pixel
    requires WellFormed(img) && Cuts(p, img.width, img.height) && n <= Blocks(p)
  {
    if !InGrid(p, img.width, img.height, x, y) then WHITE
    else
      var bw, bh := BlockSide(img.width, p.hor, p.multiply), BlockSide(img.height, p.ver, p.multiply);
      match LastSource(p.matrix, n, TileAt(p, img.width, img.height, x, y))
      case None => WHITE
      case Some(i) => MirroredPixel(p, img, i, x % bw, y % bh, Flip(p, i))
  }

  function PlacedAt(p: Puzzle, img: Image, n: nat, k: nat): Pixel
    requires WellFormed(img) && Cuts(p, img.width, img.height) && n <= Blocks(p) && k < img.width * img.height
  {
    PixelInside(img.width, img.height, k);
    Placed(p, img, n, k % img.width, k / img.width)
  }

  /** The image a puzzle makes of another. */
  function Descrambled(p: Puzzle, img: Image): (r: Image)
    requires WellFormed(img) && Cuts(p, img.width, img.height)
    ensures WellFormed(r) && r.width == img.width && r.height == img.height
  {
    PositiveProduct(p.hor, p.ver);
    Image(img.width, img.height,
          seq(img.width * img.height, k requires 0 <= k < img.width * img.height => PlacedAt(p, img, Blocks(p), k)))
  }

  /** The first entry of the matrix that names no tile. */
  function FirstOutOfRange(matrix: seq<int>, blocks: int, i: nat): Option<nat>
    requires i <= blocks <= |matrix|
    decreases blocks - i
  {
    if i == blocks then None
    else if matrix[i] < 0 || matrix[i] >= blocks then Some(i)
    else FirstOutOfRange(matrix, blocks, i + 1)
  }

  /** Why an image cannot be descrambled, in the order the reasons are found. */
  function Problem(p: Puzzle, width: nat, height: nat): Option<Error> {
    if p.matrix == [] then Some(MatrixNotSet)
    else if p.hor <= 0 || p.ver <= 0 then Some(BadGrid)
    else if |p.matrix| < Blocks(p) then Some(MatrixTooShort)
    else if width == 0 || height == 0 then Some(BadImage)
    else if BlockSide(width, p.hor, p.multiply) == 0 || BlockSide(height, p.ver, p.multiply) == 0 then Some(BadTile)
    else
      PositiveProduct(p.hor, p.ver);
      match FirstOutOfRange(p.matrix, Blocks(p), 0)
      case None => None
      case Some(i) => Some(OutOfRange(i))
  }

  lemma {:induction false} OutOfRangeIsFirst(matrix: seq<int>, blocks: int, i: nat)
    requires i <= blocks <= |matrix|
    ensures var r := FirstOutOfRange(matrix, blocks, i);
            && (r.None? <==> forall k :: i <= k < blocks ==> 0 <= matrix[k] < blocks)
            && (r.Some? ==>
                  && i <= r.value < blocks && !(0 <= matrix[r.value] < blocks)
                  && forall k :: i <= k < r.value ==> 0 <= matrix[k] < blocks)
    decreases blocks - i
  {
    if i < blocks && 0 <= matrix[i] < blocks { OutOfRangeIsFirst(matrix, blocks, i + 1); }
  }

  /** What an image has to meet: a matrix with an entry in the grid for every
      tile of it, and tiles of a positive size. */
  lemma NoProblem(p: Puzzle, width: nat, height: nat)
    ensures Problem(p, width, height).None? <==>
              && p.hor > 0 && p.ver > 0 && 0 < p.hor * p.ver <= |p.matrix| && width > 0 && height > 0
              && BlockSide(width, p.hor, p.multiply) > 0 && BlockSide(height, p.ver, p.multiply) > 0
              && forall i :: 0 <= i < p.hor * p.ver ==> 0 <= p.matrix[i] < p.hor * p.ver
  {
    if p.hor > 0 && p.ver > 0 {
      PositiveProduct(p.hor, p.ver);
      if p.hor * p.ver <= |p.matrix| { OutOfRangeIsFirst(p.matrix, Blocks(p), 0); }
    }
  }

  // --------------------------------------------------------------- copying

  function Min(a: int, b: int): int { if a < b then a else b }

  /** How wide the tile is once both edges have clipped it. */
  function Clipped(width: nat, sx: nat, dx: nat, w: nat): int { Min(w, Min(width - sx, width - dx)) }

  function SourceRow(sy: nat, h: nat, flags: int, row: int): int {
    if FlipsY(flags) then sy + (h - 1 - row) else sy + row
  }

  function SourceColumn(sx: nat, cw: int, flags: int, column: int): int {
    if FlipsX(flags) then sx + (cw - 1 - column) else sx + column
  }

  /** Whether copying the first `rows` rows of a tile writes pixel (x, y). */
  predicate Written(width: nat, height: nat, sx: nat, sy: nat, dx: nat, dy: nat, w: nat, h: nat, flags: int,
                    rows: nat, x: int, y: int) {
    && dy <= y < dy + rows && y < height
    && 0 <= SourceRow(sy, h, flags, y - dy) < height
    && dx <= x < dx + Clipped(width, sx, dx, w)
  }

  /** The pixel copied to (x, y). */
  function Source(pixels: seq<Pixel>, width: nat, height: nat, sx: nat, sy: nat, dx: nat, dy: nat, w: nat, h: nat,
                  flags: int, x: int, y: int): Pixel
    requires |pixels| == width * height
    requires Written(width, height, sx, sy, dx, dy, w, h, flags, h, x, y)
  {
    var cw := Clipped(width, sx, dx, w);
    var column, row := SourceColumn(sx, cw, flags, x - dx), SourceRow(sy, h, flags, y - dy);
    OffsetInside(width, height, column, row);
    pixels[row * width + column]
  }

  /** Element k once the first `rows` rows of a tile are copied. */
  function Copied(before: seq<Pixel>, pixels: seq<Pixel>, width: nat, height: nat, sx: nat, sy: nat, dx: nat, dy: nat,
                  w: nat, h: nat, flags: int, rows: nat, k: nat): Pixel
    requires |before| == |pixels| == width * height && k < |before| && rows <= h
  {
    PixelInside(width, height, k);
    if Written(width, height, sx, sy, dx, dy, w, h, flags, rows, k % width, k / width)
    then Source(pixels, width, height, sx, sy, dx, dy, w, h, flags, k % width, k / width)
    else before[k]
  }

  /** Copies one row of a tile, mirrored if the flags say so. */
  method CopyRow(dst: array<Pixel>, src: array<Pixel>, dstStart: nat, srcStart: nat, width: nat, mirror: bool)
    requires dst != src && dstStart + width <= dst.Length && srcStart + width <= src.Length
    modifies dst
    ensures forall k :: 0 <= k < dst.Length ==>
              dst[k] == if dstStart <= k < dstStart + width
                        then src[if mirror then srcStart + (width - 1 - (k - dstStart)) else srcStart + (k - dstStart)]
                        else old(dst[k])
  {
    if mirror {
      for x := 0 to width
        invariant forall k :: 0 <= k < dst.Length ==>
                    dst[k] == if dstStart <= k < dstStart + x then src[srcStart + (width - 1 - (k - dstStart))]
                              else old(dst[k])
      {
        dst[dstStart + x] := src[srcStart + (width - 1 - x)];
      }
      return;
    }
    forall k | dstStart <= k < dstStart + width {
      dst[k] := src[srcStart + (k - dstStart)];
    }
  }

  /** `copyTile`: moves one tile, clipped at the image edge. */
  method CopyTile(dst: array<Pixel>, src: array<Pixel>, width: nat, height: nat,
                  sx: nat, sy: nat, dx: nat, dy: nat, w: nat, h: nat, flags: int)
    requires dst != src && dst.Length == src.Length == width * height
    modifies dst
    ensures forall k :: 0 <= k < dst.Length ==>
              dst[k] == Copied(old(dst[..]), src[..], width, height, sx, sy, dx, dy, w, h, flags, h, k)
  {
    ghost var pixels := src[..];
    for row := 0 to h
      invariant forall k :: 0 <= k < dst.Length ==>
                  dst[k] == Copied(old(dst[..]), pixels, width, height, sx, sy, dx, dy, w, h, flags, row, k)
    {
      var srcRow := if FlipsY(flags) then sy + (h - 1 - row) else sy + row;
      var dstRow := dy + row;
      if srcRow < 0 || srcRow >= height || dstRow < 0 || dstRow >= height {
        continue;
      }
      var clipped := w;
      if sx + clipped > width {
        clipped := width - sx;
      }
      if dx + clipped > width {
        clipped := width - dx;
      }
      if clipped <= 0 {
        continue;
      }
      OffsetInside(width, height, sx, srcRow);
      OffsetInside(width, height, sx + clipped - 1, srcRow);
      OffsetInside(width, height, dx, dstRow);
      OffsetInside(width, height, dx + clipped - 1, dstRow);
      ghost var before := dst[..];
      var dstStart, srcStart := dstRow * width + dx, srcRow * width + sx;
      CopyRow(dst, src, dstStart, srcStart, clipped, FlipsX(flags));
      forall k | 0 <= k < dst.Length
        ensures dst[k] == Copied(old(dst[..]), pixels, width, height, sx, sy, dx, dy, w, h, flags, row + 1, k)
      {
        PixelInside(width, height, k);
        RowOf(width, k, dstRow, dx, clipped);
        assert before[k] == Copied(old(dst[..]), pixels, width, height, sx, sy, dx, dy, w, h, flags, row, k);
      }
    }
  }

  /** The offsets of a stretch of one row are the pixels of that stretch. */
  lemma RowOf(width: nat, k: int, row: nat, x: nat, n: nat)
    requires width > 0 && x + n <= width
    ensures row * width + x <= k < row * width + x + n <==> k / width == row && x <= k % width < x + n
  {
    Stretch(k, width, row);
  }

  /** One tile of a puzzle, copied without clipping: exactly the pixels of the
      target tile change, to those of the mirrored source tile. */
  lemma TileCopied(p: Puzzle, img: Image, i: nat, x: int, y: int)
    requires WellFormed(img) && Cuts(p, img.width, img.height) && i < Blocks(p) && 0 <= p.matrix[i] < Blocks(p)
    requires 0 <= x < img.width && 0 <= y < img.height
    ensures var bw, bh := BlockSide(img.width, p.hor, p.multiply), BlockSide(img.height, p.ver, p.multiply);
            var sx, sy := i % p.hor * bw, i / p.hor * bh;
            var dx, dy := p.matrix[i] % p.hor * bw, p.matrix[i] / p.hor * bh;
            && sx >= 0 && sy >= 0 && dx >= 0 && dy >= 0
            && Clipped(img.width, sx, dx, bw) == bw
            && var written := Written(img.width, img.height, sx, sy, dx, dy, bw, bh, Flip(p, i), bh, x, y);
            && (written <==> InGrid(p, img.width, img.height, x, y)
                             && TileAt(p, img.width, img.height, x, y) == p.matrix[i])
            && (written ==> Source(img.pix, img.width, img.height, sx, sy, dx, dy, bw, bh, Flip(p, i), x, y)
                            == MirroredPixel(p, img, i, x % bw, y % bh, Flip(p, i)))
  {
    var bw, bh := BlockSide(img.width, p.hor, p.multiply), BlockSide(img.height, p.ver, p.multiply);
    var t := p.matrix[i];
    TileAddress(p.hor, p.ver, i);
    TileAddress(p.hor, p.ver, t);
    TilesFit(img.width, p.hor, p.multiply, i % p.hor);
    TilesFit(img.height, p.ver, p.multiply, i / p.hor);
    TilesFit(img.width, p.hor, p.multiply, t % p.hor);
    TilesFit(img.height, p.ver, p.multiply, t / p.hor);
    Stretch(x, bw, t % p.hor);
    Stretch(y, bh, t / p.hor);
    if InGrid(p, img.width, img.height, x, y) {
      TileNumber(x, bw, p.hor);
      TileNumber(y, bh, p.ver);
      TileIndex(p.hor, p.ver, x / bw, y / bh);
    }
  }

  /** `DeScramble`, between decoding and encoding. */
  method DeScramble(p: Puzzle, source: array<Pixel>, width: nat, height: nat)
    returns (error: Option<Error>, dst: array<Pixel>)
    requires source.Length == width * height
    ensures error == Problem(p, width, height)
    ensures error.None? ==>
              && Cuts(p, width, height) && fresh(dst)
              && dst[..] == Descrambled(p, Image(width, height, source[..])).pix
  {
    dst := source;
    if |p.matrix| == 0 {
      return Some(MatrixNotSet), dst;
    }
    var blocks := p.hor * p.ver;
    if p.hor <= 0 || p.ver <= 0 {
      return Some(BadGrid), dst;
    }
    if |p.matrix| < blocks {
      return Some(MatrixTooShort), dst;
    }
    if width <= 0 || height <= 0 {
      return Some(BadImage), dst;
    }
    var blockWidth, blockHeight := BlockSide(width, p.hor, p.multiply), BlockSide(height, p.ver, p.multiply);
    if blockWidth <= 0 || blockHeight <= 0 {
      return Some(BadTile), dst;
    }
    PositiveProduct(p.hor, p.ver);
    ghost var img := Image(width, height, source[..]);
    dst := new Pixel[width * height](_ => WHITE);
    for i := 0 to blocks
      invariant fresh(dst) && dst.Length == width * height
      invariant FirstOutOfRange(p.matrix, blocks, 0) == FirstOutOfRange(p.matrix, blocks, i)
      invariant forall k :: 0 <= k < dst.Length ==> dst[k] == PlacedAt(p, img, i, k)
    {
      var target := p.matrix[i];
      if target < 0 || target >= blocks {
        return Some(OutOfRange(i)), dst;
      }
      TileAddress(p.hor, p.ver, i);
      TileAddress(p.hor, p.ver, target);
      TileCopied(p, img, i, 0, 0);
      ghost var before := dst[..];
      CopyTile(dst, source, width, height, i % p.hor * blockWidth, i / p.hor * blockHeight,
               target % p.hor * blockWidth, target / p.hor * blockHeight, blockWidth, blockHeight, Flip(p, i));
      forall k | 0 <= k < dst.Length
        ensures dst[k] == PlacedAt(p, img, i + 1, k)
      {
        PixelInside(width, height, k);
        TileCopied(p, img, i, k % width, k / width);
        assert before[k] == PlacedAt(p, img, i, k);
      }
    }
    error := None;
  }

  // ---------------------------------------------------------- permutations

  /** The first n entries put every tile somewhere, no two in one place. */
  ghost predicate Permutes(matrix: seq<int>, n: nat) {
    && n <= |matrix|
    && (forall i :: 0 <= i < n ==> 0 <= matrix[i] < n)
    && (forall i, j :: 0 <= i < j < n ==> matrix[i] != matrix[j])
  }

  function Below(n: nat): (s: set<int>)
    ensures |s| == n && forall x :: x in s <==> 0 <= x < n
  {
    if n == 0 then {} else Below(n - 1) + {n - 1}
  }

  /** Every tile gets one: n different places below n are all of them. */
  lemma {:induction false} Images(matrix: seq<int>, n: nat, k: nat) returns (s: set<int>)
    requires Permutes(matrix, n) && k <= n
    ensures |s| == k && s <= Below(n) && forall t :: t in s ==> exists i :: 0 <= i < k && matrix[i] == t
    ensures forall i :: 0 <= i < k ==> matrix[i] in s
  {
    s := {};
    if k > 0 {
      var s' := Images(matrix, n, k - 1);
      s := s' + {matrix[k - 1]};
    }
  }

  lemma SourceExists(matrix: seq<int>, n: nat, t: int) returns (i: nat)
    requires Permutes(matrix, n) && 0 <= t < n
    ensures i < n && matrix[i] == t && LastSource(matrix, n, t) == Some(i)
  {
    var s := Images(matrix, n, n);
    if t !in s {
      Smaller(s, Below(n) - {t});
    }
    i :| 0 <= i < n && matrix[i] == t;
    FindsSource(matrix, n, i);
  }

  lemma {:induction false} FindsSource(matrix: seq<int>, n: nat, i: nat)
    requires n <= |matrix| && i < n && forall j :: i < j < n ==> matrix[j] != matrix[i]
    ensures LastSource(matrix, n, matrix[i]) == Some(i)
  {
    if i < n - 1 { FindsSource(matrix, n - 1, i); }
  }

  /** `scrambled` is `original` with its tile matrix[i] put, mirrored, at tile i. */
  ghost predicate Scrambles(p: Puzzle, original: Image, scrambled: Image)
    requires WellFormed(original) && WellFormed(scrambled)
    requires original.width == scrambled.width && original.height == scrambled.height
    requires Cuts(p, original.width, original.height) && Permutes(p.matrix, Blocks(p))
  {
    forall i, u, v ::
      0 <= i < Blocks(p) && 0 <= u < BlockSide(original.width, p.hor, p.multiply)
      && 0 <= v < BlockSide(original.height, p.ver, p.multiply) ==>
        MirroredPixel(p, scrambled, i, u, v, Flip(p, i)) == TilePixel(p, original, p.matrix[i], u, v)
  }

  /** A pixel of the grid is the pixel of its tile. */
  lemma GridPixel(p: Puzzle, img: Image, x: int, y: int)
    requires WellFormed(img) && Cuts(p, img.width, img.height) && InGrid(p, img.width, img.height, x, y)
    ensures var bw, bh := BlockSide(img.width, p.hor, p.multiply), BlockSide(img.height, p.ver, p.multiply);
            var t := TileAt(p, img.width, img.height, x, y);
            && 0 <= t < Blocks(p) && 0 <= x < img.width && 0 <= y < img.height
            && 0 <= y * img.width + x < |img.pix|
            && TilePixel(p, img, t, x % bw, y % bh) == img.pix[y * img.width + x]
  {
    var bw, bh := BlockSide(img.width, p.hor, p.multiply), BlockSide(img.height, p.ver, p.multiply);
    TileNumber(x, bw, p.hor);
    TileNumber(y, bh, p.ver);
    TileIndex(p.hor, p.ver, x / bw, y / bh);
    TilesFit(img.width, p.hor, p.multiply, x / bw);
    TilesFit(img.height, p.ver, p.multiply, y / bh);
    OffsetInside(img.width, img.height, x, y);
  }

  /** Pixel (x, y) of a descrambled image. */
  lemma DescrambledPixel(p: Puzzle, img: Image, x: int, y: int)
    requires WellFormed(img) && Cuts(p, img.width, img.height)
    requires 0 <= x < img.width && 0 <= y < img.height
    ensures 0 <= y * img.width + x < |img.pix|
    ensures Descrambled(p, img).pix[y * img.width + x] == Placed(p, img, Blocks(p), x, y)
  {
    OffsetInside(img.width, img.height, x, y);
    Offset(img.width, x, y);
  }

  /** Descrambling undoes the scrambling: every pixel of the grid is the
      original's, every pixel outside it white. */
  lemma DescramblingUndoesScrambling(p: Puzzle, original: Image, scrambled: Image, x: int, y: int)
    requires WellFormed(original) && WellFormed(scrambled)
    requires original.width == scrambled.width && original.height == scrambled.height
    requires Cuts(p, original.width, original.height) && Permutes(p.matrix, Blocks(p))
    requires Scrambles(p, original, scrambled)
    requires 0 <= x < original.width && 0 <= y < original.height
    ensures 0 <= y * original.width + x < |original.pix|
    ensures Descrambled(p, scrambled).pix[y * original.width + x] ==
            if InGrid(p, original.width, original.height, x, y) then original.pix[y * original.width + x]
            else RGBA(255, 255, 255, 255)
  {
    DescrambledPixel(p, scrambled, x, y);
    if InGrid(p, original.width, original.height, x, y) {
      GridPixel(p, original, x, y);
      var i := SourceExists(p.matrix, Blocks(p), TileAt(p, original.width, original.height, x, y));
      TileNumber(x, BlockSide(original.width, p.hor, p.multiply), p.hor);
      TileNumber(y, BlockSide(original.height, p.ver, p.multiply), p.ver);
    }
  }

  /** With no rounding asked for and an image the grid divides, no pixel is
      left outside: the whole original comes back. */
  lemma WholeImageComesBack(p: Puzzle, original: Image, scrambled: Image)
    requires WellFormed(original) && WellFormed(scrambled)
    requires original.width == scrambled.width && original.height == scrambled.height
    requires Cuts(p, original.width, original.height) && Permutes(p.matrix, Blocks(p))
    requires Scrambles(p, original, scrambled)
    requires p.multiply <= 1 && original.width % p.hor == 0 && original.height % p.ver == 0
    ensures Descrambled(p, scrambled) == original
  {
    hide Scrambles, Permutes, Descrambled, Cuts;
    assert p.hor > 0 && p.ver > 0 by { Grid(p, original.width, original.height); }
    NothingLeftOver(original.width, p.hor, p.multiply);
    NothingLeftOver(original.height, p.ver, p.multiply);
    var d := Descrambled(p, scrambled);
    forall k | 0 <= k < |original.pix| ensures d.pix[k] == original.pix[k] {
      PixelInside(original.width, original.height, k);
      DescramblingUndoesScrambling(p, original, scrambled, k % original.width, k / original.width);
    }
    assert d.pix == original.pix;
  }

  lemma Grid(p: Puzzle, width: nat, height: nat)
    requires Cuts(p, width, height)
    ensures p.hor > 0 && p.ver > 0
  {
  }

  /** `q` is the inverse of `p`: its matrix undoes p's, and each tile's flips
      have moved with it. */
  ghost predicate Inverts(p: Puzzle, q: Puzzle) {
    && Blocks(p) >= 0 && q.hor == p.hor && q.ver == p.ver && q.multiply == p.multiply
    && Permutes(p.matrix, Blocks(p)) && Permutes(q.matrix, Blocks(p))
    && forall i :: 0 <= i < Blocks(p) ==>
         && q.matrix[p.matrix[i]] == i
         && FlipsX(Flip(q, p.matrix[i])) == FlipsX(Flip(p, i))
         && FlipsY(Flip(q, p.matrix[i])) == FlipsY(Flip(p, i))
  }

  /** Pixel (u, v) of tile t of a puzzle's result is that of the tile sent
      there, mirrored. */
  lemma ResultPixel(p: Puzzle, img: Image, i: nat, u: int, v: int)
    requires WellFormed(img) && Cuts(p, img.width, img.height)
    requires i < Blocks(p) && Permutes(p.matrix, Blocks(p))
    requires 0 <= u < BlockSide(img.width, p.hor, p.multiply) && 0 <= v < BlockSide(img.height, p.ver, p.multiply)
    ensures TilePixel(p, Descrambled(p, img), p.matrix[i], u, v) == MirroredPixel(p, img, i, u, v, Flip(p, i))
  {
    var bw, bh := BlockSide(img.width, p.hor, p.multiply), BlockSide(img.height, p.ver, p.multiply);
    var t := p.matrix[i];
    var x, y := t % p.hor * bw + u, t / p.hor * bh + v;
    TileAddress(p.hor, p.ver, t);
    TilesFit(img.width, p.hor, p.multiply, t % p.hor);
    TilesFit(img.height, p.ver, p.multiply, t / p.hor);
    Stretch(x, bw, t % p.hor);
    Stretch(y, bh, t / p.hor);
    DescrambledPixel(p, img, x, y);
    FindsSource(p.matrix, Blocks(p), i);
    assert TileAt(p, img.width, img.height, x, y) == t;
  }

  /** Where each pixel goes, in numbers: tiles are numbered along the rows of
      the grid, tile i goes to place matrix[i], bit 0 of its flip turns its
      columns round and bit 1 its rows. */
  lemma PixelMoves(p: Puzzle, img: Image, i: nat, u: int, v: int)
    requires WellFormed(img) && Cuts(p, img.width, img.height)
    requires i < Blocks(p) && Permutes(p.matrix, Blocks(p))
    requires 0 <= u < BlockSide(img.width, p.hor, p.multiply) && 0 <= v < BlockSide(img.height, p.ver, p.multiply)
    ensures var w, h := BlockSide(img.width, p.hor, p.multiply), BlockSide(img.height, p.ver, p.multiply);
            var to, flip := p.matrix[i], if i < |p.flips| then p.flips[i] else 0;
            var x, y := to % p.hor * w + u, to / p.hor * h + v;
            var x', y' := i % p.hor * w + (if flip % 2 == 1 then w - 1 - u else u),
                          i / p.hor * h + (if flip % 4 >= 2 then h - 1 - v else v);
            && 0 <= y * img.width + x < |img.pix| && 0 <= y' * img.width + x' < |img.pix|
            && Descrambled(p, img).pix[y * img.width + x] == img.pix[y' * img.width + x']
  {
    var w, h := BlockSide(img.width, p.hor, p.multiply), BlockSide(img.height, p.ver, p.multiply);
    var flip := if i < |p.flips| then p.flips[i] else 0;
    var u', v' := if flip % 2 == 1 then w - 1 - u else u, if flip % 4 >= 2 then h - 1 - v else v;
    assert flip == Flip(p, i) && 0 <= u' < w && 0 <= v' < h;
    hide Descrambled, TilePixel, MirroredPixel, BlockSide, Cuts, WellFormed;
    ResultPixel(p, img, i, u, v);
    TilePixelAt(p, Descrambled(p, img), p.matrix[i], u, v);
    MirroredAt(p, img, i, u, v, flip);
    TilePixelAt(p, img, i, u', v');
  }

  lemma TilePixelAt(p: Puzzle, img: Image, t: int, u: int, v: int)
    requires WellFormed(img) && Cuts(p, img.width, img.height) && 0 <= t < Blocks(p)
    requires 0 <= u < BlockSide(img.width, p.hor, p.multiply) && 0 <= v < BlockSide(img.height, p.ver, p.multiply)
    ensures var w, h := BlockSide(img.width, p.hor, p.multiply), BlockSide(img.height, p.ver, p.multiply);
            && p.hor > 0
            && var k := (t / p.hor * h + v) * img.width + (t % p.hor * w + u);
               0 <= k < |img.pix| && TilePixel(p, img, t, u, v) == img.pix[k]
  {
    hide BlockSide;
    TileInside(p, img.width, img.height, t, u, v);
  }

  lemma MirroredAt(p: Puzzle, img: Image, t: int, u: int, v: int, flags: int)
    requires WellFormed(img) && Cuts(p, img.width, img.height) && 0 <= t < Blocks(p)
    requires 0 <= u < BlockSide(img.width, p.hor, p.multiply) && 0 <= v < BlockSide(img.height, p.ver, p.multiply)
    ensures var w, h := BlockSide(img.width, p.hor, p.multiply), BlockSide(img.height, p.ver, p.multiply);
            MirroredPixel(p, img, t, u, v, flags) ==
            TilePixel(p, img, t, if flags % 2 == 1 then w - 1 - u else u, if flags % 4 >= 2 then h - 1 - v else v)
  {
    hide BlockSide, TilePixel;
    assert FlipsY(flags) <==> flags % 4 >= 2;
  }

  lemma TileInside(p: Puzzle, width: nat, height: nat, t: int, u: int, v: int)
    requires Cuts(p, width, height) && 0 <= t < Blocks(p)
    requires 0 <= u < BlockSide(width, p.hor, p.multiply) && 0 <= v < BlockSide(height, p.ver, p.multiply)
    ensures var w, h := BlockSide(width, p.hor, p.multiply), BlockSide(height, p.ver, p.multiply);
            var x, y := t % p.hor * w + u, t / p.hor * h + v;
            0 <= x < width && 0 <= y < height && 0 <= y * width + x < width * height
  {
    var w, h := BlockSide(width, p.hor, p.multiply), BlockSide(height, p.ver, p.multiply);
    TileAddress(p.hor, p.ver, t);
    TilesFit(width, p.hor, p.multiply, t % p.hor);
    TilesFit(height, p.ver, p.multiply, t / p.hor);
    OffsetInside(width, height, t % p.hor * w + u, t / p.hor * h + v);
  }

  /** A puzzle's result is the image its inverse's scrambling makes. */
  lemma ResultIsScrambled(p: Puzzle, q: Puzzle, img: Image)
    requires WellFormed(img) && Cuts(p, img.width, img.height) && Cuts(q, img.width, img.height)
    requires Inverts(p, q)
    ensures Scrambles(q, img, Descrambled(p, img))
  {
    hide Descrambled;
    var bw, bh := BlockSide(img.width, p.hor, p.multiply), BlockSide(img.height, p.ver, p.multiply);
    var d := Descrambled(p, img);
    forall t, u, v | 0 <= t < Blocks(p) && 0 <= u < bw && 0 <= v < bh
      ensures MirroredPixel(q, d, t, u, v, Flip(q, t)) == TilePixel(q, img, q.matrix[t], u, v)
    {
      var i := SourceExists(p.matrix, Blocks(p), t);
      ResultPixel(p, img, i, if FlipsX(Flip(q, t)) then bw - 1 - u else u,
                  if FlipsY(Flip(q, t)) then bh - 1 - v else v);
    }
  }

  /** Applying a puzzle and then its inverse restores every pixel of the grid. */
  lemma InverseRestores(p: Puzzle, q: Puzzle, img: Image, x: int, y: int)
    requires WellFormed(img) && Cuts(p, img.width, img.height) && Cuts(q, img.width, img.height)
    requires Inverts(p, q)
    requires 0 <= x < img.width && 0 <= y < img.height
    ensures 0 <= y * img.width + x < |img.pix|
    ensures Descrambled(q, Descrambled(p, img)).pix[y * img.width + x] ==
            if InGrid(p, img.width, img.height, x, y) then img.pix[y * img.width + x]
            else RGBA(255, 255, 255, 255)
  {
    ResultIsScrambled(p, q, img);
    DescramblingUndoesScrambling(q, img, Descrambled(p, img), x, y);
  }
}
