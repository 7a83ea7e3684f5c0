/** The escape-time kernel of the Mandelbrot renderers: the iteration of
    z := z*z + c from z = 0, counted until |z|^2 reaches 4 or the limit, and
    the loops that colour every pixel of an image or of a tile of rows.
    Arithmetic on the plane is exact `real` arithmetic, an idealisation of
    the f64 arithmetic of the source. */
module Kernel {
  import opened Prelude
  import opened Palette

  /** The loop variables of the iteration: z = x + iy, its squared parts,
      |z|^2 and the count. */
  datatype Orbit = Orbit(x: real, y: real, x2: real, y2: real, sum: real, iteration: nat)

  const Start := Orbit(0.0, 0.0, 0.0, 0.0, 0.0, 0)

  /** One step of the loop body for the point c = x0 + i*y0. */
  function Step(o: Orbit, x0: real, y0: real): (r: Orbit)
    ensures r.iteration == o.iteration + 1
  {
    var y := (o.x + o.x) * o.y + y0;
    var x := o.x2 - o.y2 + x0;
    Orbit(x, y, x * x, y * y, x * x + y * y, o.iteration + 1)
  }

  /** The loop run to its end: it stops when |z|^2 >= 4 or the count
      reaches the limit, and at no other state. */
  function Run(o: Orbit, x0: real, y0: real, limit: nat): (r: Orbit)
    requires o.iteration <= limit
    ensures o.iteration <= r.iteration <= limit
    ensures r.iteration == limit || r.sum >= 4.0
    decreases limit - o.iteration
  {
    if o.sum < 4.0 && o.iteration < limit then Run(Step(o, x0, y0), x0, y0, limit) else o
  }

  lemma RunStep(o: Orbit, x0: real, y0: real, limit: nat)
    requires o.sum < 4.0 && o.iteration < limit
    ensures Run(o, x0, y0, limit) == Run(Step(o, x0, y0), x0, y0, limit)
  {
  }

  lemma RunDone(o: Orbit, x0: real, y0: real, limit: nat)
    requires o.iteration <= limit && !(o.sum < 4.0 && o.iteration < limit)
    ensures Run(o, x0, y0, limit) == o
  {
  }

  /** The number of steps the point x0 + i*y0 takes to escape, or the limit. */
  function Escape(x0: real, y0: real, limit: nat): (n: nat)
    ensures n <= limit
  {
    Run(Start, x0, y0, limit).iteration
  }

  /** The inner `while` loop of the kernels. */
  method EscapeTime(x0: real, y0: real, limit: u32) returns (iteration: u32)
    ensures iteration == Escape(x0, y0, limit)
    ensures iteration < limit ==> Run(Start, x0, y0, limit).sum >= 4.0
  {
    var x, y, x2, y2, sum := 0.0, 0.0, 0.0, 0.0, 0.0;
    iteration := 0;
    while sum < 4.0 && iteration < limit
      invariant iteration <= limit
      invariant Run(Orbit(x, y, x2, y2, sum, iteration), x0, y0, limit) == Run(Start, x0, y0, limit)
      decreases limit - iteration
    {
      ghost var before := Orbit(x, y, x2, y2, sum, iteration);
      RunStep(before, x0, y0, limit);
      var next: nat;
      x, y, x2, y2, sum, next := Iterate(x, y, x2, y2, sum, iteration, x0, y0);
      iteration := next;
    }
    RunDone(Orbit(x, y, x2, y2, sum, iteration), x0, y0, limit);
  }

  /** The body of the inner loop: z := z*z + c, written with the squares
      the previous pass left behind, and one more iteration counted. */
  method Iterate(x: real, y: real, x2: real, y2: real, sum: real, iteration: nat, x0: real, y0: real)
    returns (x': real, y': real, x2': real, y2': real, sum': real, iteration': nat)
    ensures Orbit(x', y', x2', y2', sum', iteration') == Step(Orbit(x, y, x2, y2, sum, iteration), x0, y0)
  {
    y' := (x + x) * y + y0;
    x' := x2 - y2 + x0;
    x2' := x' * x';
    y2' := y' * y';
    sum' := x2' + y2';
    iteration' := iteration + 1;
  }

  /** The origin of the plane is in the set: its orbit stays at 0 and the
      count always reaches the limit. */
  lemma EscapeOrigin(limit: nat)
    ensures Escape(0.0, 0.0, limit) == limit
  {
    RunAtOrigin(0, limit);
  }

  lemma {:induction false} RunAtOrigin(n: nat, limit: nat)
    requires n <= limit
    ensures Run(Orbit(0.0, 0.0, 0.0, 0.0, 0.0, n), 0.0, 0.0, limit).iteration == limit
    decreases limit - n
  {
    if n < limit {
      assert Step(Orbit(0.0, 0.0, 0.0, 0.0, 0.0, n), 0.0, 0.0) == Orbit(0.0, 0.0, 0.0, 0.0, 0.0, n + 1);
      RunAtOrigin(n + 1, limit);
    }
  }

  /** The point 2 reaches |z|^2 = 4 after one step. */
  lemma EscapeTwo(limit: nat)
    requires limit >= 1
    ensures Escape(2.0, 0.0, limit) == 1
  {
    var first := Orbit(2.0, 0.0, 4.0, 0.0, 4.0, 1);
    assert Step(Start, 2.0, 0.0) == first;
    RunStep(Start, 2.0, 0.0, limit);
    assert Run(first, 2.0, 0.0, limit) == first;
  }

  /** Once a point has escaped below the limit, a larger limit gives the
      same count: the limit only cuts off points that have not escaped. */
  lemma EscapeStable(x0: real, y0: real, limit: nat, larger: nat)
    requires Escape(x0, y0, limit) < limit <= larger
    ensures Escape(x0, y0, larger) == Escape(x0, y0, limit)
  {
    RunStable(Start, x0, y0, limit, larger);
  }

  lemma {:induction false} RunStable(o: Orbit, x0: real, y0: real, limit: nat, larger: nat)
    requires o.iteration <= limit <= larger
    requires Run(o, x0, y0, limit).iteration < limit
    ensures Run(o, x0, y0, larger) == Run(o, x0, y0, limit)
    decreases limit - o.iteration
  {
    if o.sum < 4.0 && o.iteration < limit {
      RunStable(Step(o, x0, y0), x0, y0, limit, larger);
    }
  }

  // ---------------------------------------------------------------------
  // From pixels to points of the plane

  /** What a kernel reads from the fractal it draws. */
  datatype View = View(imgWidth: u32, imgHeight: u32, originX: real, originY: real, pinholeSize: real, limit: u32)

  predicate Drawable(v: View)
  {
    v.imgWidth > 0 && v.imgHeight > 0
  }

  /** The point of the plane pixel (px, py) stands for: the image spans the
      pinhole square centred on the origin. */
  function PlaneX(v: View, px: nat): real
    requires v.imgWidth > 0
  {
    v.originX + (px as real / v.imgWidth as real) * v.pinholeSize - v.pinholeSize / 2.0
  }

  function PlaneY(v: View, py: nat): real
    requires v.imgHeight > 0
  {
    v.originY + (py as real / v.imgHeight as real) * v.pinholeSize - v.pinholeSize / 2.0
  }

  /** The colour the kernels give pixel (px, py). */
  function PixelColor(v: View, px: nat, py: nat): (c: Rgb)
    requires Drawable(v)
    ensures c == Black <==> Escape(PlaneX(v, px), PlaneY(v, py), v.limit) == v.limit
  {
    ColorRainbow(Escape(PlaneX(v, px), PlaneY(v, py), v.limit), v.limit)
  }

  /** The centre pixel of an image of even size is the origin. */
  lemma CentrePixel(v: View)
    requires Drawable(v) && v.imgWidth % 2 == 0 && v.imgHeight % 2 == 0
    ensures PlaneX(v, v.imgWidth / 2) == v.originX
    ensures PlaneY(v, v.imgHeight / 2) == v.originY
  {
    var w, h := v.imgWidth as real, v.imgHeight as real;
    assert (v.imgWidth / 2) as real == w / 2.0;
    assert (v.imgHeight / 2) as real == h / 2.0;
    HalfOf(w);
    HalfOf(h);
  }


  // ---------------------------------------------------------------------
  // Whole images

  /** `enumerate_pixels_mut` visits an image row by row; pixel k is at
      column k % width of row k / width. Every (x, y) of the image is
      visited exactly once, at index y * width + x. */
  lemma PixelOrder(width: nat, height: nat, x: nat, y: nat)
    requires x < width && y < height
    ensures y * width + x < width * height
    ensures (y * width + x) % width == x && (y * width + x) / width == y
  {
    IndexBound(y, x, width, height - 1, width - 1);
    assert (height - 1) * width + (width - 1) == width * height - 1;
    DivModIndex(y, x, width);
  }

  /** Colour every pixel of an image of width x height pixels, whose
      coordinates are scaled by the view's own image size. */
  method Render(v: View, img: array<Rgb>, width: nat, height: nat)
    requires img.Length == width * height
    requires img.Length > 0 ==> Drawable(v)
    modifies img
    ensures forall k :: 0 <= k < img.Length ==> img[k] == PixelColor(v, k % width, k / width)
  {
    if img.Length > 0 {
      WidthOfNonEmpty(width, height, img.Length);
    }
    var k := 0;
    while k < img.Length
      invariant 0 <= k <= img.Length
      invariant k < img.Length ==> width > 0 && Drawable(v)
      invariant forall j :: 0 <= j < k ==> img[j] == PixelColor(v, j % width, j / width)
    {
      var x, y := k % width, k / width;
      var pinholeCenter := v.pinholeSize / 2.0;
      var x0 := v.originX + (x as real / v.imgWidth as real) * v.pinholeSize - pinholeCenter;
      var y0 := v.originY + (y as real / v.imgHeight as real) * v.pinholeSize - pinholeCenter;
      assert x0 == PlaneX(v, x) && y0 == PlaneY(v, y);
      var iteration := EscapeTime(x0, y0, v.limit);
      img[k] := ColorRainbow(iteration, v.limit);
      k := k + 1;
    }
  }

  lemma WidthOfNonEmpty(width: nat, height: nat, n: nat)
    requires n == width * height && n > 0
    ensures width > 0
  {
  }

  // ---------------------------------------------------------------------
  // Tiles of rows

  /** Where a tile kernel stores pixel (col, row) of its tile, for rows
      `stride` cells apart. */
  function Index(row: nat, col: nat, stride: nat): nat
  {
    row * stride + col
  }

  lemma DivModIndex(row: nat, col: nat, stride: nat)
    requires col < stride
    ensures (row * stride + col) / stride == row && (row * stride + col) % stride == col
  {
    DivUnique(row * stride + col, stride, row, col);
  }

  lemma IndexBound(row: nat, col: nat, stride: nat, lastRow: nat, lastCol: nat)
    requires row <= lastRow && col <= lastCol
    ensures Index(row, col, stride) <= Index(lastRow, lastCol, stride)
  {
    MulLeft(row, lastRow, stride);
  }

  lemma MulLeft(a: nat, b: nat, c: nat)
    requires a <= b
    ensures a * c <= b * c
  {
    var d := b - a;
    assert b * c == a * c + d * c;
  }

  /** With rows at least a column count apart, every cell of an earlier row
      lies before the first cell of a later one. */
  lemma RowsApart(row: nat, col: nat, later: nat, stride: nat)
    requires row < later && col < stride
    ensures Index(row, col, stride) < Index(later, 0, stride)
  {
    MulLeft(row + 1, later, stride);
  }

  /** Cell k holds one of the `width` pixels of tile row `row`. */
  predicate InRow(k: nat, row: nat, width: nat, stride: nat)
  {
    Index(row, 0, stride) <= k < Index(row, 0, stride) + width
  }

  /** The cells a tile of `height` rows of `width` pixels writes. */
  predicate Written(k: nat, height: nat, width: nat, stride: nat)
  {
    exists row: nat :: row < height && InRow(k, row, width, stride)
  }

  /** The first image row of tile number `id` of `height` rows. */
  function TileStart(id: nat, height: nat): nat
  {
    id * height
  }

  /** The largest cell a tile writes, which must fit the slice and a u32. */
  function LastCell(height: nat, width: nat, stride: nat): nat
    requires height > 0 && width > 0
  {
    Index(height - 1, width - 1, stride)
  }

  /** The rows `height` tall tile number `id` covers: row r of the tile is
      row r + id * height of the image. Pixel (col, row) of the tile is
      stored at Index(row, col, stride). When rows are at least `width`
      apart every pixel keeps its colour; in any case no cell outside the
      tile's rows is touched. */
  method RenderRows(v: View, id: u32, height: u32, stride: nat, pixels: array<Rgb>)
    requires height > 0 ==> v.imgHeight > 0 && id * height + height - 1 <= U32_MAX
    requires height > 0 && v.imgWidth > 0 ==>
      LastCell(height, v.imgWidth, stride) < pixels.Length && LastCell(height, v.imgWidth, stride) <= U32_MAX
    modifies pixels
    ensures forall k :: 0 <= k < pixels.Length && !Written(k, height, v.imgWidth, stride) ==> pixels[k] == old(pixels[k])
    ensures v.imgWidth <= stride ==>
      forall row: nat, col: nat {:trigger Index(row, col, stride)} :: row < height && col < v.imgWidth ==>
        Index(row, col, stride) < pixels.Length &&
        pixels[Index(row, col, stride)] == PixelColor(v, col, row + TileStart(id, height))
  {
    var imgx := v.imgWidth;
    var pinholeCenter := v.pinholeSize / 2.0;
    var centerX := v.originX - pinholeCenter;
    var centerY := v.originY - pinholeCenter;
    var pixelY := 0;
    while pixelY < height
      invariant 0 <= pixelY <= height
      invariant forall k :: 0 <= k < pixels.Length && !Written(k, height, imgx, stride) ==> pixels[k] == old(pixels[k])
      invariant imgx <= stride ==>
        forall row: nat, col: nat {:trigger Index(row, col, stride)} :: row < pixelY && col < imgx ==>
          Index(row, col, stride) < pixels.Length &&
          pixels[Index(row, col, stride)] == PixelColor(v, col, row + TileStart(id, height))
    {
      TileRow(v, id, height, stride, pixelY, centerX, centerY, pixels);
      assert forall k :: 0 <= k < pixels.Length && InRow(k, pixelY, imgx, stride) ==> Written(k, height, imgx, stride);
      pixelY := pixelY + 1;
    }
  }

  /** One pass of the outer loop of a tile kernel: row `pixelY` of the tile
      is coloured, the rows before it keep their colours, and no cell
      outside the row changes. */
  method TileRow(v: View, id: u32, height: u32, stride: nat, pixelY: nat, centerX: real, centerY: real, pixels: array<Rgb>)
    requires pixelY < height && v.imgHeight > 0 && id * height + height - 1 <= U32_MAX
    requires v.imgWidth > 0 ==>
      LastCell(height, v.imgWidth, stride) < pixels.Length && LastCell(height, v.imgWidth, stride) <= U32_MAX
    requires centerX == v.originX - v.pinholeSize / 2.0 && centerY == v.originY - v.pinholeSize / 2.0
    requires v.imgWidth <= stride ==>
      forall row: nat, col: nat {:trigger Index(row, col, stride)} :: row < pixelY && col < v.imgWidth ==>
        Index(row, col, stride) < pixels.Length &&
        pixels[Index(row, col, stride)] == PixelColor(v, col, row + TileStart(id, height))
    modifies pixels
    ensures forall k :: 0 <= k < pixels.Length && !InRow(k, pixelY, v.imgWidth, stride) ==> pixels[k] == old(pixels[k])
    ensures v.imgWidth <= stride ==>
      forall row: nat, col: nat {:trigger Index(row, col, stride)} :: row < pixelY + 1 && col < v.imgWidth ==>
        Index(row, col, stride) < pixels.Length &&
        pixels[Index(row, col, stride)] == PixelColor(v, col, row + TileStart(id, height))
  {
    var imgx := v.imgWidth;
    var yOffset := pixelY + TileStart(id, height);
    var y0 := (yOffset as real / v.imgHeight as real) * v.pinholeSize + centerY;
    assert y0 == PlaneY(v, yOffset);
    if imgx > 0 {
      IndexBound(pixelY, imgx - 1, stride, height - 1, imgx - 1);
      RenderRow(v, pixelY, yOffset, y0, centerX, stride, pixels);
      if imgx <= stride {
        forall row: nat, col: nat | row < pixelY && col < imgx
          ensures Index(row, col, stride) < pixels.Length
          ensures pixels[Index(row, col, stride)] == PixelColor(v, col, row + TileStart(id, height))
        {
          IndexBound(row, col, stride, height - 1, imgx - 1);
          RowsApart(row, col, pixelY, stride);
        }
        forall row: nat, col: nat | row == pixelY && col < imgx
          ensures Index(row, col, stride) < pixels.Length
          ensures pixels[Index(row, col, stride)] == PixelColor(v, col, row + TileStart(id, height))
        {
          IndexBound(row, col, stride, height - 1, imgx - 1);
          assert InRow(Index(row, col, stride), pixelY, imgx, stride);
        }
      }
    }
  }

  /** The inner loop of a tile kernel: the `width` pixels of one row, at
      consecutive cells from the row's first. */
  method RenderRow(v: View, pixelY: nat, yOffset: nat, y0: real, centerX: real, stride: nat, pixels: array<Rgb>)
    requires Drawable(v)
    requires y0 == PlaneY(v, yOffset) && centerX == v.originX - v.pinholeSize / 2.0
    requires Index(pixelY, v.imgWidth - 1, stride) < pixels.Length
    requires Index(pixelY, v.imgWidth - 1, stride) <= U32_MAX
    modifies pixels
    ensures forall k :: 0 <= k < pixels.Length && !InRow(k, pixelY, v.imgWidth, stride) ==> pixels[k] == old(pixels[k])
    ensures forall k :: 0 <= k < pixels.Length && InRow(k, pixelY, v.imgWidth, stride) ==>
      pixels[k] == PixelColor(v, k - Index(pixelY, 0, stride), yOffset)
  {
    var imgx := v.imgWidth;
    var first := Index(pixelY, 0, stride);
    assert first == pixelY * stride && first + imgx - 1 < pixels.Length;
    var pixelX := 0;
    while pixelX < imgx
      invariant 0 <= pixelX <= imgx
      invariant forall k :: 0 <= k < pixels.Length && !(first <= k < first + pixelX) ==> pixels[k] == old(pixels[k])
      invariant forall k :: first <= k < first + pixelX ==> pixels[k] == PixelColor(v, k - first, yOffset)
    {
      var x0 := (pixelX as real / imgx as real) * v.pinholeSize + centerX;
      assert x0 == PlaneX(v, pixelX);
      var iteration := EscapeTime(x0, y0, v.limit);
      pixels[pixelY * stride + pixelX] := ColorRainbow(iteration, v.limit);
      pixelX := pixelX + 1;
    }
  }
}
