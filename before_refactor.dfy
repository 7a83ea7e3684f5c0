/** The fractal renderer as it stood before the executor refactoring: one
    mutable struct holding the view, a command handler with the same rules
    as the executor's, and kernels that colour a whole image or a tile of
    rows. */
module BeforeRefactor {
  import opened Prelude
  import opened Fractals
  import opened Palette
  import opened Kernel
  import Executor

  class Fractal {
    var imgWidth: u32
    var imgHeight: u32
    var originX: real
    var originY: real
    var pinholeSize: real
    var pinholeStep: real
    var limit: u32

    /** The fields as the executor's context. */
    function Snapshot(): Context
      reads this
    {
      Context(imgWidth, imgHeight, pinholeStep, PoI(originX, originY, pinholeSize, limit))
    }

    /** The fields a kernel reads. */
    function View(): Kernel.View
      reads this
    {
      Kernel.View(imgWidth, imgHeight, originX, originY, pinholeSize, limit)
    }

    constructor (c: Context)
      ensures Snapshot() == c
    {
      imgWidth, imgHeight := c.imgWidth, c.imgHeight;
      originX, originY, pinholeSize := c.poi.originX, c.poi.originY, c.poi.pinholeSize;
      pinholeStep, limit := c.pinholeStep, c.poi.limit;
    }

    /** `handle_command`: the same rules as the executor's, on the struct's
        own fields. On `ok == false` MoreIterations overflowed (a panic)
        and nothing was written. */
    method HandleCommand(cmd: Executor.Command) returns (ok: bool)
      requires cmd.ChangeOrigin? ==> imgWidth > 0 && imgHeight > 0
      modifies this
      ensures ok ==> Executor.Handle(cmd, old(Snapshot())) == Ok(Snapshot())
      ensures !ok ==> Executor.Handle(cmd, old(Snapshot())).Panic? && Snapshot() == old(Snapshot())
    {
      ok := true;
      match cmd {
        case ZoomOut => pinholeStep := pinholeStep + 0.1;
        case ZoomIn => pinholeStep := pinholeStep - 0.1;
        case LessIterations => limit := limit - if limit <= 200 then 0 else 200;
        case MoreIterations =>
          if limit + 200 > U32_MAX {
            ok := false;
          } else {
            limit := limit + 200;
          }
        case FineTune(dir) =>
          var tune := pinholeSize * 0.15;
          match dir {
            case Up => originY := originY + tune;
            case Down => originY := originY - tune;
            case Left => originX := originX - tune;
            case Right => originX := originX + tune;
          }
        case ChangeOrigin(x, y) =>
          var center := pinholeSize / 2.0;
          ghost var moved := Executor.Recentre(old(Snapshot()).poi, x, y, imgWidth as real, imgHeight as real);
          originX := originX + (x / imgWidth as real) * pinholeSize - center;
          originY := originY + ((y / imgHeight as real) * pinholeSize - center) * -1.0;
          assert originX == moved.originX && originY == moved.originY;
        case SetPOI(index) =>
          if index == 0 {
            originX, originY := 0.0, 0.0;
            pinholeSize, pinholeStep := 4.0, 1.0;
            limit := 200;
          } else {
            var preset := Executor.Preset(index);
            if preset.Some? {
              originX, originY := preset.value.0, preset.value.1;
            }
          }
        case GetState =>
      }
    }

    /** `mandelbrot`: colour every pixel of the image buffer, whose own size
        drives the loop while the struct's image size scales the plane. */
    method Mandelbrot(imgbuf: array<Rgb>, bufWidth: nat, bufHeight: nat)
      requires imgbuf.Length == bufWidth * bufHeight
      requires imgbuf.Length > 0 ==> imgWidth > 0 && imgHeight > 0
      modifies imgbuf
      ensures forall k :: 0 <= k < imgbuf.Length ==> imgbuf[k] == PixelColor(View(), k % bufWidth, k / bufWidth)
    {
      Render(View(), imgbuf, bufWidth, bufHeight);
    }

    /** `mandelbrot_raw` as written: tile `id` of `height` rows, pixel
        (x, row) stored at row * img_height + x. Only when the image is at
        least as tall as it is wide do the rows not overlap; then every
        pixel keeps its colour. */
    method MandelbrotRaw(id: u32, height: u32, pixels: array<Rgb>)
      requires height > 0 ==> imgHeight > 0 && id * height + height - 1 <= U32_MAX
      requires height > 0 && imgWidth > 0 ==>
        LastCell(height, imgWidth, imgHeight) < pixels.Length && LastCell(height, imgWidth, imgHeight) <= U32_MAX
      modifies pixels
      ensures forall k :: 0 <= k < pixels.Length && !Written(k, height, imgWidth, imgHeight) ==> pixels[k] == old(pixels[k])
      ensures imgWidth <= imgHeight ==>
        forall row: nat, col: nat {:trigger Index(row, col, imgHeight)} :: row < height && col < imgWidth ==>
          Index(row, col, imgHeight) < pixels.Length &&
          pixels[Index(row, col, imgHeight)] == PixelColor(View(), col, row + TileStart(id, height))
    {
      RenderRows(View(), id, height, imgHeight, pixels);
    }

    /** `mandelbrot_raw` with rows img_width cells apart, the layout in
        which the caller reads the pixels back: every pixel of the tile
        keeps its colour, whatever the image's shape. */
    method MandelbrotRawByWidth(id: u32, height: u32, pixels: array<Rgb>)
      requires height > 0 ==> imgHeight > 0 && id * height + height - 1 <= U32_MAX
      requires height > 0 && imgWidth > 0 ==>
        LastCell(height, imgWidth, imgWidth) < pixels.Length && LastCell(height, imgWidth, imgWidth) <= U32_MAX
      modifies pixels
      ensures forall k :: 0 <= k < pixels.Length && !Written(k, height, imgWidth, imgWidth) ==> pixels[k] == old(pixels[k])
      ensures forall row: nat, col: nat {:trigger Index(row, col, imgWidth)} :: row < height && col < imgWidth ==>
        Index(row, col, imgWidth) < pixels.Length &&
        pixels[Index(row, col, imgWidth)] == PixelColor(View(), col, row + TileStart(id, height))
    {
      RenderRows(View(), id, height, imgWidth, pixels);
    }
  }

  /** Rows img_height apart overlap when the image is wider than tall: in a
      3 x 2 image, pixel (2, 0) and pixel (0, 1) of a two-row tile are both
      stored in cell 2, so one of the two colours is lost. */
  lemma RawStrideCollides()
    ensures Index(0, 2, 2) == Index(1, 0, 2) == 2
  {
  }

  /** Rows img_width apart: the tile's cell of pixel (x, row), offset by
      the tile's first cell in the whole image, is where the whole image
      keeps pixel (x, row + id * height), row by row. */
  lemma ByWidthMatchesImage(id: nat, height: nat, width: nat, row: nat, col: nat)
    ensures TileStart(id, height) * width + Index(row, col, width) == Index(row + TileStart(id, height), col, width)
  {
    var t := TileStart(id, height);
    assert (row + t) * width == row * width + t * width;
  }

  /** Distinct pixels of a tile have distinct cells when rows are
      img_width apart. */
  lemma ByWidthInjective(r1: nat, c1: nat, r2: nat, c2: nat, width: nat)
    requires c1 < width && c2 < width
    requires Index(r1, c1, width) == Index(r2, c2, width)
    ensures r1 == r2 && c1 == c2
  {
    DivModIndex(r1, c1, width);
    DivModIndex(r2, c2, width);
  }
}
