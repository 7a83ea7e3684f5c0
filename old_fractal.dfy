/** The first renderer: five commands, a LessIterations rule built on
    `max`, a click that does not invert the y axis, and a kernel that
    returns a freshly allocated image. */
module OldFractal {
  import opened Prelude
  import opened Palette
  import opened Kernel

  datatype Command =
    | ZoomOut
    | ZoomIn
    | LessIterations
    | MoreIterations
    | ChangeOrigin(x: real, y: real)

  /** The fields of the renderer. */
  datatype State = State(
    imgWidth: u32, imgHeight: u32,
    originX: real, originY: real,
    pinholeSize: real, pinholeStep: real,
    limit: u32)

  /** `limit - 200`: a u32 subtraction that panics below 200. */
  function LimitMinus200(limit: u32): (r: Outcome<u32>)
    ensures r.Ok? <==> limit >= 200
  {
    if limit < 200 then Panic else Ok(limit - 200)
  }

  /** `handle_command`. LessIterations subtracts max(200, limit - 200),
      which first computes limit - 200; MoreIterations panics past
      u32::MAX. */
  function Handle(cmd: Command, s: State): (r: Outcome<State>)
    requires cmd.ChangeOrigin? ==> s.imgWidth > 0 && s.imgHeight > 0
    ensures r.Ok? ==> r.value.imgWidth == s.imgWidth && r.value.imgHeight == s.imgHeight
  {
    match cmd
    case ZoomOut => Ok(s.(pinholeStep := s.pinholeStep + 0.1))
    case ZoomIn => Ok(s.(pinholeStep := s.pinholeStep - 0.1))
    case LessIterations =>
      (match LimitMinus200(s.limit)
       case Panic => Panic
       case Ok(lowered) =>
         var step := if 200 >= lowered then 200 else lowered;
         Ok(s.(limit := s.limit - step)))
    case MoreIterations =>
      if s.limit + 200 > U32_MAX then Panic else Ok(s.(limit := s.limit + 200))
    case ChangeOrigin(x, y) =>
      var center := s.pinholeSize / 2.0;
      Ok(s.(originX := s.originX + (x / s.imgWidth as real) * s.pinholeSize - center,
            originY := s.originY + (y / s.imgHeight as real) * s.pinholeSize - center))
  }

  /** LessIterations has three regimes: a panic below 200, minus 200 up to
      400, and exactly 200 from 400 on; only the limit changes. */
  lemma LessIterationsRegimes(s: State)
    ensures Handle(LessIterations, s).Panic? <==> s.limit < 200
    ensures 200 <= s.limit <= 400 ==> Handle(LessIterations, s) == Ok(s.(limit := s.limit - 200))
    ensures s.limit >= 400 ==> Handle(LessIterations, s) == Ok(s.(limit := 200))
  {
  }

  /** MoreIterations adds 200 when that fits a u32, and LessIterations
      takes it back while the result stays at most 400. */
  lemma MoreIterationsAdds(s: State)
    requires s.limit <= U32_MAX - 200
    ensures Handle(MoreIterations, s) == Ok(s.(limit := s.limit + 200))
    ensures s.limit <= 200 ==> Handle(LessIterations, Handle(MoreIterations, s).value) == Ok(s)
  {
  }

  /** ZoomOut and ZoomIn change only the step, by 0.1, and undo each other. */
  lemma ZoomChangesOnlyStep(s: State)
    ensures Handle(ZoomOut, s) == Ok(s.(pinholeStep := s.pinholeStep + 0.1))
    ensures Handle(ZoomIn, s) == Ok(s.(pinholeStep := s.pinholeStep - 0.1))
    ensures Handle(ZoomIn, Handle(ZoomOut, s).value) == Ok(s)
  {
  }

  /** A click at the centre keeps the origin; a click below the centre
      moves it to larger y (no inversion here), right of the centre to
      larger x; size, step and limit are untouched. */
  lemma ChangeOriginNoInversion(s: State, x: real, y: real)
    requires s.imgWidth > 0 && s.imgHeight > 0 && s.pinholeSize > 0.0
    ensures Handle(ChangeOrigin(x, y), s).Ok?
    ensures var r := Handle(ChangeOrigin(x, y), s).value;
      var w, h := s.imgWidth as real, s.imgHeight as real;
      && (x == w / 2.0 ==> r.originX == s.originX)
      && (y == h / 2.0 ==> r.originY == s.originY)
      && (x > w / 2.0 ==> r.originX > s.originX)
      && (y > h / 2.0 ==> r.originY > s.originY)
      && (y < h / 2.0 ==> r.originY < s.originY)
      && r.(originX := s.originX, originY := s.originY) == s
  {
    var w, h := s.imgWidth as real, s.imgHeight as real;
    HalfOf(w);
    HalfOf(h);
    ScaledAgainstHalf(x, w, s.pinholeSize);
    ScaledAgainstHalf(y, h, s.pinholeSize);
  }


  /** A non-empty image has both dimensions positive. */
  lemma NonEmptyImage(w: nat, h: nat)
    ensures w * h > 0 <==> w > 0 && h > 0
  {
    if w > 0 && h > 0 {
      MulPositive(w, h);
    }
  }

  lemma MulPositive(w: nat, h: nat)
    requires w > 0 && h > 0
    ensures w * h > 0
  {
  }

  class Fractal {
    var imgWidth: u32
    var imgHeight: u32
    var originX: real
    var originY: real
    var pinholeSize: real
    var pinholeStep: real
    var limit: u32

    function Snapshot(): State
      reads this
    {
      State(imgWidth, imgHeight, originX, originY, pinholeSize, pinholeStep, limit)
    }

    function View(): Kernel.View
      reads this
    {
      Kernel.View(imgWidth, imgHeight, originX, originY, pinholeSize, limit)
    }

    constructor (s: State)
      ensures Snapshot() == s
    {
      imgWidth, imgHeight := s.imgWidth, s.imgHeight;
      originX, originY := s.originX, s.originY;
      pinholeSize, pinholeStep, limit := s.pinholeSize, s.pinholeStep, s.limit;
    }

    /** `handle_command` on the fields; `ok == false` is a panic, before
        anything was written. */
    method HandleCommand(cmd: Command) returns (ok: bool)
      requires cmd.ChangeOrigin? ==> imgWidth > 0 && imgHeight > 0
      modifies this
      ensures ok ==> Handle(cmd, old(Snapshot())) == Ok(Snapshot())
      ensures !ok ==> Handle(cmd, old(Snapshot())).Panic? && Snapshot() == old(Snapshot())
    {
      ok := true;
      match cmd {
        case ZoomOut => pinholeStep := pinholeStep + 0.1;
        case ZoomIn => pinholeStep := pinholeStep - 0.1;
        case LessIterations =>
          if limit < 200 {
            ok := false;
          } else {
            var lowered := limit - 200;
            limit := limit - if 200 >= lowered then 200 else lowered;
          }
        case MoreIterations =>
          if limit + 200 > U32_MAX {
            ok := false;
          } else {
            limit := limit + 200;
          }
        case ChangeOrigin(x, y) =>
          var center := pinholeSize / 2.0;
          ghost var moved := Handle(cmd, old(Snapshot())).value;
          originX := originX + (x / imgWidth as real) * pinholeSize - center;
          originY := originY + (y / imgHeight as real) * pinholeSize - center;
          assert originX == moved.originX && originY == moved.originY;
      }
    }

    /** `mandelbrot`: a new image of img_width x img_height pixels in row
        order, cell k holding the colour of pixel (k % img_width,
        k / img_width); `PixelOrder` places pixel (x, y) in cell
        y * img_width + x. */
    method Mandelbrot() returns (img: array<Rgb>)
      ensures fresh(img)
      ensures img.Length == imgWidth * imgHeight
      ensures img.Length > 0 <==> imgWidth > 0 && imgHeight > 0
      ensures forall k :: 0 <= k < img.Length ==> img[k] == PixelColor(View(), k % imgWidth as nat, k / imgWidth as nat)
    {
      var w, h := imgWidth as nat, imgHeight as nat;
      var v := View();
      img := new Rgb[w * h](_ => Black);
      NonEmptyImage(w, h);
      Render(v, img, w, h);
    }
  }
}
