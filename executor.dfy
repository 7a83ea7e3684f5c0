/** The commands a viewer sends to a running renderer, and what each one
    does to the rendering context; then one pass of the render loop, which
    applies at most one command and zooms by the pinhole step. */
module Executor {
  import opened Prelude
  import opened Fractals

  datatype FineDirection = Up | Down | Left | Right

  datatype Command =
    | ZoomOut
    | ZoomIn
    | LessIterations
    | MoreIterations
    | FineTune(dir: FineDirection)
    | ChangeOrigin(x: real, y: real)
    | SetPOI(index: u32)
    | GetState

  datatype ExecutorKind = SingleThread | Rayon

  /** How much one ZoomOut / ZoomIn changes the pinhole step. */
  const ZoomDelta: real := 0.1
  /** How much LessIterations / MoreIterations change the limit. */
  const LimitDelta: nat := 200
  /** FineTune moves the origin by this fraction of the pinhole size. */
  const TuneFactor: real := 0.15

  /** The view SetPOI(0) returns to. */
  const HomePoI := PoI(0.0, 0.0, 4.0, 200)
  const HomeStep: real := 1.0

  /** The origins of the presets SetPOI(1) .. SetPOI(9); every other
      nonzero index has none. The decimal literals stand for the f64 values
      the source writes. */
  function Preset(index: u32): (r: Option<(real, real)>)
    ensures r.Some? <==> 1 <= index <= 9
  {
    if index == 1 then Some((-1.2583384664947936, -0.032317669198187016))
    else if index == 2 then Some((-1.2487780999747029, 0.071802096973029209))
    else if index == 3 then Some((-1.2583385189936513, -0.032317635405726151))
    else if index == 4 then Some((-1.2583384664947908, -0.032317669198180785))
    else if index == 5 then Some((-1.4780998580724920, -0.0029962325962097328))
    else if index == 6 then Some((-0.743643887037158704752191506114774, 0.131825904205311970493132056385139))
    else if index == 7 then Some((-1.768611136076306, -0.001266863985331))
    else if index == 8 then Some((-1.7686112281079116, -0.0012668963162883458))
    else if index == 9 then Some((-1.6291627176190138, -0.020224379647719847))
    else None
  }

  /** The origin after a FineTune: one coordinate moves by `tune`, up and
      right forwards, down and left backwards; nothing else changes. */
  function Tune(p: PoI, dir: FineDirection, tune: real): (r: PoI)
    ensures r.(originX := p.originX, originY := p.originY) == p
    ensures dir.Up? || dir.Down? ==> r.originX == p.originX
    ensures dir.Left? || dir.Right? ==> r.originY == p.originY
    ensures (r.originX - p.originX) + (r.originY - p.originY) == (if dir.Up? || dir.Right? then tune else -tune)
  {
    match dir
    case Up => p.(originY := p.originY + tune)
    case Down => p.(originY := p.originY - tune)
    case Left => p.(originX := p.originX - tune)
    case Right => p.(originX := p.originX + tune)
  }

  /** The origin after a click at pixel (x, y): the clicked point becomes
      the new centre. Pixel rows grow downwards and the plane's y axis
      upwards, so the y offset is negated. */
  function Recentre(p: PoI, x: real, y: real, width: real, height: real): (r: PoI)
    requires width > 0.0 && height > 0.0
    ensures r.(originX := p.originX, originY := p.originY) == p
    ensures r.originX == p.originX + (x - width / 2.0) * (p.pinholeSize / width)
    ensures r.originY == p.originY - (y - height / 2.0) * (p.pinholeSize / height)
  {
    ScaledOffset(x, width, p.pinholeSize);
    ScaledOffset(y, height, p.pinholeSize);
    var center := p.pinholeSize / 2.0;
    p.(originX := p.originX + (x / width) * p.pinholeSize - center,
       originY := p.originY + ((y / height) * p.pinholeSize - center) * -1.0)
  }

  /** `Executor::handle_command`. MoreIterations past u32::MAX panics (the
      debug-build overflow check); every other command succeeds and leaves
      the image size alone. */
  function Handle(cmd: Command, c: Context): (r: Outcome<Context>)
    requires cmd.ChangeOrigin? ==> ValidContext(c)
    ensures r.Panic? <==> cmd.MoreIterations? && c.poi.limit + LimitDelta > U32_MAX
    ensures r.Ok? ==> r.value.imgWidth == c.imgWidth && r.value.imgHeight == c.imgHeight
  {
    var p := c.poi;
    match cmd
    case ZoomOut => Ok(c.(pinholeStep := c.pinholeStep + ZoomDelta))
    case ZoomIn => Ok(c.(pinholeStep := c.pinholeStep - ZoomDelta))
    case LessIterations =>
      Ok(c.(poi := p.(limit := p.limit - if p.limit <= 200 then 0 else LimitDelta)))
    case MoreIterations =>
      if p.limit + LimitDelta > U32_MAX then Panic
      else Ok(c.(poi := p.(limit := p.limit + LimitDelta)))
    case FineTune(dir) => Ok(c.(poi := Tune(p, dir, p.pinholeSize * TuneFactor)))
    case ChangeOrigin(x, y) =>
      Ok(c.(poi := Recentre(p, x, y, c.imgWidth as real, c.imgHeight as real)))
    case SetPOI(index) =>
      if index == 0 then Ok(c.(pinholeStep := HomeStep, poi := HomePoI))
      else (match Preset(index)
        case Some((ox, oy)) => Ok(c.(poi := p.(originX := ox, originY := oy)))
        case None => Ok(c))
    case GetState => Ok(c)
  }

  /** The zoom that ends every pass: the pinhole is scaled by the step. */
  function Zoom(c: Context): (r: Context)
    ensures r.poi.pinholeSize == c.poi.pinholeSize * c.pinholeStep
    ensures r.(poi := r.poi.(pinholeSize := c.poi.pinholeSize)) == c
    ensures c.pinholeStep == 1.0 ==> r == c
  {
    c.(poi := c.poi.(pinholeSize := c.poi.pinholeSize * c.pinholeStep))
  }

  /** One pass of the render loop: the command received, if any, then the
      zoom, which scales the pinhole by the step as that command left it. */
  function Pass(cmd: Option<Command>, c: Context): (r: Outcome<Context>)
    requires cmd.Some? && cmd.value.ChangeOrigin? ==> ValidContext(c)
    ensures r.Panic? <==> cmd.Some? && Handle(cmd.value, c).Panic?
  {
    match cmd
    case None => Ok(Zoom(c))
    case Some(command) =>
      match Handle(command, c)
      case Panic => Panic
      case Ok(d) => Ok(Zoom(d))
  }

  // ---------------------------------------------------------------------
  // What each command does, and what it leaves alone

  lemma ZoomChangesOnlyStep(c: Context)
    ensures Handle(ZoomOut, c).Ok? && Handle(ZoomIn, c).Ok?
    ensures Handle(ZoomOut, c).value.pinholeStep == c.pinholeStep + 0.1
    ensures Handle(ZoomIn, c).value.pinholeStep == c.pinholeStep - 0.1
    ensures Handle(ZoomOut, c).value.(pinholeStep := c.pinholeStep) == c
    ensures Handle(ZoomIn, c).value.(pinholeStep := c.pinholeStep) == c
  {
  }

  /** ZoomIn undoes ZoomOut, and the other way round. */
  lemma ZoomRoundTrip(c: Context)
    ensures Handle(ZoomIn, Handle(ZoomOut, c).value) == Ok(c)
    ensures Handle(ZoomOut, Handle(ZoomIn, c).value) == Ok(c)
  {
  }

  /** LessIterations never underflows: a limit up to 200 stays, a larger one
      drops by exactly 200, so a positive limit stays positive; nothing but
      the limit changes. */
  lemma LessIterationsBounds(c: Context)
    ensures Handle(LessIterations, c).Ok?
    ensures var r := Handle(LessIterations, c).value;
      && r.poi.limit <= c.poi.limit
      && (c.poi.limit <= 200 ==> r == c)
      && (c.poi.limit > 200 ==> r.poi.limit == c.poi.limit - 200)
      && (c.poi.limit > 0 ==> r.poi.limit > 0)
      && r.(poi := r.poi.(limit := c.poi.limit)) == c
  {
  }

  /** MoreIterations adds exactly 200 when the sum fits a u32. */
  lemma MoreIterationsAdds(c: Context)
    requires c.poi.limit <= U32_MAX - 200
    ensures Handle(MoreIterations, c).Ok?
    ensures var r := Handle(MoreIterations, c).value;
      r.poi.limit == c.poi.limit + 200 && r.(poi := r.poi.(limit := c.poi.limit)) == c
  {
  }

  /** LessIterations undoes MoreIterations exactly when the limit was
      positive: from 0 the limit climbs to 200, which LessIterations keeps. */
  lemma LessUndoesMore(c: Context)
    requires c.poi.limit <= U32_MAX - 200
    ensures Handle(MoreIterations, c).Ok?
    ensures c.poi.limit > 0 ==> Handle(LessIterations, Handle(MoreIterations, c).value) == Ok(c)
    ensures c.poi.limit == 0 ==>
      Handle(LessIterations, Handle(MoreIterations, c).value).value.poi.limit == 200
  {
  }

  /** FineTune moves exactly one origin coordinate by 0.15 of the pinhole
      size: Up and Right add, Down and Left subtract. */
  lemma FineTuneMovesOneCoordinate(c: Context, dir: FineDirection)
    ensures Handle(FineTune(dir), c).Ok?
    ensures var r := Handle(FineTune(dir), c).value;
      var tune := c.poi.pinholeSize * 0.15;
      && r.poi.originY - c.poi.originY == (if dir == Up then tune else if dir == Down then -tune else 0.0)
      && r.poi.originX - c.poi.originX == (if dir == Right then tune else if dir == Left then -tune else 0.0)
      && r.(poi := r.poi.(originX := c.poi.originX, originY := c.poi.originY)) == c
  {
  }

  /** Opposite FineTune directions cancel. */
  lemma FineTuneRoundTrip(c: Context)
    ensures Handle(FineTune(Down), Handle(FineTune(Up), c).value) == Ok(c)
    ensures Handle(FineTune(Left), Handle(FineTune(Right), c).value) == Ok(c)
  {
  }

  /** A click at the centre of the image keeps the origin. */
  lemma ChangeOriginCentre(c: Context)
    requires ValidContext(c)
    ensures Handle(ChangeOrigin(c.imgWidth as real / 2.0, c.imgHeight as real / 2.0), c) == Ok(c)
  {
    var w, h := c.imgWidth as real, c.imgHeight as real;
    var s := c.poi.pinholeSize;
    HalfOf(w);
    HalfOf(h);
  }


  /** A click right of the centre moves the origin right; a click below
      the centre moves it down (the y axis is inverted), above it up; only
      the origin changes. */
  lemma ChangeOriginDirection(c: Context, x: real, y: real)
    requires ValidContext(c) && c.poi.pinholeSize > 0.0
    ensures Handle(ChangeOrigin(x, y), c).Ok?
    ensures var r := Handle(ChangeOrigin(x, y), c).value;
      var w, h := c.imgWidth as real, c.imgHeight as real;
      && (x > w / 2.0 ==> r.poi.originX > c.poi.originX)
      && (x < w / 2.0 ==> r.poi.originX < c.poi.originX)
      && (y > h / 2.0 ==> r.poi.originY < c.poi.originY)
      && (y < h / 2.0 ==> r.poi.originY > c.poi.originY)
      && r.(poi := r.poi.(originX := c.poi.originX, originY := c.poi.originY)) == c
  {
    var w, h := c.imgWidth as real, c.imgHeight as real;
    var s := c.poi.pinholeSize;
    ScaledAgainstHalf(x, w, s);
    ScaledAgainstHalf(y, h, s);
  }


  /** SetPOI(0) returns to the home view: origin (0, 0), pinhole 4, step 1,
      limit 200. */
  lemma SetPOIHome(c: Context)
    ensures Handle(SetPOI(0), c).Ok?
    ensures var r := Handle(SetPOI(0), c).value;
      && r.poi.originX == 0.0 && r.poi.originY == 0.0
      && r.poi.pinholeSize == 4.0 && r.pinholeStep == 1.0 && r.poi.limit == 200
      && r.imgWidth == c.imgWidth && r.imgHeight == c.imgHeight
  {
  }

  /** SetPOI(1..9) moves only the origin, to the preset; any index above 9
      changes nothing; every SetPOI is idempotent. */
  lemma SetPOIOnlyOrigin(c: Context, index: u32)
    ensures Handle(SetPOI(index), c).Ok?
    ensures var r := Handle(SetPOI(index), c).value;
      && (1 <= index <= 9 ==>
            && (r.poi.originX, r.poi.originY) == Preset(index).value
            && r.(poi := r.poi.(originX := c.poi.originX, originY := c.poi.originY)) == c)
      && (index > 9 ==> r == c)
      && Handle(SetPOI(index), r) == Ok(r)
  {
  }

  /** Every preset origin lies inside the home view, the square of side 4
      around (0, 0). */
  lemma PresetsInHomeView(index: u32)
    requires 1 <= index <= 9
    ensures var (x, y) := Preset(index).value;
      -2.0 < x < 2.0 && -2.0 < y < 2.0
  {
  }

  /** GetState only reports; the context is unchanged. */
  lemma GetStateNoOp(c: Context)
    ensures Handle(GetState, c) == Ok(c)
  {
  }

  /** No command changes the image size, so the context stays one a click
      can be divided by. */
  lemma HandleKeepsValid(cmd: Command, c: Context)
    requires ValidContext(c)
    ensures Handle(cmd, c).Ok? ==> ValidContext(Handle(cmd, c).value)
  {
  }

  // ---------------------------------------------------------------------
  // One pass of the render loop

  /** Without a command the pass only zooms: the pinhole is multiplied by
      the step, so the default step 1 keeps the view. */
  lemma PassIdleZooms(c: Context)
    ensures Pass(None, c).Ok?
    ensures var r := Pass(None, c).value;
      r.poi.pinholeSize == c.poi.pinholeSize * c.pinholeStep && r.(poi := r.poi.(pinholeSize := c.poi.pinholeSize)) == c
    ensures c.pinholeStep == 1.0 ==> Pass(None, c) == Ok(c)
  {
    assert Pass(None, c) == Ok(Zoom(c));
  }

  /** The zoom of a pass uses the step as its command left it: after
      ZoomIn the pinhole is scaled by the old step minus 0.1. */
  lemma PassUsesUpdatedStep(c: Context)
    ensures Pass(Some(ZoomIn), c).Ok?
    ensures Pass(Some(ZoomIn), c).value.poi.pinholeSize == c.poi.pinholeSize * (c.pinholeStep - 0.1)
    ensures Pass(Some(ZoomOut), c).value.poi.pinholeSize == c.poi.pinholeSize * (c.pinholeStep + 0.1)
  {
  }

  /** A pass changes the pinhole size and whatever its command changes,
      nothing else. */
  lemma PassFrame(cmd: Command, c: Context)
    requires cmd.ChangeOrigin? ==> ValidContext(c)
    ensures Pass(Some(cmd), c).Ok? <==> Handle(cmd, c).Ok?
    ensures Handle(cmd, c).Ok? ==>
      var d := Handle(cmd, c).value;
      var r := Pass(Some(cmd), c).value;
      r.(poi := r.poi.(pinholeSize := d.poi.pinholeSize)) == d && r.poi.pinholeSize == d.poi.pinholeSize * d.pinholeStep
  {
  }

  /** The context the render thread owns and updates in place. */
  class LiveContext {
    var imgWidth: u32
    var imgHeight: u32
    var pinholeStep: real
    var originX: real
    var originY: real
    var pinholeSize: real
    var limit: u32

    function Snapshot(): Context
      reads this
    {
      Context(imgWidth, imgHeight, pinholeStep, PoI(originX, originY, pinholeSize, limit))
    }

    predicate Valid()
      reads this
    {
      ValidContext(Snapshot())
    }

    constructor (c: Context)
      ensures Snapshot() == c
    {
      imgWidth, imgHeight, pinholeStep := c.imgWidth, c.imgHeight, c.pinholeStep;
      originX, originY, pinholeSize, limit := c.poi.originX, c.poi.originY, c.poi.pinholeSize, c.poi.limit;
    }

    /** `handle_command` on the live context. On `ok == false` the command
        panicked (MoreIterations overflow) and nothing was written. */
    method HandleCommand(cmd: Command) returns (ok: bool)
      requires Valid()
      modifies this
      ensures Valid()
      ensures ok ==> Handle(cmd, old(Snapshot())) == Ok(Snapshot())
      ensures !ok ==> Handle(cmd, old(Snapshot())).Panic? && Snapshot() == old(Snapshot())
    {
      ok := true;
      match cmd {
        case ZoomOut => pinholeStep := pinholeStep + ZoomDelta;
        case ZoomIn => pinholeStep := pinholeStep - ZoomDelta;
        case LessIterations => limit := limit - if limit <= 200 then 0 else LimitDelta;
        case MoreIterations =>
          if limit + LimitDelta > U32_MAX {
            ok := false;
          } else {
            limit := limit + LimitDelta;
          }
        case FineTune(dir) =>
          var tune := pinholeSize * TuneFactor;
          match dir {
            case Up => originY := originY + tune;
            case Down => originY := originY - tune;
            case Left => originX := originX - tune;
            case Right => originX := originX + tune;
          }
        case ChangeOrigin(x, y) =>
          var center := pinholeSize / 2.0;
          ghost var moved := Recentre(old(Snapshot()).poi, x, y, imgWidth as real, imgHeight as real);
          originX := originX + (x / imgWidth as real) * pinholeSize - center;
          originY := originY + ((y / imgHeight as real) * pinholeSize - center) * -1.0;
          assert originX == moved.originX && originY == moved.originY;
        case SetPOI(index) =>
          if index == 0 {
            originX, originY, pinholeSize := 0.0, 0.0, 4.0;
            pinholeStep := 1.0;
            limit := 200;
          } else {
            var preset := Preset(index);
            if preset.Some? {
              originX, originY := preset.value.0, preset.value.1;
            }
          }
        case GetState =>
      }
    }

    /** One pass of the render loop: handle the command received, if any,
        then zoom. */
    method RenderPass(cmd: Option<Command>) returns (ok: bool)
      requires Valid()
      modifies this
      ensures Valid()
      ensures ok ==> Pass(cmd, old(Snapshot())) == Ok(Snapshot())
      ensures !ok ==> Pass(cmd, old(Snapshot())).Panic? && Snapshot() == old(Snapshot())
    {
      ok := true;
      if cmd.Some? {
        ok := HandleCommand(cmd.value);
      }
      if ok {
        ghost var handled := Snapshot();
        pinholeSize := pinholeSize * pinholeStep;
        assert Snapshot() == Zoom(handled);
      }
    }
  }

  /** Two passes from the home view: ZoomIn sets the step to 0.9 and
      shrinks the pinhole to 3.6, an idle pass shrinks it again to 3.24. */
  method TwoPassExample() returns (size: real)
    ensures size == 3.24
  {
    var live := new LiveContext(Context(608, 608, 1.0, PoI(0.0, 0.0, 4.0, 200)));
    var ok := live.RenderPass(Some(ZoomIn));
    assert ok;
    ok := live.RenderPass(None);
    size := live.pinholeSize;
  }
}
