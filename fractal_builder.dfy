/** The builder a program uses to set up a render: it starts from a default
    view, picks the fractal function, the point of interest and the
    executor, each step taking the builder by value and handing back the
    changed one. */
module FractalBuilder {
  import opened Prelude
  import opened Fractals
  import Executor

  /** The fractal functions a builder can pick; only the Mandelbrot set
      exists. */
  datatype FractalFunction = Mandelbrot

  /** The builder: the context a render starts from, the function to draw
      and the executor that runs it. */
  datatype Fractal = Fractal(context: Context, fractalFunction: FractalFunction, executor: Executor.ExecutorKind)

  /** `default`: a 608 x 608 image with step 1, the whole set in a pinhole
      of 4 around the origin at 300 iterations, drawn by the Rayon
      executor. */
  function Default(): (f: Fractal)
    ensures ValidContext(f.context) && f.context.poi.limit > 0
    ensures f.context.imgWidth == f.context.imgHeight
    ensures f.fractalFunction == Mandelbrot && f.executor == Executor.Rayon
  {
    Fractal(
      Context(608, 608, 1.0, PoI(0.0, 0.0, 4.0, 300)),
      Mandelbrot,
      Executor.Rayon)
  }

  /** `mandelbrot`: select the Mandelbrot function; nothing else changes. */
  function WithMandelbrot(f: Fractal): (r: Fractal)
    ensures r.fractalFunction == Mandelbrot
    ensures r.context == f.context && r.executor == f.executor
  {
    f.(fractalFunction := Mandelbrot)
  }

  /** `julia`: not implemented, every call panics. */
  function Julia(f: Fractal): (r: Outcome<Fractal>)
    ensures r.Panic?
  {
    Panic
  }

  /** `run_on`: the single-threaded executor is not implemented and
      panics; Rayon is installed without touching the context or the
      function. */
  function RunOn(f: Fractal, kind: Executor.ExecutorKind): (r: Outcome<Fractal>)
    ensures r.Ok? <==> kind == Executor.Rayon
    ensures r.Ok? ==> r.value.executor == kind
    ensures r.Ok? ==> r.value.context == f.context && r.value.fractalFunction == f.fractalFunction
  {
    match kind
    case SingleThread => Panic
    case Rayon => Ok(f.(executor := Executor.Rayon))
  }

  /** `with_poi`: replace the point of interest; image size, step, function
      and executor are kept. */
  function WithPoi(f: Fractal, poi: PoI): (r: Fractal)
    ensures r.context.poi == poi
    ensures r.context.imgWidth == f.context.imgWidth && r.context.imgHeight == f.context.imgHeight
    ensures r.context.pinholeStep == f.context.pinholeStep
    ensures r.fractalFunction == f.fractalFunction && r.executor == f.executor
  {
    f.(context := f.context.(poi := poi))
  }

  /** The default view is the executor's home view with a higher limit:
      sending SetPOI(0) to it keeps the size, step and origin and only
      lowers the limit from 300 to 200. */
  lemma DefaultIsHomeView()
    ensures Default().context.poi == Executor.HomePoI.(limit := 300)
    ensures Default().context.pinholeStep == Executor.HomeStep
    ensures Executor.Handle(Executor.SetPOI(0), Default().context) == Ok(Default().context.(poi := Executor.HomePoI))
  {
    Executor.SetPOIHome(Default().context);
  }

  /** Setting the point of interest twice keeps only the second one. */
  lemma WithPoiLastWins(f: Fractal, p: PoI, q: PoI)
    ensures WithPoi(WithPoi(f, p), q) == WithPoi(f, q)
  {
  }

  /** Setting the point of interest again to the one already there changes
      nothing. */
  lemma WithPoiSame(f: Fractal)
    ensures WithPoi(f, f.context.poi) == f
  {
  }

  /** The builder steps touch disjoint parts, so their order does not
      matter; a builder with image dimensions a click can be divided by
      keeps them. */
  lemma StepsCommute(f: Fractal, poi: PoI)
    ensures WithMandelbrot(WithPoi(f, poi)) == WithPoi(WithMandelbrot(f), poi)
    ensures RunOn(WithPoi(f, poi), Executor.Rayon) == Ok(WithPoi(RunOn(f, Executor.Rayon).value, poi))
    ensures ValidContext(f.context) ==> ValidContext(WithPoi(f, poi).context)
  {
  }

  /** The chain the builder's test sets up: the default builder, the
      Mandelbrot function, a deep point of interest at 1200 iterations and
      the Rayon executor. The chain does not panic, and the result keeps
      the default 608 x 608 image and step. */
  lemma BuilderChain()
    ensures var poi := PoI(-1.275160031112145, -0.19410769865119987, 0.000000000000000038614262509059454, 1200);
      var r := RunOn(WithPoi(WithMandelbrot(Default()), poi), Executor.Rayon);
      && r.Ok?
      && r.value == Fractal(Context(608, 608, 1.0, poi), Mandelbrot, Executor.Rayon)
  {
  }
}
