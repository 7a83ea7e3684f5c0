/** The view of the complex plane that every renderer draws: a point of
    interest and the image it is drawn into. The floating type `F` of the
    source is `real` here. */
module Fractals {
  import opened Prelude

  /** A point of interest: the origin of the view, the width of the square
      of the plane the image covers (the pinhole), and the iteration limit. */
  datatype PoI = PoI(originX: real, originY: real, pinholeSize: real, limit: u32)

  /** The state a render loop works on: the image size, the factor that
      scales the pinhole after each frame, and the point of interest. */
  datatype Context = Context(imgWidth: u32, imgHeight: u32, pinholeStep: real, poi: PoI)

  /** Image dimensions a click position can be divided by. */
  predicate ValidContext(c: Context)
  {
    c.imgWidth > 0 && c.imgHeight > 0
  }
}
