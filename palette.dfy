/** The rainbow colour map: points that never escape are black, the others
    take a fully saturated hue that goes once round the colour circle every
    360 iterations, in six sectors of 60. */
module Palette {
  import opened Prelude

  datatype Rgb = Rgb(r: byte, g: byte, b: byte)

  const Black := Rgb(0, 0, 0)

  /** The sector of the colour circle an iteration count falls in, which
      indexes the three channel tables. */
  function Sector(iteration: nat): (i: nat)
    ensures i < 6
  {
    (iteration % 360) / 60
  }

  /** The shade that rises from 0 towards 255 across a sector: the
      fractional part of the sector position, scaled to a byte and
      truncated. */
  function Rising(iteration: nat): (f: byte)
    ensures (iteration % 360) % 60 == 0 ==> f == 0
  {
    ((iteration % 360) % 60 * 255) / 60
  }

  /** The shade that falls from 255 across a sector: one minus the
      fractional part, scaled and truncated. */
  function Falling(iteration: nat): (q: byte)
    ensures (iteration % 360) % 60 == 0 ==> q == 255
  {
    ((60 - (iteration % 360) % 60) * 255) / 60
  }

  /** The colour of an escaped point that took `iteration` steps. */
  function Hue(iteration: nat): (c: Rgb)
    ensures c.r == 255 || c.g == 255 || c.b == 255
    ensures c.r == 0 || c.g == 0 || c.b == 0
  {
    var i, f, q := Sector(iteration), Rising(iteration), Falling(iteration);
    var reds: seq<byte> := [255, q, 0, 0, f, 255];
    var greens: seq<byte> := [f, 255, 255, q, 0, 0];
    var blues: seq<byte> := [0, 0, f, 255, 255, q];
    Rgb(reds[i], greens[i], blues[i])
  }

  /** `color_rainbow`: black for a point that reached the limit, its hue
      otherwise. */
  function ColorRainbow(iteration: u32, limit: u32): (c: Rgb)
    ensures c == Black <==> iteration >= limit
    ensures iteration < limit ==> c == Hue(iteration)
  {
    if iteration < limit then Hue(iteration) else Black
  }

  /** The hue depends on the iteration count only modulo 360. */
  lemma HuePeriodic(iteration: nat)
    ensures Hue(iteration + 360) == Hue(iteration)
    ensures Hue(iteration) == Hue(iteration % 360)
  {
    assert (iteration + 360) % 360 == iteration % 360;
    assert (iteration % 360) % 360 == iteration % 360;
  }

  /** Below the limit, two counts 360 apart get the same colour. */
  lemma ColorRainbowPeriodic(iteration: u32, limit: u32)
    requires iteration + 360 < limit
    ensures ColorRainbow(iteration + 360, limit) == ColorRainbow(iteration, limit)
  {
    HuePeriodic(iteration);
  }

  /** Every multiple of 360 starts the circle again at pure red. */
  lemma HueAtMultiple(iteration: nat)
    requires iteration % 360 == 0
    ensures Hue(iteration) == Rgb(255, 0, 0)
  {
  }

  /** At each sector boundary the colour is one of the six corners of the
      colour cube the circle passes through. */
  lemma HueSectorStarts()
    ensures Hue(0) == Rgb(255, 0, 0)
    ensures Hue(60) == Rgb(255, 255, 0)
    ensures Hue(120) == Rgb(0, 255, 0)
    ensures Hue(180) == Rgb(0, 255, 255)
    ensures Hue(240) == Rgb(0, 0, 255)
    ensures Hue(300) == Rgb(255, 0, 255)
  {
  }
}
