/**
  The trial condition of the Lorenceau experiment (lorenceau-experiment.cc):
  the three random factors, their bitfield in the result record, the
  luminance levels and the motion direction.  Angles are in whole degrees.
*/
module Condition {

  /** Condition masks of the result bitfield. */
  const ConfigCw: bv8 := 1
  const ConfigControl: bv8 := 2
  const ConfigUp: bv8 := 4

  /** Line luminances a trial chooses from, in cd/m². */
  const Luminances: seq<real> := [30.0, 60.0, 90.0, 120.0, 150.0]

  /** What `uniform_int_distribution(0, size - 1)` can draw over the five luminances. */
  type LumIndex = i: int | 0 <= i < 5

  function LineLuminance(i: LumIndex): (cd: real)
    ensures cd in Luminances
    ensures cd == 30.0 * (i + 1) as real
  {
    Luminances[i]
  }

  /** The config byte: bit 0 iff clockwise, bit 1 iff control, bit 2 iff up. */
  function EncodeConfig(cw: bool, control: bool, up: bool): (b: bv8)
    ensures b < 8
    ensures (b & ConfigCw != 0) == cw
    ensures (b & ConfigControl != 0) == control
    ensures (b & ConfigUp != 0) == up
  {
    var b: bv8 := 0;
    var b := if cw then b | ConfigCw else b;
    var b := if control then b | ConfigControl else b;
    if up then b | ConfigUp else b
  }

  datatype Factors = Factors(cw: bool, control: bool, up: bool)

  function DecodeConfig(b: bv8): Factors {
    Factors(b & ConfigCw != 0, b & ConfigControl != 0, b & ConfigUp != 0)
  }

  lemma DecodeEncode(cw: bool, control: bool, up: bool)
    ensures DecodeConfig(EncodeConfig(cw, control, up)) == Factors(cw, control, up)
  {
  }

  /** Every byte below 8 is the code of exactly one condition. */
  lemma EncodeDecode(b: bv8)
    requires b < 8
    ensures var f := DecodeConfig(b); EncodeConfig(f.cw, f.control, f.up) == b
  {
  }

  /** Orientation of the lines: 110° when clockwise, 70° otherwise. */
  function Orientation(cw: bool): int {
    if cw then 110 else 70
  }

  /** Integer quotient rounded toward zero, as C truncates. */
  function TruncDiv(a: int, b: int): int
    requires b > 0
  {
    if a >= 0 then a / b else -((-a) / b)
  }

  /** C `fmod` on integral operands: `a - trunc(a / b) * b`, so the remainder has the sign of the dividend. */
  function FMod(a: int, b: int): (r: int)
    requires b > 0
    ensures -b < r < b
    ensures a >= 0 ==> r >= 0
    ensures a <= 0 ==> r <= 0
    ensures a == TruncDiv(a, b) * b + r
  {
    if a >= 0 then a % b else -((-a) % b)
  }

  /** The direction before reduction: ±90° from the orientation, +180° down, ∓140° for a test trial. */
  function RawDirection(cw: bool, up: bool, control: bool): int {
    var orient := Orientation(cw);
    var sign := if orient < 90 then -1 else 1;
    orient + sign * 90 + (if up then 0 else 180) + sign * (if control then 0 else 1) * 140
  }

  /** Motion direction, reduced by `fmod` with 360°. */
  function Direction(cw: bool, up: bool, control: bool): (d: int)
    ensures -360 < d < 360
    ensures (RawDirection(cw, up, control) - d) % 360 == 0
    ensures (RawDirection(cw, up, control) >= 0) == (d >= 0)
  {
    FMod(RawDirection(cw, up, control), 360)
  }

  /** Directions of all eight conditions. */
  lemma DirectionTable()
    ensures Direction(true, true, true) == 200 && Direction(true, false, true) == 20
    ensures Direction(true, true, false) == 340 && Direction(true, false, false) == 160
    ensures Direction(false, true, true) == -20 && Direction(false, false, true) == 160
    ensures Direction(false, true, false) == -160 && Direction(false, false, false) == 20
  {
  }

  /** In a control trial the lines move perpendicular to their orientation. */
  lemma ControlIsPerpendicular(cw: bool, up: bool)
    ensures (Direction(cw, up, true) - Orientation(cw)) % 180 == 90
  {
  }

  /** Down is the opposite of up. */
  lemma DownOpposesUp(cw: bool, control: bool)
    ensures (Direction(cw, false, control) - Direction(cw, true, control) - 180) % 360 == 0
  {
  }
}
