/**
 * `ConvertWinDirection.ConvertWindDirection`: a wind bearing in whole
 * degrees becomes one of the sixteen compass points.
 */
module WindDirection {
  import opened Wrappers

  /** The sixteen labels, clockwise from north, 22.5 degrees apart. */
  const Directions: seq<string> :=
    ["N", "NNE", "NE", "ENE", "E", "ESE", "SE", "SSE",
     "S", "SSW", "SW", "WSW", "W", "WNW", "NW", "NNW"]

  /**
   * `Math.Round(degrees / 22.5)` for an integer argument.  The quotient is
   * 2 * degrees / 45, which is never exactly halfway between two integers,
   * so the rounding mode does not matter and the result is the floor of
   * the quotient plus one half.
   */
  function RoundedSector(degrees: int): (k: int)
    ensures -45 < 4 * degrees - 90 * k < 45
  {
    var n := 4 * degrees + 45;
    var q, r := n / 90, n % 90;
    assert n == 90 * q + r && 0 <= r < 90;
    assert r != 0 by {
      assert n == 2 * (2 * degrees + 22) + 1;
      assert 90 * q == 2 * (45 * q);
    }
    q
  }

  /** The rounded sector is within one half of degrees / 22.5, with no tie. */
  lemma RoundedSectorIsNearest(degrees: int)
    ensures -0.5 < degrees as real / 22.5 - RoundedSector(degrees) as real < 0.5
  {
    var k := RoundedSector(degrees);
    var gap := 4 * degrees - 90 * k;
    assert degrees as real / 22.5 - k as real == gap as real / 90.0;
  }

  /** No other integer is within one half of degrees / 22.5. */
  lemma RoundedSectorUnique(degrees: int, k: int)
    requires -0.5 <= degrees as real / 22.5 - k as real <= 0.5
    ensures k == RoundedSector(degrees)
  {
    var gap := 4 * degrees - 90 * k;
    assert degrees as real / 22.5 - k as real == gap as real / 90.0;
    assert -45 <= gap <= 45;
    assert gap != 45 && gap != -45 by {
      assert gap == 2 * (2 * degrees - 45 * k);
    }
    var r := RoundedSector(degrees);
    assert -90 < 90 * (r - k) < 90;
  }

  /** C#'s `%` by 16 on `int`: truncating division, so the remainder takes the dividend's sign. */
  function Remainder16(a: int): (r: int)
    ensures -16 < r < 16
    ensures a >= 0 ==> r == a % 16
    ensures a < 0 ==> r <= 0 && (r == 0 <==> a % 16 == 0)
  {
    if a >= 0 then a % 16 else -((-a) % 16)
  }

  /** The array index the source computes; a negative one makes the array access throw. */
  function DirectionIndex(degrees: int): int {
    Remainder16(RoundedSector(degrees))
  }

  /**
   * The label for `degrees`, or None where the source's array access throws
   * `IndexOutOfRangeException`.
   */
  function ConvertWindDirection(degrees: int): (point: Option<string>)
    ensures point.Some? <==> degrees >= -11 || RoundedSector(degrees) % 16 == 0
    ensures point.Some? ==> point.value in Directions
    ensures degrees >= 0 ==> point == Some(Directions[((4 * degrees + 45) / 90) % 16])
    ensures point.Some? && degrees < 0 ==> point.value == "N"
  {
    var index := DirectionIndex(degrees);
    if 0 <= index < 16 then Some(Directions[index]) else None
  }

  /** Every non-negative bearing yields a label, with index in 0..15. */
  lemma NonNegativeBearingsConvert(degrees: int)
    requires degrees >= 0
    ensures 0 <= DirectionIndex(degrees) < 16
    ensures ConvertWindDirection(degrees) == Some(Directions[DirectionIndex(degrees)])
  {
  }

  /** The four cardinal points. */
  lemma CardinalPoints()
    ensures ConvertWindDirection(0) == Some("N")
    ensures ConvertWindDirection(90) == Some("E")
    ensures ConvertWindDirection(180) == Some("S")
    ensures ConvertWindDirection(270) == Some("W")
  {
    assert DirectionIndex(0) == 0 && Directions[0] == "N";
    assert DirectionIndex(90) == 4 && Directions[4] == "E";
    assert DirectionIndex(180) == 8 && Directions[8] == "S";
    assert DirectionIndex(270) == 12 && Directions[12] == "W";
  }

  /** Boundaries of the northern sector and its neighbours. */
  lemma SectorBoundaries()
    ensures ConvertWindDirection(11) == Some("N")
    ensures ConvertWindDirection(12) == Some("NNE")
    ensures ConvertWindDirection(348) == Some("NNW")
    ensures ConvertWindDirection(349) == Some("N")
  {
    assert DirectionIndex(11) == 0 && Directions[0] == "N";
    assert DirectionIndex(12) == 1 && Directions[1] == "NNE";
    assert DirectionIndex(348) == 15 && Directions[15] == "NNW";
    assert RoundedSector(349) == 16;
    assert DirectionIndex(349) == 0;
  }

  /** Small negative bearings round to north; -12 throws; a whole negative turn is north again. */
  lemma NegativeExamples()
    ensures ConvertWindDirection(-11) == Some("N")
    ensures ConvertWindDirection(-12) == None
    ensures ConvertWindDirection(-360) == Some("N")
  {
    assert RoundedSector(-11) == 0;
    assert DirectionIndex(-11) == 0 && Directions[0] == "N";
    assert RoundedSector(-12) == -1;
    assert DirectionIndex(-12) == -1;
    assert RoundedSector(-360) == -16;
    assert DirectionIndex(-360) == 0;
  }

  /** A full turn gives the same label wherever the source does not throw. */
  lemma FullTurn(degrees: int)
    requires degrees >= -11
    ensures ConvertWindDirection(degrees + 360) == ConvertWindDirection(degrees)
  {
    var k, k' := RoundedSector(degrees), RoundedSector(degrees + 360);
    assert -90 < 90 * (k' - 16 - k) < 90;
    assert k' == k + 16;
    assert k >= 0;
    assert (k + 16) % 16 == k % 16;
  }

  /** Bearings from -12 down to -348 throw: their rounded sector is -15..-1. */
  lemma NegativeBearingsThrow(degrees: int)
    requires -348 <= degrees <= -12
    ensures ConvertWindDirection(degrees) == None
  {
  }
}
