/** The valuation ladder, `getValuationLevel` of src/App.js: a percentage is
    compared against 80, 60, 40 and 20 from the top down, and the first
    threshold it reaches picks the level (1 is best, 5 is worst). */
module ValuationLadder {

  /** A level, its revenue-multiple band, and an opaque display tag. */
  datatype Valuation = Valuation(level: int, range: string, color: string)

  /** The first threshold the percentage reaches, from the top, decides the
      level; the exact thresholds belong to the better level, and any
      percentage, in range or not, gets a level. */
  function GetValuationLevel(percentage: real): (v: Valuation)
    ensures 1 <= v.level <= 5
    ensures v.level == 1 <==> 80.0 <= percentage
    ensures v.level == 2 <==> 60.0 <= percentage < 80.0
    ensures v.level == 3 <==> 40.0 <= percentage < 60.0
    ensures v.level == 4 <==> 20.0 <= percentage < 40.0
    ensures v.level == 5 <==> percentage < 20.0
  {
    if percentage >= 80.0 then Valuation(1, "15-25x ARR", "bg-green-500")
    else if percentage >= 60.0 then Valuation(2, "10-15x ARR", "bg-green-300")
    else if percentage >= 40.0 then Valuation(3, "6-10x ARR", "bg-yellow-400")
    else if percentage >= 20.0 then Valuation(4, "3-6x ARR", "bg-orange-400")
    else Valuation(5, "1-3x ARR", "bg-red-500")
  }

  /** The thresholds of the ladder, best first. */
  const Thresholds: seq<real> := [80.0, 60.0, 40.0, 20.0]

  /** How many of `thresholds` the percentage reaches. */
  function CountReached(thresholds: seq<real>, percentage: real): (n: nat)
    ensures n <= |thresholds|
  {
    if |thresholds| == 0 then 0
    else (if percentage >= thresholds[0] then 1 else 0) + CountReached(thresholds[1..], percentage)
  }

  /** Reference reading of the ladder: the level is 5 minus the number of
      thresholds reached. */
  lemma LevelCountsThresholds(percentage: real)
    ensures GetValuationLevel(percentage).level == 5 - CountReached(Thresholds, percentage)
  {
    var p := percentage;
    assert [20.0][1..] == [];
    assert CountReached([20.0], p) == if p >= 20.0 then 1 else 0;
    assert [40.0, 20.0][1..] == [20.0];
    assert CountReached([40.0, 20.0], p) == (if p >= 40.0 then 1 else 0) + CountReached([20.0], p);
    assert [60.0, 40.0, 20.0][1..] == [40.0, 20.0];
    assert CountReached([60.0, 40.0, 20.0], p) == (if p >= 60.0 then 1 else 0) + CountReached([40.0, 20.0], p);
    assert Thresholds[1..] == [60.0, 40.0, 20.0];
  }

  /** A higher percentage never gets a worse level. */
  lemma LevelAntitone(p: real, q: real)
    requires p <= q
    ensures GetValuationLevel(q).level <= GetValuationLevel(p).level
  {
  }

  /** Each level carries exactly one range label, and different levels
      carry different labels. */
  lemma RangeMatchesLevel(p: real, q: real)
    ensures GetValuationLevel(p).range == GetValuationLevel(q).range
        <==> GetValuationLevel(p).level == GetValuationLevel(q).level
  {
  }

  /** The boundary values fall on the better side. */
  lemma ThresholdBoundaries()
    ensures GetValuationLevel(80.0) == Valuation(1, "15-25x ARR", "bg-green-500")
    ensures GetValuationLevel(60.0) == Valuation(2, "10-15x ARR", "bg-green-300")
    ensures GetValuationLevel(40.0) == Valuation(3, "6-10x ARR", "bg-yellow-400")
    ensures GetValuationLevel(20.0) == Valuation(4, "3-6x ARR", "bg-orange-400")
    ensures GetValuationLevel(0.0) == Valuation(5, "1-3x ARR", "bg-red-500")
  {
  }
}
