/** The speed daemon's controller: average speeds between sightings, and at most one ticket per car and day. */
module SpeedController {
  import opened ByteTypes

  type Plate = string
  type Day = nat

  const UNIX_DAY: nat := 86400
  const FULL_SPEED: U16 := 0xffff

  /** Where and when a car was seen on a road. */
  datatype Obs = Obs(mile: U16, time: U32)

  datatype Sighting = Sighting(plate: Plate, road: U16, limit: U16, obs: Obs)

  datatype Ticket = Ticket(plate: Plate, road: U16, first: Obs, last: Obs, speed: U16)

  // ------------------------------------------------------------ arithmetic

  function Gap(a: int, b: int): nat {
    if a < b then b - a else a - b
  }

  /** The average speed in hundredths, as 32-bit arithmetic gives it. */
  function Speed(a: Obs, b: Obs): U16 {
    var seconds := Gap(a.time, b.time);
    if seconds == 0 then FULL_SPEED
    else
      var speed := Gap(a.mile, b.mile) * 360000 % 0x1_0000_0000 / seconds;
      if speed > FULL_SPEED then FULL_SPEED else speed
  }

  /** The test of a pair, with the limit in hundredths in 16 bits. */
  predicate Fast(limit: U16, a: Obs, b: Obs) {
    var hundredths := limit as int * 100 % 0x1_0000;
    Speed(a, b) > hundredths && Speed(a, b) - hundredths >= 50
  }

  /** At least half a mile per hour over the limit, without division. */
  predicate Offends(limit: nat, miles: nat, seconds: nat) {
    miles * 360000 >= (100 * limit + 50) * seconds
  }

  /** The highest limit and the longest distance that the arithmetic can take. */
  const TOP_LIMIT: nat := 654
  const TOP_MILES: nat := 11930

  lemma Division(x: nat, d: nat)
    requires d > 0
    ensures x / d * d <= x < (x / d + 1) * d
  {
  }

  lemma ProductGrows(a: nat, b: nat, d: nat)
    requires a <= b
    ensures a * d <= b * d
  {
    assert b * d == a * d + (b - a) * d;
  }

  lemma QuotientIff(x: nat, d: nat, k: nat)
    requires d > 0
    ensures x / d >= k <==> x >= k * d
  {
    var q := x / d;
    Division(x, d);
    if q >= k {
      ProductGrows(k, q, d);
    } else {
      ProductGrows(q + 1, k, d);
    }
  }

  /** The test, free of division: it compares the distance as 32 bits hold it with the limit as 16 bits do. */
  lemma FastIsProduct(limit: U16, a: Obs, b: Obs)
    requires a.time != b.time
    ensures var hundredths := limit as int * 100 % 0x1_0000;
      Fast(limit, a, b) <==>
        hundredths + 50 <= FULL_SPEED
        && Gap(a.mile, b.mile) * 360000 % 0x1_0000_0000 >= (hundredths + 50) * Gap(a.time, b.time)
  {
    QuotientIff(Gap(a.mile, b.mile) * 360000 % 0x1_0000_0000, Gap(a.time, b.time), limit as int * 100 % 0x1_0000 + 50);
  }

  /** Within the bounds the test is exact, and two sightings at one time always count as fast. */
  lemma FastIff(limit: U16, a: Obs, b: Obs)
    requires limit <= TOP_LIMIT && Gap(a.mile, b.mile) <= TOP_MILES
    ensures Fast(limit, a, b) <==> a.time == b.time || Offends(limit, Gap(a.mile, b.mile), Gap(a.time, b.time))
  {
    if a.time != b.time {
      hide Fast, Speed;
      FastIsProduct(limit, a, b);
      var x, least := Gap(a.mile, b.mile) * 360000, 100 * limit as int + 50;
      assert x % 0x1_0000_0000 == x;
      assert limit as int * 100 % 0x1_0000 + 50 == least;
    }
  }

  /**
    The speed is hundredths of miles per hour, rounded down and cut off at the top, as long as 32 bits hold the
    distance.
   */
  lemma SpeedExact(a: Obs, b: Obs)
    ensures var speed, distance, seconds := Speed(a, b), Gap(a.mile, b.mile) * 360000 % 0x1_0000_0000, Gap(a.time, b.time);
      && (Gap(a.mile, b.mile) <= TOP_MILES ==> distance == Gap(a.mile, b.mile) * 360000)
      && if seconds == 0 then speed == 65535
         else speed * seconds <= distance && (speed < 65535 ==> distance < (speed + 1) * seconds)
  {
    var distance, seconds := Gap(a.mile, b.mile) * 360000 % 0x1_0000_0000, Gap(a.time, b.time);
    if seconds > 0 {
      Division(distance, seconds);
      if distance / seconds > FULL_SPEED {
        ProductGrows(FULL_SPEED, distance / seconds, seconds);
      }
    }
  }

  /** The test is exact for all distances up to the longest if and only if the limit is within its bound. */
  lemma ExactIffLimit(limit: U16)
    ensures limit <= TOP_LIMIT <==>
      forall a: Obs, b: Obs :: a.time != b.time && Gap(a.mile, b.mile) <= TOP_MILES ==>
        (Fast(limit, a, b) <==> Offends(limit, Gap(a.mile, b.mile), Gap(a.time, b.time)))
  {
    hide Fast;
    if limit <= TOP_LIMIT {
      forall a: Obs, b: Obs | a.time != b.time && Gap(a.mile, b.mile) <= TOP_MILES
        ensures Fast(limit, a, b) <==> Offends(limit, Gap(a.mile, b.mile), Gap(a.time, b.time))
      {
        FastIff(limit, a, b);
      }
    } else {
      var least := limit as int * 100 % 0x1_0000 + 50;
      var a := Obs(0, 0);
      var b := if least > FULL_SPEED then Obs(TOP_MILES, 1) else Obs((least + 9) / 10, 36000);
      FastIsProduct(limit, a, b);
      assert Fast(limit, a, b) <==> !Offends(limit, Gap(a.mile, b.mile), Gap(a.time, b.time));
    }
  }

  /** The test is exact for all durations of a distance if and only if the distance is within its bound. */
  lemma ExactIffMiles(limit: U16, miles: U16)
    requires limit <= TOP_LIMIT
    ensures miles <= TOP_MILES <==>
      forall a: Obs, b: Obs :: a.time != b.time && Gap(a.mile, b.mile) == miles ==>
        (Fast(limit, a, b) <==> Offends(limit, miles, Gap(a.time, b.time)))
  {
    hide Fast;
    if miles <= TOP_MILES {
      forall a: Obs, b: Obs | a.time != b.time && Gap(a.mile, b.mile) == miles
        ensures Fast(limit, a, b) <==> Offends(limit, miles, Gap(a.time, b.time))
      {
        FastIff(limit, a, b);
      }
    } else {
      var seconds := LongestOffence(limit, miles);
      var a, b := Obs(0, 0), Obs(miles, seconds);
      FastIsProduct(limit, a, b);
      assert Offends(limit, miles, seconds) && !Fast(limit, a, b);
    }
  }

  /** The last duration at which a long distance is still an offence, which 32 bits miss. */
  lemma LongestOffence(limit: U16, miles: U16) returns (seconds: U32)
    requires limit <= TOP_LIMIT && miles > TOP_MILES
    ensures seconds > 0 && Offends(limit, miles, seconds)
    ensures miles * 360000 % 0x1_0000_0000 < (limit as int * 100 + 50) * seconds
  {
    var x: nat, least: nat := miles as int * 360000, limit as int * 100 + 50;
    Division(x, least);
    QuotientIff(x, least, 1);
    QuotientIff(x, least, 0x1_0000_0000);
    seconds := x / least;
    Wraps(x);
    assert (seconds + 1) * least == seconds * least + least;
    assert least * seconds == seconds * least;
  }

  lemma Wraps(x: nat)
    requires x >= 0x1_0000_0000
    ensures x % 0x1_0000_0000 <= x - 0x1_0000_0000
  {
  }
}
