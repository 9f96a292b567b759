/**
 The unit formatter: scales a byte rate into one of nine base-1024 units,
 from B/s up to YiB/s, clamping a negative rate to 0 B/s.

 Rates are exact reals here rather than IEEE doubles.
 */
module UnitFormatter {

  /** Unit labels, indexed by the power of 1024 they stand for. */
  const Titles: seq<string> :=
    ["B/s", "KiB/s", "MiB/s", "GiB/s", "TiB/s", "PiB/s", "EiB/s", "ZiB/s", "YiB/s"]

  /** The largest unit, YiB/s. */
  const MaxUnit: nat := 8

  type UnitIndex = k: nat | k <= MaxUnit

  /** A scaled magnitude and the index of its unit label. */
  datatype ReadableSpeed = ReadableSpeed(speed: real, unit: UnitIndex) {
    function Title(): string {
      Titles[unit]
    }
  }

  /** 1024 raised to the power `k`. */
  function Pow1024(k: nat): (p: real)
    ensures p >= 1.0
  {
    if k == 0 then 1.0 else 1024.0 * Pow1024(k - 1)
  }

  /** The powers the formatter compares against, as numerals. */
  lemma Pow1024Values()
    ensures Pow1024(1) == 1024.0
    ensures Pow1024(2) == 1048576.0
    ensures Pow1024(3) == 1073741824.0
    ensures Pow1024(4) == 1099511627776.0
    ensures Pow1024(5) == 1125899906842624.0
    ensures Pow1024(6) == 1152921504606846976.0
    ensures Pow1024(7) == 1180591620717411303424.0
    ensures Pow1024(8) == 1208925819614629174706176.0
    ensures Pow1024(9) == 1237940039285380274899124224.0
  {
  }

  /** Higher powers are at least a factor 1024 larger. */
  lemma {:induction false} Pow1024Grows(i: nat, j: nat)
    requires i < j
    ensures 1024.0 * Pow1024(i) <= Pow1024(j)
    decreases j
  {
    if i + 1 < j {
      Pow1024Grows(i, j - 1);
    }
  }

  /** The threshold chain: the index of the unit whose band
      `[1024^k, 1024^(k+1))` holds a non-negative rate, where the lowest band
      also takes everything below 1024 and the highest everything above
      1024^8. */
  function UnitOf(speed: real): (k: UnitIndex)
    requires 0.0 <= speed
    ensures k == 0 || Pow1024(k) <= speed
    ensures k == MaxUnit || speed < Pow1024(k + 1)
  {
    Pow1024Values();
    if speed < 1024.0 then 0
    else if speed < Pow1024(2) then 1
    else if speed < Pow1024(3) then 2
    else if speed < Pow1024(4) then 3
    else if speed < Pow1024(5) then 4
    else if speed < Pow1024(6) then 5
    else if speed < Pow1024(7) then 6
    else if speed < Pow1024(8) then 7
    else 8
  }

  /** Clamps a negative rate to 0 B/s; otherwise picks the unit of the rate's
      band and divides the rate by `1024^k`, so the magnitude times the unit
      gives back the rate and stays below 1024 except in YiB/s. */
  function FromBytes(speed: real): (r: ReadableSpeed)
    ensures speed < 0.0 ==> r == ReadableSpeed(0.0, 0)
    ensures 0.0 <= speed ==> r.speed == speed / Pow1024(r.unit)
    ensures 0.0 <= speed ==> r.unit == 0 || Pow1024(r.unit) <= speed
    ensures 0.0 <= speed ==> r.unit == MaxUnit || speed < Pow1024(r.unit + 1)
    ensures 0.0 <= r.speed
    ensures r.unit < MaxUnit ==> r.speed < 1024.0
    ensures 0 < r.unit ==> 1.0 <= r.speed
  {
    if speed < 0.0 then ReadableSpeed(0.0, 0)
    else
      var k := UnitOf(speed);
      ReadableSpeed(Scale(speed, k), k)
  }

  /** A rate inside the band of unit `k`, divided by `1024^k`. */
  function Scale(speed: real, k: UnitIndex): (m: real)
    requires 0.0 <= speed
    requires k == 0 || Pow1024(k) <= speed
    requires k == MaxUnit || speed < Pow1024(k + 1)
    ensures m * Pow1024(k) == speed
    ensures m == speed / Pow1024(k)
    ensures 0.0 <= m
    ensures k < MaxUnit ==> m < 1024.0
    ensures 0 < k ==> 1.0 <= m
  {
    var p := Pow1024(k);
    assert Pow1024(k + 1) == 1024.0 * p;
    assert (speed / p) * p == speed;
    speed / p
  }

  /** Scaling back up by the chosen unit gives back the rate exactly. */
  lemma FromBytesRoundTrip(speed: real)
    requires 0.0 <= speed
    ensures FromBytes(speed).speed * Pow1024(FromBytes(speed).unit) == speed
  {
    var k := UnitOf(speed);
    assert FromBytes(speed) == ReadableSpeed(Scale(speed, k), k);
  }

  /** The band a non-negative rate falls in determines its unit: any unit
      index meeting the band conditions is the one `FromBytes` picks. */
  lemma FromBytesBandUnique(speed: real, k: UnitIndex)
    requires 0.0 <= speed
    requires k == 0 || Pow1024(k) <= speed
    requires k == MaxUnit || speed < Pow1024(k + 1)
    ensures FromBytes(speed).unit == k
  {
    var u := FromBytes(speed).unit;
    if k < u {
      if k + 1 < u {
        Pow1024Grows(k + 1, u);
      }
    } else if u < k {
      if u + 1 < k {
        Pow1024Grows(u + 1, k);
      }
    }
  }

  /** A higher rate never gets a smaller unit. */
  lemma FromBytesMonotone(s1: real, s2: real)
    requires s1 <= s2
    ensures FromBytes(s1).unit <= FromBytes(s2).unit
  {
    var u1, u2 := FromBytes(s1).unit, FromBytes(s2).unit;
    if u2 < u1 {
      if u2 + 1 < u1 {
        Pow1024Grows(u2 + 1, u1);
      }
    }
  }

  /** Boundary cases: just under 1 KiB/s stays in B/s; exactly 1 KiB/s and
      exactly 1 MiB/s read as 1.0 of their unit. */
  lemma FromBytesBoundaries()
    ensures FromBytes(1023.999).Title() == "B/s"
    ensures FromBytes(1024.0) == ReadableSpeed(1.0, 1)
    ensures FromBytes(1024.0 * 1024.0) == ReadableSpeed(1.0, 2)
    ensures FromBytes(-5.0).Title() == "B/s" && FromBytes(-5.0).speed == 0.0
  {
  }
}
