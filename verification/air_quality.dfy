/**
 * Conversion of a PM2.5 concentration into an air quality index by linear
 * interpolation over a fixed breakpoint table (the PM2.5 breakpoints of the
 * US EPA AQI, Appendix G to 40 CFR Part 58).
 *
 * The table is scanned in ascending order for the first row whose PM2.5
 * ceiling strictly exceeds the input; the index is interpolated between the
 * row before it and that row, and the category is that row's. When no row
 * qualifies the index stays 0 with the first row's category. The row before
 * row 0 is the last row, as Python's index -1 is.
 */
module AirQuality {

  /** One row of the table: a PM2.5 ceiling, the index at that ceiling, the category name. */
  datatype Breakpoint = Breakpoint(pm25: real, aqiThresh: int, aqiName: string)

  const AQI_TABLE: seq<Breakpoint> := [
    Breakpoint(0.0,   0,   "OFF_CHARTS"),
    Breakpoint(12.0,  50,  "Good"),
    Breakpoint(35.4,  100, "Moderate"),
    Breakpoint(55.4,  150, "Unhealthy for Sensative Groups"),
    Breakpoint(150.4, 200, "Unhealthy"),
    Breakpoint(250.4, 300, "Very Unhealthy"),
    Breakpoint(500.4, 500, "Hazardous")
  ]

  /** Both columns of the table strictly ascend. */
  predicate Ascending(table: seq<Breakpoint>)
  {
    forall i, j :: 0 <= i < j < |table| ==>
      table[i].pm25 < table[j].pm25 && table[i].aqiThresh < table[j].aqiThresh
  }

  /** The row Python reaches with `AQI_TABLE[i - 1]`: index -1 is the last row. */
  function PrevIndex(i: nat): (k: nat)
    requires i < |AQI_TABLE|
    ensures k < |AQI_TABLE|
    ensures i > 0 ==> k + 1 == i
    ensures i == 0 ==> k + 1 == |AQI_TABLE|
  {
    if i == 0 then |AQI_TABLE| - 1 else i - 1
  }

  /** The index on the straight line through the points (lo.pm25, lo.aqiThresh) and (hi.pm25, hi.aqiThresh). */
  function Interpolate(lo: Breakpoint, hi: Breakpoint, p: real): (a: real)
    requires lo.pm25 != hi.pm25
    ensures p == lo.pm25 ==> a == lo.aqiThresh as real
    ensures p == hi.pm25 ==> a == hi.aqiThresh as real
  {
    (p - lo.pm25) * (hi.aqiThresh - lo.aqiThresh) as real / (hi.pm25 - lo.pm25) + lo.aqiThresh as real
  }

  /**
   * The position of the first row whose ceiling strictly exceeds p, searching
   * from row k on; |AQI_TABLE| when there is none.
   */
  function FirstAboveFrom(p: real, k: nat): (i: nat)
    requires k <= |AQI_TABLE|
    requires forall j :: 0 <= j < k ==> AQI_TABLE[j].pm25 <= p
    ensures k <= i <= |AQI_TABLE|
    ensures forall j :: 0 <= j < i ==> AQI_TABLE[j].pm25 <= p
    ensures i < |AQI_TABLE| ==> p < AQI_TABLE[i].pm25
    decreases |AQI_TABLE| - k
  {
    if k == |AQI_TABLE| then k
    else if p < AQI_TABLE[k].pm25 then k
    else FirstAboveFrom(p, k + 1)
  }

  /** The position of the first row whose ceiling strictly exceeds p; |AQI_TABLE| when there is none. */
  function FirstAbove(p: real): (i: nat)
    ensures i <= |AQI_TABLE|
    ensures forall j :: 0 <= j < i ==> AQI_TABLE[j].pm25 <= p
    ensures i < |AQI_TABLE| ==> p < AQI_TABLE[i].pm25
  {
    FirstAboveFrom(p, 0)
  }

  /**
   * The index the conversion reports for a PM2.5 concentration: on the table's
   * range it lies in [0, 500), and from the top ceiling up it is 0.
   */
  function AqiOf(p: real): (a: real)
    ensures 0.0 <= p < 500.4 ==> 0.0 <= a < 500.0
    ensures p >= 500.4 ==> a == 0.0
  {
    var i := FirstAbove(p);
    if i == |AQI_TABLE| then 0.0
    else
      var lo, hi := AQI_TABLE[PrevIndex(i)], AQI_TABLE[i];
      if p >= 0.0 then
        InterpolateBounds(lo, hi, p);
        Interpolate(lo, hi, p)
      else Interpolate(lo, hi, p)
  }

  /**
   * The row whose category the conversion reports for a PM2.5 concentration:
   * a table row, and the OFF_CHARTS row exactly outside [0, 500.4).
   */
  function RowOf(p: real): (row: Breakpoint)
    ensures row in AQI_TABLE
    ensures row.aqiName == "OFF_CHARTS" <==> p < 0.0 || p >= 500.4
  {
    var i := FirstAbove(p);
    if i == |AQI_TABLE| then AQI_TABLE[0] else AQI_TABLE[i]
  }

  /**
   * A reading converted to the index: the concentrations as given, the index
   * and the table row that supplies its category.
   */
  class Aqi {
    var pm2_5: real
    var pm10: real
    var aqi: real
    var aqiData: Breakpoint

    /** Scans the table, stopping at the first row whose ceiling exceeds pm2_5. */
    constructor (pm2_5: real, pm10: real)
      ensures this.pm2_5 == pm2_5 && this.pm10 == pm10
      ensures aqi == AqiOf(pm2_5) && aqiData == RowOf(pm2_5)
    {
      this.pm2_5 := pm2_5;
      this.pm10 := pm10;
      aqi := 0.0;
      aqiData := AQI_TABLE[0];
      new;
      for i := 0 to |AQI_TABLE|
        invariant this.pm2_5 == pm2_5 && this.pm10 == pm10
        invariant aqi == 0.0 && aqiData == AQI_TABLE[0]
        invariant forall j :: 0 <= j < i ==> AQI_TABLE[j].pm25 <= pm2_5
      {
        var row := AQI_TABLE[i];
        if this.pm2_5 < row.pm25 {
          var prev := AQI_TABLE[PrevIndex(i)];
          aqi := Interpolate(prev, row, this.pm2_5);
          aqiData := row;
          FirstAboveIsUnique(pm2_5, i);
          break;
        }
      }
    }
  }

  /** Any position meeting FirstAbove's characterisation is the one it returns. */
  lemma FirstAboveIsUnique(p: real, i: nat)
    requires i < |AQI_TABLE|
    requires forall j :: 0 <= j < i ==> AQI_TABLE[j].pm25 <= p
    requires p < AQI_TABLE[i].pm25
    ensures FirstAbove(p) == i
  {
  }

  // ---------------------------------------------------------------------------
  // Properties

  /** The table's ceilings and thresholds both strictly ascend. */
  lemma TableAscending()
    ensures Ascending(AQI_TABLE)
  {
  }

  /**
   * On a segment with rising ends, the line stays between the two thresholds,
   * touching the lower one exactly at the lower ceiling.
   */
  lemma InterpolateBounds(lo: Breakpoint, hi: Breakpoint, p: real)
    requires lo.pm25 <= p < hi.pm25 && lo.aqiThresh < hi.aqiThresh
    ensures lo.aqiThresh as real <= Interpolate(lo, hi, p) < hi.aqiThresh as real
    ensures Interpolate(lo, hi, p) == lo.aqiThresh as real <==> p == lo.pm25
  {
    var x, d, k := p - lo.pm25, hi.pm25 - lo.pm25, (hi.aqiThresh - lo.aqiThresh) as real;
    assert 0.0 <= x * k < d * k;
    assert x * k / d < k by {
      assert x * k / d * d == x * k;
    }
    assert x * k / d == 0.0 <==> x == 0.0;
  }

  /** On a segment with rising ends, the line rises with p. */
  lemma InterpolateMonotone(lo: Breakpoint, hi: Breakpoint, x: real, y: real)
    requires lo.pm25 < hi.pm25 && lo.aqiThresh < hi.aqiThresh && x <= y
    ensures Interpolate(lo, hi, x) <= Interpolate(lo, hi, y)
  {
    var d, k := hi.pm25 - lo.pm25, (hi.aqiThresh - lo.aqiThresh) as real;
    var u, v := (x - lo.pm25) * k, (y - lo.pm25) * k;
    assert u <= v;
    assert u / d <= v / d by {
      var q := 1.0 / d;
      assert q > 0.0;
      assert u / d == u * q && v / d == v * q;
      assert (v - u) * q >= 0.0;
    }
  }

  /**
   * For 0 <= p < 500.4 the selected row is the first whose ceiling exceeds p,
   * its predecessor's ceiling is at most p, the index lies between the two
   * rows' thresholds, and it equals the lower threshold exactly at the lower
   * ceiling.
   */
  lemma AqiWithinBracket(p: real)
    requires 0.0 <= p < 500.4
    ensures var i := FirstAbove(p);
      1 <= i < |AQI_TABLE| &&
      AQI_TABLE[i - 1].pm25 <= p < AQI_TABLE[i].pm25 &&
      (forall j :: 0 <= j < i ==> AQI_TABLE[j].pm25 <= p) &&
      RowOf(p) == AQI_TABLE[i] &&
      AQI_TABLE[i - 1].aqiThresh as real <= AqiOf(p) < AQI_TABLE[i].aqiThresh as real &&
      (AqiOf(p) == AQI_TABLE[i - 1].aqiThresh as real <==> p == AQI_TABLE[i - 1].pm25)
  {
    var i := FirstAbove(p);
    assert i != 0 && i != |AQI_TABLE|;
    InterpolateBounds(AQI_TABLE[i - 1], AQI_TABLE[i], p);
  }

  /** Below 500.4 the index never falls as the concentration rises. */
  lemma AqiMonotone(x: real, y: real)
    requires 0.0 <= x <= y < 500.4
    ensures AqiOf(x) <= AqiOf(y)
  {
    var ix, iy := FirstAbove(x), FirstAbove(y);
    AqiWithinBracket(x);
    AqiWithinBracket(y);
    if ix == iy {
      InterpolateMonotone(AQI_TABLE[ix - 1], AQI_TABLE[ix], x, y);
    } else {
      assert ix < iy;
      var top, bottom := AQI_TABLE[ix].aqiThresh, AQI_TABLE[iy - 1].aqiThresh;
      assert top <= bottom by {
        TableAscending();
        if ix < iy - 1 {
          assert AQI_TABLE[ix].aqiThresh < AQI_TABLE[iy - 1].aqiThresh;
        }
      }
      assert AqiOf(x) < top as real && bottom as real <= AqiOf(y);
    }
  }

  /** At or above the top ceiling no row is selected: index 0, category OFF_CHARTS. */
  lemma AqiAboveTable(p: real)
    requires p >= 500.4
    ensures AqiOf(p) == 0.0
    ensures RowOf(p) == AQI_TABLE[0] && RowOf(p).aqiName == "OFF_CHARTS"
  {
  }

  /**
   * Below zero the first row is selected and its predecessor is the last row,
   * so the index is p * 500 / 500.4 with category OFF_CHARTS.
   */
  lemma AqiBelowZero(p: real)
    requires p < 0.0
    ensures AqiOf(p) == p * 500.0 / 500.4
    ensures RowOf(p).aqiName == "OFF_CHARTS"
  {
    assert FirstAbove(p) == 0;
    assert PrevIndex(0) == 6;
  }

  /** Index values at the breakpoints and one interior point. */
  lemma KnownValues()
    ensures AqiOf(0.0) == 0.0 && RowOf(0.0).aqiName == "Good"
    ensures AqiOf(6.0) == 25.0 && RowOf(6.0).aqiName == "Good"
    ensures AqiOf(12.0) == 50.0 && RowOf(12.0).aqiName == "Moderate"
    ensures AqiOf(35.4) == 100.0 && RowOf(35.4).aqiName == "Unhealthy for Sensative Groups"
    ensures AqiOf(55.4) == 150.0 && RowOf(55.4).aqiName == "Unhealthy"
    ensures AqiOf(250.4) == 300.0 && RowOf(250.4).aqiName == "Hazardous"
  {
    FirstAboveIsUnique(0.0, 1);
    FirstAboveIsUnique(6.0, 1);
    FirstAboveIsUnique(12.0, 2);
    FirstAboveIsUnique(35.4, 3);
    FirstAboveIsUnique(55.4, 4);
    FirstAboveIsUnique(250.4, 6);
  }

  /** The index falls from nearly 500 to 0 across the top ceiling. */
  lemma AqiDropsAtTopCeiling()
    ensures AqiOf(500.3) > 499.0 && AqiOf(500.4) == 0.0
  {
    FirstAboveIsUnique(500.3, 6);
  }
}
