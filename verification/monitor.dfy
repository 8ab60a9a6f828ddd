/**
 * One pass of the monitor's read loop, given the ten bytes it has read:
 * the frame is parsed and checked, and only an accepted frame is converted
 * to the air quality index.
 */
module Monitor {
  import opened Bytes
  import opened Frame
  import opened AirQuality

  /**
   * Reads the ten bytes one at a time into a list, as the read loop does;
   * the serial port is the function `readByte`, from byte position to byte.
   */
  method ReadFrame(readByte: nat -> Byte) returns (data: seq<Byte>)
    ensures |data| == FRAME_LENGTH
    ensures forall k :: 0 <= k < FRAME_LENGTH ==> data[k] == readByte(k)
  {
    data := [];
    for index := 0 to FRAME_LENGTH
      invariant |data| == index
      invariant forall k :: 0 <= k < index ==> data[k] == readByte(k)
    {
      var datum := readByte(index);
      data := data + [datum];
    }
  }

  /**
   * Handles one frame: null for a bad packet, otherwise the AQI of the
   * decoded PM2.5 and PM10 concentrations.
   */
  method HandleFrame(data: seq<Byte>) returns (report: Aqi?)
    requires |data| == FRAME_LENGTH
    ensures report == null <==> !IsGoodFrame(data)
    ensures report != null ==> fresh(report)
    ensures report != null ==>
      report.pm2_5 == Pm25(Decode(data)) && report.pm10 == Pm10(Decode(data)) &&
      report.aqi == AqiOf(report.pm2_5) && report.aqiData == RowOf(report.pm2_5)
  {
    var reading, badPacket := ParseFrame(data);
    assert reading == Decode(data);
    if !badPacket {
      report := new Aqi(Pm25(reading), Pm10(reading));
    } else {
      report := null;
    }
  }

  /**
   * For every frame, the index of its decoded PM2.5 is never negative, and is 0
   * exactly when that PM2.5 is 0 or at least 500.4.
   */
  lemma DecodedAqiRange(data: seq<Byte>)
    requires |data| == FRAME_LENGTH
    ensures var p := Pm25(Decode(data));
      AqiOf(p) >= 0.0 && (AqiOf(p) == 0.0 <==> p == 0.0 || p >= 500.4)
  {
    var p := Pm25(Decode(data));
    if p < 500.4 {
      AqiWithinBracket(p);
      var i := FirstAbove(p);
      if i > 1 {
        assert AqiOf(p) >= AQI_TABLE[i - 1].aqiThresh as real > 0.0;
      }
    }
  }
}
