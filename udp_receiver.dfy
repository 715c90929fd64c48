/**
 * The text side of the ADAS UDP receiver: `split` over a string stream and
 * the classification of a datagram into a data packet, an event or nothing.
 * The timestamps are converted with `stoull` (Config.StoUL). Floating point
 * is not modelled: the other numeric fields stay text, and whether `stod` or
 * `stof` accepts a field is a parameter, since the conversion is done by the
 * C library.
 */
module UdpReceiver {
  import opened Wrappers
  import opened Ints
  import Text
  import Config
  import Decimal

  /** What `parse_message` hands to a callback, if anything. */
  datatype Packet =
    | Ignored
      /** An `ADAS_DATA` datagram: its timestamp, then latitude, longitude and eight sensor readings. */
    | AdasData(timestamp: u64, readings: seq<string>)
      /** An `ADAS_EVENT` datagram. */
    | AdasEvent(eventType: string, value: string, latitude: string, longitude: string, timestamp: u64)

  /** Whether `stod` and `stof` return for a text rather than throw. */
  datatype FloatReader = FloatReader(stod: string -> bool, stof: string -> bool)

  /**
   * Every conversion of an ADAS_DATA datagram returns: `stoull` on the
   * timestamp, `stod` on latitude and longitude, `stof` on the eight readings.
   */
  predicate DataConverts(parts: seq<string>, fr: FloatReader)
    requires |parts| >= 12
  {
    Config.StoUL(parts[1]).Some? && fr.stod(parts[2]) && fr.stod(parts[3])
    && forall i :: 4 <= i < 12 ==> fr.stof(parts[i])
  }

  /** Every conversion of an ADAS_EVENT datagram returns: `stof` on the value, `stod` on the position, `stoull` on the timestamp. */
  predicate EventConverts(parts: seq<string>, fr: FloatReader)
    requires |parts| >= 6
  {
    fr.stof(parts[2]) && fr.stod(parts[3]) && fr.stod(parts[4]) && Config.StoUL(parts[5]).Some?
  }

  /** `split(str, delimiter)`: tokens collected by a `getline` loop. */
  method Split(str: string, delimiter: char) returns (tokens: seq<string>)
    ensures tokens == Text.Split(str, delimiter)
  {
    tokens := [];
    var pos := 0;
    while true
      invariant pos <= |str|
      invariant tokens + Text.Split(str[pos..], delimiter) == Text.Split(str, delimiter)
      decreases |str| - pos
    {
      var ok, token, next := Text.GetLine(str, pos, delimiter);
      if !ok {
        break;
      }
      tokens := tokens + [token];
      pos := next;
    }
  }

  /**
   * The branches of `parse_message` over the comma-separated fields: a
   * conversion that throws inside the `try` is caught, and no callback fires.
   */
  function Classify(parts: seq<string>, fr: FloatReader): (p: Packet)
    ensures p.AdasData? <==> |parts| >= 12 && parts[0] == "ADAS_DATA" && DataConverts(parts, fr)
    ensures p.AdasEvent? <==> |parts| >= 6 && parts[0] == "ADAS_EVENT" && EventConverts(parts, fr)
    ensures p.AdasData? ==> |parts| >= 12 && Config.StoUL(parts[1]) == Some(p.timestamp) && p.readings == parts[2..12]
    ensures p.AdasEvent? ==>
      |parts| >= 6 && parts[1..5] == [p.eventType, p.value, p.latitude, p.longitude] && Config.StoUL(parts[5]) == Some(p.timestamp)
  {
    if parts == [] then Ignored
    else if parts[0] == "ADAS_DATA" && |parts| >= 12 then
      if DataConverts(parts, fr) then AdasData(Config.StoUL(parts[1]).value, parts[2..12]) else Ignored
    else if parts[0] == "ADAS_EVENT" && |parts| >= 6 then
      if EventConverts(parts, fr) then AdasEvent(parts[1], parts[2], parts[3], parts[4], Config.StoUL(parts[5]).value) else Ignored
    else Ignored
  }

  /** `parse_message(message, client_ip)`: which callback fires, and with which fields. */
  method ParseMessage(message: string, fr: FloatReader) returns (p: Packet)
    ensures p == Classify(Text.Split(message, ','), fr)
  {
    var parts := Split(message, ',');
    if |parts| == 0 {
      return Ignored;
    }
    p := Ignored;
    if parts[0] == "ADAS_DATA" && |parts| >= 12 {
      var timestamp := Config.StoUL(parts[1]);
      if timestamp.Some? && fr.stod(parts[2]) && fr.stod(parts[3]) {
        var i := 4;
        while i < 12 && fr.stof(parts[i])
          invariant 4 <= i <= 12
          invariant forall k :: 4 <= k < i ==> fr.stof(parts[k])
        {
          i := i + 1;
        }
        if i == 12 {
          p := AdasData(timestamp.value, parts[2..12]);
        }
      }
    } else if parts[0] == "ADAS_EVENT" && |parts| >= 6 {
      var timestamp := Config.StoUL(parts[5]);
      if fr.stof(parts[2]) && fr.stod(parts[3]) && fr.stod(parts[4]) && timestamp.Some? {
        p := AdasEvent(parts[1], parts[2], parts[3], parts[4], timestamp.value);
      }
    }
  }

  /** An empty datagram is dropped. */
  lemma EmptyIgnored(fr: FloatReader)
    ensures Classify(Text.Split("", ','), fr) == Ignored
  {
  }

  /**
   * Only datagrams tagged ADAS_DATA or ADAS_EVENT with enough fields, all of
   * whose numeric fields convert, reach a callback.
   */
  lemma {:induction false} OnlyTaggedAccepted(message: string, fr: FloatReader)
    ensures Classify(Text.Split(message, ','), fr) != Ignored ==>
      var parts := Text.Split(message, ',');
      (parts[0] == "ADAS_DATA" && |parts| >= 12 && DataConverts(parts, fr))
      || (parts[0] == "ADAS_EVENT" && |parts| >= 6 && EventConverts(parts, fr))
  {
  }

  /** A data datagram whose timestamp does not start with a digit is dropped, whatever `stod` and `stof` accept. */
  lemma BadTimestampDropped(parts: seq<string>, fr: FloatReader)
    requires |parts| >= 12 && parts[0] == "ADAS_DATA"
    requires var j := Config.DigitsStart(parts[1]); j == |parts[1]| || parts[1][j] !in Config.Digits
    ensures Classify(parts, fr) == Ignored
  {
    Config.NoDigitsThrows(parts[1]);
  }

  /**
   * A well-formed event datagram, written as its fields joined by commas,
   * is delivered with its event type and values verbatim and its timestamp
   * converted, once every numeric field converts.
   */
  lemma EventDelivered(parts: seq<string>, fr: FloatReader)
    requires |parts| >= 6 && parts[0] == "ADAS_EVENT"
    requires forall i :: 0 <= i < |parts| ==> ',' !in parts[i]
    requires parts[|parts| - 1] != []
    requires EventConverts(parts, fr)
    ensures Classify(Text.Split(Text.Join(parts, ','), ','), fr)
      == AdasEvent(parts[1], parts[2], parts[3], parts[4], Config.StoUL(parts[5]).value)
  {
    Text.SplitJoin(parts, ',');
  }

  /**
   * A data datagram with at least eleven comma-free fields after its tag,
   * whose numeric fields convert, is delivered with its timestamp converted
   * and the next ten fields verbatim.
   */
  lemma DataDelivered(parts: seq<string>, fr: FloatReader)
    requires |parts| >= 12 && parts[0] == "ADAS_DATA"
    requires forall i :: 0 <= i < |parts| ==> ',' !in parts[i]
    requires parts[|parts| - 1] != []
    requires DataConverts(parts, fr)
    ensures Classify(Text.Split(Text.Join(parts, ','), ','), fr) == AdasData(Config.StoUL(parts[1]).value, parts[2..12])
  {
    Text.SplitJoin(parts, ',');
  }

  /** An event whose timestamp field is a printed number below 2^64 is delivered with that timestamp. */
  lemma EventTimestampRead(parts: seq<string>, fr: FloatReader, t: nat)
    requires |parts| >= 6 && parts[0] == "ADAS_EVENT"
    requires t < Two64 && parts[5] == Decimal.NatToString(t)
    requires fr.stof(parts[2]) && fr.stod(parts[3]) && fr.stod(parts[4])
    ensures Classify(parts, fr) == AdasEvent(parts[1], parts[2], parts[3], parts[4], t)
  {
    Config.StoULNumeral(t);
  }
}
