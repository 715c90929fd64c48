/**
 * The JSON response builder of the request server: string escaping (the
 * subset of RFC 8259 section 7 the server needs) and the three response
 * shapes. Each method appends to its output the way the source appends to an
 * `ostringstream`, and is proved equal to a text function.
 */
module ResponseBuilder {
  import opened Wrappers
  import Decimal

  /** A C++ `int`. */
  newtype int32 = x: int | -0x8000_0000 <= x < 0x8000_0000

  /** The characters `escape_json` rewrites. */
  predicate Special(c: char)
  {
    c == '"' || c == '\\' || c == '\n' || c == '\r' || c == '\t'
  }

  /** The replacement for one character: a backslash escape for the five special ones, the character itself otherwise. */
  function EscapeChar(c: char): (r: string)
    ensures 1 <= |r| <= 2
  {
    match c
    case '"' => "\\\""
    case '\\' => "\\\\"
    case '\n' => "\\n"
    case '\r' => "\\r"
    case '\t' => "\\t"
    case _ => [c]
  }

  /** The escaped text of `s`, one character at a time. */
  function Escape(s: string): (r: string)
    ensures |s| <= |r| <= 2 * |s|
  {
    if s == [] then [] else EscapeChar(s[0]) + Escape(s[1..])
  }

  lemma {:induction false} EscapeAppend(s: string, c: char)
    ensures Escape(s + [c]) == Escape(s) + EscapeChar(c)
    decreases |s|
  {
    if s == [] {
      assert [c][1..] == [];
    } else {
      assert (s + [c])[1..] == s[1..] + [c];
      EscapeAppend(s[1..], c);
    }
  }

  /** `escape_json`. */
  method EscapeJson(str: string) returns (result: string)
    ensures result == Escape(str)
  {
    result := "";
    for i := 0 to |str|
      invariant result == Escape(str[..i])
    {
      var c := str[i];
      var piece;
      if c == '"' {
        piece := "\\\"";
      } else if c == '\\' {
        piece := "\\\\";
      } else if c == '\n' {
        piece := "\\n";
      } else if c == '\r' {
        piece := "\\r";
      } else if c == '\t' {
        piece := "\\t";
      } else {
        piece := [c];
      }
      assert piece == EscapeChar(c);
      EscapeAppend(str[..i], c);
      assert str[..i + 1] == str[..i] + [c];
      result := result + piece;
    }
    assert str[..|str|] == str;
  }

  /**
   * A JSON string reader for escaped text: a backslash must start one of the
   * five escapes, and a raw quote or control character is rejected.
   */
  function Unescape(s: string): Option<string>
  {
    if s == [] then Some([])
    else if s[0] == '\\' then
      if |s| < 2 then None
      else
        var c := match s[1]
          case '"' => Some('"')
          case '\\' => Some('\\')
          case 'n' => Some('\n')
          case 'r' => Some('\r')
          case 't' => Some('\t')
          case _ => None;
        if c.None? then None
        else match Unescape(s[2..])
          case None => None
          case Some(rest) => Some([c.value] + rest)
    else if s[0] == '"' || s[0] == '\n' || s[0] == '\r' || s[0] == '\t' then None
    else match Unescape(s[1..])
      case None => None
      case Some(rest) => Some([s[0]] + rest)
  }

  /** Reading one escaped character followed by more text. */
  lemma UnescapeUnit(c: char, rest: string)
    ensures Unescape(EscapeChar(c) + rest) == if Unescape(rest).None? then None else Some([c] + Unescape(rest).value)
  {
    var t := EscapeChar(c) + rest;
    if Special(c) {
      assert t[0] == '\\' && t[2..] == rest;
    } else {
      assert t[0] == c && t[1..] == rest;
    }
  }

  /** Reading the escaped text back gives the original string: escaping loses nothing and leaves no raw quote. */
  lemma {:induction false} UnescapeEscape(s: string)
    ensures Unescape(Escape(s)) == Some(s)
    decreases |s|
  {
    if s != [] {
      UnescapeEscape(s[1..]);
      UnescapeUnit(s[0], Escape(s[1..]));
      assert s == [s[0]] + s[1..];
    }
  }

  /** The escaped text contains no raw line feed, carriage return or tab. */
  lemma {:induction false} EscapeNoControl(s: string)
    ensures forall i :: 0 <= i < |Escape(s)| ==> Escape(s)[i] != '\n' && Escape(s)[i] != '\r' && Escape(s)[i] != '\t'
    decreases |s|
  {
    if s != [] {
      EscapeNoControl(s[1..]);
      var e, rest := EscapeChar(s[0]), Escape(s[1..]);
      assert Escape(s) == e + rest;
      forall i | 0 <= i < |e + rest|
        ensures (e + rest)[i] != '\n' && (e + rest)[i] != '\r' && (e + rest)[i] != '\t'
      {
        if i >= |e| {
          assert (e + rest)[i] == rest[i - |e|];
        }
      }
    }
  }

  /** A string with no special character is copied unchanged. */
  lemma {:induction false} EscapePlain(s: string)
    requires forall i :: 0 <= i < |s| ==> !Special(s[i])
    ensures Escape(s) == s
    decreases |s|
  {
    if s != [] {
      EscapePlain(s[1..]);
      assert s == [s[0]] + s[1..];
    }
  }

  /** The `"key":"value"` text of one data pair; neither part is escaped. */
  function Pair(p: (string, string)): string
  {
    "\"" + p.0 + "\":\"" + p.1 + "\""
  }

  /** The pairs' texts separated by commas. */
  function Pairs(data: seq<(string, string)>): string
  {
    if |data| == 0 then ""
    else if |data| == 1 then Pair(data[0])
    else Pairs(data[..|data| - 1]) + "," + Pair(data[|data| - 1])
  }

  /** Lexicographic order on strings, as `std::map<std::string, _>` uses for its keys. */
  predicate StrLess(a: string, b: string)
    decreases |a|
  {
    (a == [] && b != []) || (a != [] && b != [] && (a[0] < b[0] || (a[0] == b[0] && StrLess(a[1..], b[1..]))))
  }

  /** The entries of a `std::map` in its iteration order: keys strictly ascending. */
  predicate MapOrder(data: seq<(string, string)>)
  {
    forall i, j :: 0 <= i < j < |data| ==> StrLess(data[i].0, data[j].0)
  }

  /** The text `success(status, data)` produces. */
  function SuccessText(status: string, data: seq<(string, string)>): string
  {
    "{" + "\"status\":\"success\"," + "\"code\":\"" + status + "\""
      + (if data == [] then "" else ",\"data\":{" + Pairs(data) + "}")
      + "}"
  }

  /** `success(status, data)`, with the map given as its entries in iteration order. */
  method Success(status: string, data: seq<(string, string)>) returns (json: string)
    requires MapOrder(data)
    ensures json == SuccessText(status, data)
  {
    json := "{";
    json := json + "\"status\":\"success\",";
    json := json + "\"code\":\"" + status + "\"";
    if data != [] {
      json := json + ",\"data\":{";
      ghost var open := json;
      var first := true;
      for i := 0 to |data|
        invariant first <==> i == 0
        invariant json == open + Pairs(data[..i])
      {
        ghost var before := json;
        if !first {
          json := json + ",";
        }
        var pair := "\"" + data[i].0 + "\":\"" + data[i].1 + "\"";
        assert pair == Pair(data[i]);
        json := json + pair;
        first := false;
        assert data[..i + 1][..i] == data[..i];
        assert json == open + Pairs(data[..i + 1]) by {
          if i == 0 {
            assert json == open + pair;
          } else {
            assert json == before + "," + pair;
          }
        }
      }
      assert data[..|data|] == data;
      json := json + "}";
    }
    json := json + "}";
  }

  /** The text `error(code, message)` produces: the code verbatim, the message escaped. */
  function ErrorText(code: string, message: string): string
  {
    "{" + "\"status\":\"error\"," + "\"code\":\"" + code + "\"," + "\"message\":\"" + Escape(message) + "\"" + "}"
  }

  /** Two error responses with the same code are the same text only when their messages are equal: the message survives escaping. */
  lemma ErrorDeterminesMessage(code: string, m1: string, m2: string)
    requires ErrorText(code, m1) == ErrorText(code, m2)
    ensures m1 == m2
  {
    var head := "{" + "\"status\":\"error\"," + "\"code\":\"" + code + "\"," + "\"message\":\"";
    var e1, e2 := Escape(m1), Escape(m2);
    assert ErrorText(code, m1) == head + e1 + "\"}";
    assert ErrorText(code, m2) == head + e2 + "\"}";
    assert |e1| == |e2|;
    assert e1 == ErrorText(code, m1)[|head|..|head| + |e1|];
    assert e2 == ErrorText(code, m2)[|head|..|head| + |e2|];
    UnescapeEscape(m1);
    UnescapeEscape(m2);
  }

  /** `error(code, message)`. */
  method Error(code: string, message: string) returns (json: string)
    ensures json == ErrorText(code, message)
  {
    json := "{";
    json := json + "\"status\":\"error\",";
    json := json + "\"code\":\"" + code + "\",";
    var escaped := EscapeJson(message);
    json := json + "\"message\":\"" + escaped + "\"";
    json := json + "}";
  }

  /** The text `list(status, count, message)` produces; the message part only when it is non-empty. */
  function ListText(status: string, count: int32, message: string): string
  {
    "{" + "\"status\":\"success\"," + "\"code\":\"" + status + "\"," + "\"count\":" + Decimal.IntToString(count as int)
      + (if message == [] then "" else ",\"message\":\"" + Escape(message) + "\"")
      + "}"
  }

  /** `list(status, count, message)`. */
  method List(status: string, count: int32, message: string) returns (json: string)
    ensures json == ListText(status, count, message)
  {
    json := "{";
    json := json + "\"status\":\"success\",";
    json := json + "\"code\":\"" + status + "\",";
    json := json + "\"count\":" + Decimal.IntToString(count as int);
    if message != [] {
      var escaped := EscapeJson(message);
      json := json + ",\"message\":\"" + escaped + "\"";
    }
    json := json + "}";
  }
}
