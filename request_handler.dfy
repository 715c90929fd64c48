/**
 * The request server's front end: the flat JSON reader `SimpleJSON` (strip
 * braces and quotes, split on commas, split each token at its first colon,
 * trim both halves, last key wins) and the routing of `handle_request`
 * (public user operations, then the session check, then dispatch on the
 * operation's prefix). The managers the handlers call are not modelled; a
 * routed request is reported as the handler it reaches and its inputs.
 */
module RequestHandler {
  import opened Wrappers
  import Seqs
  import Text
  import ResponseBuilder

  /** The test `remove(.., ch)` keeps a character by. */
  function NotChar(ch: char): char -> bool
  {
    x => x != ch
  }

  /** The characters the three `erase(remove(..))` calls take out. */
  const Stripped: set<char> := {'{', '}', '"'}

  /** The body with every brace and quote taken out. */
  function Clean(json: string): (r: string)
    ensures |r| <= |json|
  {
    if json == [] then [] else (if json[0] in Stripped then [] else [json[0]]) + Clean(json[1..])
  }

  /** Removing the three characters one after the other is removing them together. */
  lemma {:induction false} EraseThree(json: string)
    ensures Seqs.Filter(Seqs.Filter(Seqs.Filter(json, NotChar('{')), NotChar('}')), NotChar('"')) == Clean(json)
  {
    if json != [] {
      EraseThree(json[1..]);
    }
  }

  /** `s.erase(remove(s.begin(), s.end(), ch), s.end())`. */
  method EraseAll(s: string, ch: char) returns (r: string)
    ensures r == Seqs.Filter(s, NotChar(ch))
  {
    r := "";
    for i := 0 to |s|
      invariant r == Seqs.Filter(s[..i], NotChar(ch))
    {
      Seqs.FilterSnoc(s[..i], s[i], NotChar(ch));
      assert s[..i + 1] == s[..i] + [s[i]];
      if s[i] != ch {
        r := r + [s[i]];
      }
    }
    assert s[..|s|] == s;
  }

  /** The key and value one token contributes: split at the first colon and trimmed; none without a colon. */
  function Entry(token: string): Option<(string, string)>
  {
    match Text.Find(token, ':')
    case None => None
    case Some(p) => Some((Text.Trim(token[..p], Text.LineSpace), Text.Trim(token[p + 1..], Text.LineSpace)))
  }

  /** `result[key] = value` for one token, when it has a colon. */
  function AddToken(acc: map<string, string>, token: string): map<string, string>
  {
    match Entry(token)
    case None => acc
    case Some(e) => acc[e.0 := e.1]
  }

  /** The map after the tokens are read in order. */
  function ParseTokens(tokens: seq<string>): map<string, string>
  {
    if tokens == [] then map[] else AddToken(ParseTokens(tokens[..|tokens| - 1]), tokens[|tokens| - 1])
  }

  /** What `SimpleJSON::parse(json)` returns. */
  function Parsed(json: string): map<string, string>
  {
    ParseTokens(Text.Split(Clean(json), ','))
  }

  /** `SimpleJSON::parse`. */
  method Parse(json: string) returns (result: map<string, string>)
    ensures result == Parsed(json)
  {
    var cleaned := EraseAll(json, '{');
    cleaned := EraseAll(cleaned, '}');
    cleaned := EraseAll(cleaned, '"');
    EraseThree(json);
    result := map[];
    var pos := 0;
    ghost var consumed: seq<string> := [];
    while true
      invariant pos <= |cleaned|
      invariant consumed + Text.Split(cleaned[pos..], ',') == Text.Split(cleaned, ',')
      invariant result == ParseTokens(consumed)
      decreases |cleaned| - pos
    {
      var ok, token, next := Text.GetLine(cleaned, pos, ',');
      if !ok {
        break;
      }
      Text.ConsumeToken(cleaned, pos, next, token, consumed, ',');
      ParseTokensSnoc(consumed, token);
      result := Store(result, token);
      consumed := consumed + [token];
      pos := next;
    }
    assert cleaned[pos..] == [];
    assert consumed == consumed + [];
  }

  /** One more token read updates the map by that token alone. */
  lemma ParseTokensSnoc(tokens: seq<string>, t: string)
    ensures ParseTokens(tokens + [t]) == AddToken(ParseTokens(tokens), t)
  {
    assert (tokens + [t])[..|tokens|] == tokens;
  }

  /** The body of the `getline` loop: a token with a colon stores its trimmed key and value. */
  method Store(result: map<string, string>, token: string) returns (r: map<string, string>)
    ensures r == AddToken(result, token)
  {
    r := result;
    var colon := Text.Find(token, ':');
    if colon.Some? {
      var key := Text.Trim(token[..colon.value], Text.LineSpace);
      var value := Text.Trim(token[colon.value + 1..], Text.LineSpace);
      r := r[key := value];
    }
  }

  /** `SimpleJSON::get_value`: the stored value, or the default when the key is absent. */
  function GetValue(data: map<string, string>, key: string, default: string): (r: string)
    ensures key in data ==> r == data[key]
    ensures key !in data ==> r == default
  {
    if key in data then data[key] else default
  }

  /** The token gives key `k`. */
  predicate KeyedBy(token: string, k: string)
  {
    Entry(token).Some? && Entry(token).value.0 == k
  }

  function GivesKey(k: string): string -> bool
  {
    t => KeyedBy(t, k)
  }

  /**
   * A key is present exactly when some token gives it, and its value comes
   * from the last such token.
   */
  lemma {:induction false} ParseLastWins(tokens: seq<string>, k: string)
    ensures k in ParseTokens(tokens) <==> Seqs.LastIndex(tokens, GivesKey(k)).Some?
    ensures Seqs.LastIndex(tokens, GivesKey(k)).Some? ==>
      ParseTokens(tokens)[k] == Entry(tokens[Seqs.LastIndex(tokens, GivesKey(k)).value]).value.1
  {
    if tokens != [] {
      var init := tokens[..|tokens| - 1];
      ParseLastWins(init, k);
      if !KeyedBy(tokens[|tokens| - 1], k) {
        var r := Seqs.LastIndex(init, GivesKey(k));
        if r.Some? {
          assert tokens[r.value] == init[r.value];
        }
      }
    }
  }

  /** No character of `s` is in `cs`. */
  predicate NoneOf(s: string, cs: set<char>)
  {
    forall i :: 0 <= i < |s| ==> s[i] !in cs
  }

  /** Neither end of `s` is white space. */
  predicate Trimmed(s: string)
  {
    s == [] || (s[0] !in Text.LineSpace && s[|s| - 1] !in Text.LineSpace)
  }

  /** The characters the reader strips or splits at. */
  const Structural: set<char> := {',', '{', '}', '"'}

  /** Every character of a token of `Split(s, d)` is a character of `s`. */
  lemma {:induction false} SplitChars(s: string, d: char, i: nat, c: char)
    requires i < |Text.Split(s, d)| && c in Text.Split(s, d)[i]
    ensures c in s
    decreases |s|
  {
    match Text.Find(s, d)
    case None =>
    case Some(k) =>
      assert Text.Split(s, d) == [s[..k]] + Text.Split(s[k + 1..], d);
      if i > 0 {
        SplitChars(s[k + 1..], d, i - 1, c);
      }
  }

  /** The cleaned body has no brace and no quote. */
  lemma {:induction false} CleanChars(json: string, c: char)
    requires c in Clean(json)
    ensures c !in Stripped
  {
    if json[0] in Stripped || c != json[0] {
      CleanChars(json[1..], c);
    }
  }

  /** The key and value of a token free of structural characters: trimmed, with no structural character, and no colon in the key. */
  lemma EntryShape(token: string)
    requires NoneOf(token, Structural)
    requires Entry(token).Some?
    ensures var e := Entry(token).value;
      NoneOf(e.0, Structural + {':'}) && Trimmed(e.0) && NoneOf(e.1, Structural) && Trimmed(e.1)
  {
    var p := Text.Find(token, ':').value;
    var key, value := token[..p], token[p + 1..];
    assert NoneOf(key, Structural + {':'}) by {
      forall m | 0 <= m < |key| ensures key[m] !in Structural + {':'} {
        assert key[m] == token[m];
        assert key[m] in token[..p];
      }
    }
    assert NoneOf(value, Structural) by {
      forall m | 0 <= m < |value| ensures value[m] !in Structural {
        assert value[m] == token[p + 1 + m];
      }
    }
    TrimmedPart(key, Structural + {':'});
    TrimmedPart(value, Structural);
  }

  /** Trimming a string free of `cs` leaves a trimmed string free of `cs`. */
  lemma TrimmedPart(s: string, cs: set<char>)
    requires NoneOf(s, cs)
    ensures NoneOf(Text.Trim(s, Text.LineSpace), cs) && Trimmed(Text.Trim(s, Text.LineSpace))
  {
    var t := Text.Trim(s, Text.LineSpace);
    Text.TrimChars(s, Text.LineSpace);
    forall m | 0 <= m < |t| ensures t[m] !in cs {
      var j :| 0 <= j < |s| && s[j] == t[m];
    }
  }

  /**
   * Every key the reader returns is trimmed and holds no comma, colon, brace
   * or quote, and every value is trimmed and holds no comma, brace or quote.
   */
  lemma ParsedShape(json: string)
    ensures forall k | k in Parsed(json) :: NoneOf(k, Structural + {':'}) && Trimmed(k)
    ensures forall k | k in Parsed(json) :: NoneOf(Parsed(json)[k], Structural) && Trimmed(Parsed(json)[k])
  {
    var cleaned := Clean(json);
    var tokens := Text.Split(cleaned, ',');
    Text.SplitTokensFree(cleaned, ',');
    forall k | k in Parsed(json)
      ensures NoneOf(k, Structural + {':'}) && Trimmed(k)
      ensures NoneOf(Parsed(json)[k], Structural) && Trimmed(Parsed(json)[k])
    {
      ParseLastWins(tokens, k);
      var j := Seqs.LastIndex(tokens, GivesKey(k)).value;
      var t := tokens[j];
      forall m | 0 <= m < |t| ensures t[m] !in Structural {
        assert t[m] in t;
        SplitChars(cleaned, ',', j, t[m]);
        CleanChars(json, t[m]);
        assert ',' !in t;
      }
      EntryShape(t);
    }
  }

  // A flat object in the form the reader expects, written with the response
  // builder's pair text: the reader recovers its entries.

  /** The `key:value` token a pair leaves after cleaning. */
  function Colon(p: (string, string)): string
  {
    p.0 + ":" + p.1
  }

  function Colons(data: seq<(string, string)>): (r: seq<string>)
    ensures |r| == |data|
    ensures forall i :: 0 <= i < |data| ==> r[i] == Colon(data[i])
  {
    if data == [] then [] else Colons(data[..|data| - 1]) + [Colon(data[|data| - 1])]
  }

  /** The map of a list of entries, a later entry replacing an earlier one with the same key. */
  function EntriesMap(data: seq<(string, string)>): map<string, string>
  {
    if data == [] then map[] else EntriesMap(data[..|data| - 1])[data[|data| - 1].0 := data[|data| - 1].1]
  }

  /** An entry the reader can carry: no structural character, trimmed, and no colon in the key. */
  predicate PlainEntry(p: (string, string))
  {
    NoneOf(p.0, Structural + {':'}) && Trimmed(p.0) && NoneOf(p.1, Structural) && Trimmed(p.1)
  }

  lemma {:induction false} CleanAppend(a: string, b: string)
    ensures Clean(a + b) == Clean(a) + Clean(b)
  {
    if a == [] {
      assert a + b == b;
    } else {
      var head := if a[0] in Stripped then [] else [a[0]];
      CleanAppend(a[1..], b);
      assert (a + b)[0] == a[0] && (a + b)[1..] == a[1..] + b;
      assert Clean(a + b) == head + Clean(a[1..] + b);
      assert head + (Clean(a[1..]) + Clean(b)) == (head + Clean(a[1..])) + Clean(b);
    }
  }

  lemma {:induction false} CleanPlain(s: string)
    requires NoneOf(s, Stripped)
    ensures Clean(s) == s
  {
    if s != [] {
      CleanPlain(s[1..]);
    }
  }

  /** Cleaning a pair's text leaves its `key:value` token. */
  lemma CleanPair(p: (string, string))
    requires NoneOf(p.0, Stripped) && NoneOf(p.1, Stripped)
    ensures Clean(ResponseBuilder.Pair(p)) == Colon(p)
  {
    var q, mid := "\"", "\":\"";
    var s1 := q + p.0;
    var s2 := s1 + mid;
    var s3 := s2 + p.1;
    assert ResponseBuilder.Pair(p) == s3 + q;
    CleanLiterals();
    CleanPlain(p.0);
    CleanPlain(p.1);
    CleanAppend(q, p.0);
    CleanAppend(s1, mid);
    CleanAppend(s2, p.1);
    CleanAppend(s3, q);
  }

  /** The punctuation of an object's text after cleaning. */
  lemma CleanLiterals()
    ensures Clean("\"") == [] && Clean("\":\"") == ":" && Clean("{") == [] && Clean("}") == [] && Clean(",") == ","
  {
    assert "\":\""[1..] == ":\"";
    assert ":\""[1..] == "\"";
  }

  lemma {:induction false} JoinSnoc(tokens: seq<string>, t: string, d: char)
    requires tokens != []
    ensures Text.Join(tokens + [t], d) == Text.Join(tokens, d) + [d] + t
  {
    if |tokens| == 1 {
      assert (tokens + [t])[1..] == [t];
    } else {
      JoinSnoc(tokens[1..], t, d);
      assert (tokens + [t])[1..] == tokens[1..] + [t];
    }
  }

  /** Cleaning the comma-separated pairs leaves the comma-joined tokens. */
  lemma {:induction false} CleanPairs(data: seq<(string, string)>)
    requires forall i :: 0 <= i < |data| ==> PlainEntry(data[i])
    ensures Clean(ResponseBuilder.Pairs(data)) == Text.Join(Colons(data), ',')
  {
    if |data| == 1 {
      CleanPair(data[0]);
    } else if |data| > 1 {
      var init := data[..|data| - 1];
      CleanPairs(init);
      CleanPair(data[|data| - 1]);
      CleanAppend(ResponseBuilder.Pairs(init) + ",", ResponseBuilder.Pair(data[|data| - 1]));
      CleanAppend(ResponseBuilder.Pairs(init), ",");
      CleanLiterals();
      JoinSnoc(Colons(init), Colon(data[|data| - 1]), ',');
    }
  }

  /** The token of a plain entry gives back the entry. */
  lemma ColonEntry(p: (string, string))
    requires PlainEntry(p)
    ensures Entry(Colon(p)) == Some(p)
  {
    var t := Colon(p);
    assert Text.Find(t, ':') == Some(|p.0|) by {
      assert t[|p.0|] == ':';
      assert t[..|p.0|] == p.0;
    }
    assert t[..|p.0|] == p.0 && t[|p.0| + 1..] == p.1;
    Text.TrimClean(p.0, Text.LineSpace);
    Text.TrimClean(p.1, Text.LineSpace);
  }

  /** Reading the `key:value` tokens gives the entries' map. */
  lemma {:induction false} ParseColons(data: seq<(string, string)>)
    requires forall i :: 0 <= i < |data| ==> PlainEntry(data[i])
    ensures ParseTokens(Colons(data)) == EntriesMap(data)
  {
    if data != [] {
      var init, p := data[..|data| - 1], data[|data| - 1];
      ParseColons(init);
      ColonEntry(p);
      assert Colons(data)[..|data| - 1] == Colons(init);
    }
  }

  /** No token of plain entries holds a comma, and the last is not empty. */
  lemma ColonsNoComma(data: seq<(string, string)>)
    requires forall i :: 0 <= i < |data| ==> PlainEntry(data[i])
    ensures forall i :: 0 <= i < |data| ==> ',' !in Colons(data)[i]
    ensures data != [] ==> Colons(data)[|data| - 1] != []
  {
    var tokens := Colons(data);
    forall i | 0 <= i < |tokens| ensures ',' !in tokens[i] {
      assert tokens[i] == data[i].0 + ":" + data[i].1;
    }
  }

  /**
   * A flat object of plain entries, written as `{` + the response builder's
   * comma-separated pairs + `}`, reads back as the map of its entries.
   */
  lemma ParsePairs(data: seq<(string, string)>)
    requires forall i :: 0 <= i < |data| ==> PlainEntry(data[i])
    ensures Parsed("{" + ResponseBuilder.Pairs(data) + "}") == EntriesMap(data)
  {
    var text := "{" + ResponseBuilder.Pairs(data) + "}";
    CleanObject(data);
    ColonsNoComma(data);
    Text.SplitJoin(Colons(data), ',');
    assert Text.Split(Clean(text), ',') == Colons(data);
    ParseColons(data);
  }

  /** Cleaning the braced pairs leaves the comma-joined tokens. */
  lemma CleanObject(data: seq<(string, string)>)
    requires forall i :: 0 <= i < |data| ==> PlainEntry(data[i])
    ensures Clean("{" + ResponseBuilder.Pairs(data) + "}") == Text.Join(Colons(data), ',')
  {
    CleanAppend("{" + ResponseBuilder.Pairs(data), "}");
    CleanAppend("{", ResponseBuilder.Pairs(data));
    CleanLiterals();
    CleanPairs(data);
  }

  // Routing.

  /** The body of a raw request: what follows the first blank line, or the whole text when there is none. */
  const HeaderEnd := "\r\n\r\n"

  function RequestBody(requestData: string): (r: string)
    ensures (forall j :: !Text.OccursAt(requestData, HeaderEnd, j)) ==> r == requestData
    ensures forall i :: Text.OccursAt(requestData, HeaderEnd, i) ==>
      (forall j :: j < i ==> !Text.OccursAt(requestData, HeaderEnd, j)) ==> r == requestData[i + 4..]
  {
    match Text.FindSub(requestData, HeaderEnd)
    case None => requestData
    case Some(i) => requestData[i + 4..]
  }

  /** `s.find(pat) == 0`. */
  predicate StartsWith(s: string, pat: string)
  {
    Text.FindSub(s, pat) == Some(0)
  }

  /** `s.find(pat) == 0` exactly when `pat` is a prefix of `s`. */
  lemma StartsWithPrefix(s: string, pat: string)
    ensures StartsWith(s, pat) <==> |pat| <= |s| && s[..|pat|] == pat
  {
    if |pat| <= |s| && s[..|pat|] == pat {
      assert Text.OccursAt(s, pat, 0);
    }
  }

  /** The handler a request reaches. */
  datatype Handler = Login | Register | Logout | TripOps | VehicleOps | ExpenseOps | DriverOps | DocumentOps | IncidentOps

  /**
   * What the front end does with a request: answer it itself with
   * `error(code, message)` (whose text is `ResponseBuilder.ErrorText(code,
   * message)`), or call a handler with the operation, the parameters and the
   * session id.
   */
  datatype Outcome =
    | Failure(code: string, message: string)
    | Forward(handler: Handler, operation: string, params: map<string, string>, sessionId: string)

  /** The operations served without a session. */
  predicate Public(operation: string)
  {
    operation == "user_login" || operation == "user_register" || operation == "user_logout"
  }

  /** The protected handler an operation's prefix selects, in the order `handle_request` tests them. */
  function PrefixHandler(operation: string): (r: Option<Handler>)
    ensures r.Some? ==> r.value in {TripOps, VehicleOps, ExpenseOps, DriverOps, DocumentOps, IncidentOps}
  {
    if StartsWith(operation, "trip_") then Some(TripOps)
    else if StartsWith(operation, "vehicle_") then Some(VehicleOps)
    else if StartsWith(operation, "expense_") then Some(ExpenseOps)
    else if StartsWith(operation, "driver_") then Some(DriverOps)
    else if StartsWith(operation, "document_") then Some(DocumentOps)
    else if StartsWith(operation, "incident_") then Some(IncidentOps)
    else None
  }

  const UnauthorizedMessage := "Invalid or expired session. Please login again."
  const LoginParamsMessage := "Username and password are required"
  const RegisterParamsMessage := "Username, password, and full name are required"

  /** The parameter check of `handle_login`: user name and password must be non-empty. */
  predicate LoginComplete(params: map<string, string>)
  {
    GetValue(params, "username", "") != "" && GetValue(params, "password", "") != ""
  }

  /** The parameter check of `handle_register`: user name, password and full name must be non-empty. */
  predicate RegisterComplete(params: map<string, string>)
  {
    GetValue(params, "username", "") != "" && GetValue(params, "password", "") != "" && GetValue(params, "full_name", "") != ""
  }

  /** The outcome of `handle_request` for the parsed parameters, given whether the session validates. */
  function Dispatch(params: map<string, string>, sessionValid: bool): Outcome
  {
    var operation := GetValue(params, "operation", "");
    var sessionId := GetValue(params, "session_id", "");
    if operation == "user_login" then
      if LoginComplete(params) then Forward(Login, operation, params, sessionId)
      else Failure("INVALID_PARAMS", LoginParamsMessage)
    else if operation == "user_register" then
      if RegisterComplete(params) then Forward(Register, operation, params, sessionId)
      else Failure("INVALID_PARAMS", RegisterParamsMessage)
    else if operation == "user_logout" then Forward(Logout, operation, params, sessionId)
    else if !sessionValid then Failure("UNAUTHORIZED", UnauthorizedMessage)
    else match PrefixHandler(operation)
      case Some(h) => Forward(h, operation, params, sessionId)
      case None => Failure("UNKNOWN_OPERATION", "Unknown operation: " + operation)
  }

  /**
   * `handle_request(request_data, client_ip)`: the body after the headers is
   * parsed and routed. Session validation is the function `sessionValid` over
   * session ids.
   */
  method HandleRequest(requestData: string, sessionValid: string -> bool) returns (outcome: Outcome)
    ensures var params := Parsed(RequestBody(requestData));
      outcome == Dispatch(params, sessionValid(GetValue(params, "session_id", "")))
  {
    var bodyStart := Text.FindSub(requestData, HeaderEnd);
    var body := if bodyStart.Some? then requestData[bodyStart.value + 4..] else requestData;
    var params := Parse(body);
    var operation := GetValue(params, "operation", "");
    var sessionId := GetValue(params, "session_id", "");
    if operation == "user_login" {
      outcome := HandleLogin(params);
      return;
    } else if operation == "user_register" {
      outcome := HandleRegister(params);
      return;
    } else if operation == "user_logout" {
      return Forward(Logout, operation, params, sessionId);
    }
    if !sessionValid(sessionId) {
      return Failure("UNAUTHORIZED", UnauthorizedMessage);
    }
    if Text.FindSub(operation, "trip_") == Some(0) {
      outcome := Forward(TripOps, operation, params, sessionId);
    } else if Text.FindSub(operation, "vehicle_") == Some(0) {
      outcome := Forward(VehicleOps, operation, params, sessionId);
    } else if Text.FindSub(operation, "expense_") == Some(0) {
      outcome := Forward(ExpenseOps, operation, params, sessionId);
    } else if Text.FindSub(operation, "driver_") == Some(0) {
      outcome := Forward(DriverOps, operation, params, sessionId);
    } else if Text.FindSub(operation, "document_") == Some(0) {
      outcome := Forward(DocumentOps, operation, params, sessionId);
    } else if Text.FindSub(operation, "incident_") == Some(0) {
      outcome := Forward(IncidentOps, operation, params, sessionId);
    } else {
      outcome := Failure("UNKNOWN_OPERATION", "Unknown operation: " + operation);
    }
  }

  /** `handle_login` up to the session manager's `login` call. */
  method HandleLogin(params: map<string, string>) returns (outcome: Outcome)
    ensures outcome.Failure? <==> !LoginComplete(params)
    ensures GetValue(params, "operation", "") == "user_login" ==> outcome == Dispatch(params, false)
  {
    var username := GetValue(params, "username", "");
    var password := GetValue(params, "password", "");
    if username == "" || password == "" {
      return Failure("INVALID_PARAMS", LoginParamsMessage);
    }
    outcome := Forward(Login, "user_login", params, GetValue(params, "session_id", ""));
  }

  /** `handle_register` up to the session manager's `register_user` call. */
  method HandleRegister(params: map<string, string>) returns (outcome: Outcome)
    ensures outcome.Failure? <==> !RegisterComplete(params)
    ensures GetValue(params, "operation", "") == "user_register" ==> outcome == Dispatch(params, false)
  {
    var username := GetValue(params, "username", "");
    var password := GetValue(params, "password", "");
    var fullName := GetValue(params, "full_name", "");
    if username == "" || password == "" || fullName == "" {
      return Failure("INVALID_PARAMS", RegisterParamsMessage);
    }
    outcome := Forward(Register, "user_register", params, GetValue(params, "session_id", ""));
  }

  /** The three user operations do not depend on the session check and are never refused as unauthorised. */
  lemma PublicIgnoresSession(params: map<string, string>)
    requires Public(GetValue(params, "operation", ""))
    ensures Dispatch(params, true) == Dispatch(params, false)
    ensures Dispatch(params, false).Failure? ==> Dispatch(params, false).code == "INVALID_PARAMS"
  {
  }

  /** Any other operation whose session fails validation is refused as unauthorised. */
  lemma ProtectedNeedsSession(params: map<string, string>)
    requires !Public(GetValue(params, "operation", ""))
    ensures Dispatch(params, false) == Failure("UNAUTHORIZED", UnauthorizedMessage)
  {
  }

  /**
   * A protected handler is reached only with a valid session and only when
   * the operation begins with that handler's prefix; an operation with none
   * of the prefixes is refused as unknown.
   */
  lemma {:induction false} ForwardedProtected(params: map<string, string>, sessionValid: bool)
    requires !Public(GetValue(params, "operation", ""))
    ensures var op := GetValue(params, "operation", ""); var d := Dispatch(params, sessionValid);
      && (d.Forward? ==> sessionValid && d.handler !in {Login, Register, Logout})
      && (d.Forward? && d.handler == TripOps <==> sessionValid && |op| >= 5 && op[..5] == "trip_")
      && (d.Forward? && d.handler == IncidentOps ==> sessionValid && |op| >= 9 && op[..9] == "incident_")
      && (sessionValid && d.Failure? ==> d.code == "UNKNOWN_OPERATION")
  {
    var op := GetValue(params, "operation", "");
    StartsWithPrefix(op, "trip_");
    StartsWithPrefix(op, "incident_");
  }
}
