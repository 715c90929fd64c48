/**
 * The INI-style configuration of the server: the default settings, the line
 * loop of `load_from_file` (comments, trimming, `[section]` headers,
 * `key = value` pairs) and `parse_value`, which assigns a recognised field and
 * converts numbers the way `stoull`, `stoul` and `stoi` do. The file is its
 * text, or none when it cannot be opened.
 */
module Config {
  import opened Wrappers
  import opened Ints
  import Text
  import Decimal

  /** The fields of `SDMConfig`, grouped by the section of the file that sets them. */
  datatype DatabaseSettings = DatabaseSettings(
    totalSize: u64, blockSize: u64, maxDrivers: u32, maxVehicles: u32, maxTrips: u32,
    btreeOrder: u8, cacheSize: u32)
  datatype ServerSettings = ServerSettings(port: u16, maxConnections: u32, queueCapacity: u32, workerThreads: u16)
  datatype SecuritySettings = SecuritySettings(
    requireAuthentication: bool, passwordHashAlgo: string, sessionTimeout: u32,
    adminUsername: string, adminPassword: string)
  datatype AnalyticsSettings = AnalyticsSettings(segmentTreeDepth: u16, alertCheckInterval: u32)
  datatype PathSettings = PathSettings(databasePath: string, indexPath: string, logPath: string)

  datatype Settings = Settings(
    database: DatabaseSettings, server: ServerSettings, security: SecuritySettings,
    analytics: AnalyticsSettings, paths: PathSettings)

  /** The settings the constructor starts from. */
  function Defaults(): Settings
  {
    Settings(
      DatabaseSettings(524288000, 4096, 10000, 50000, 10000000, 5, 256),
      ServerSettings(8080, 1000, 10000, 16),
      SecuritySettings(true, "SHA256", 1800, "admin", "admin123"),
      AnalyticsSettings(15, 3600),
      PathSettings("compiled/SDM.db", "compiled/indexes", "compiled/SDM.log"))
  }

  // Number conversion: `strtoul`/`strtol` in base 10 on a 64-bit `long`.

  /** The characters `isspace` accepts (space, TAB, LF, VT, FF, CR), which the conversions skip first. */
  const CSpace: set<char> := set c: char | c == ' ' || '\t' <= c <= '\r'
  const Digits: set<char> := set c: char | '0' <= c <= '9'

  /** A sign and the magnitude of the digits after it. */
  datatype Numeral = Numeral(negative: bool, magnitude: nat)

  /** Where the digits start: after leading white space and an optional sign. */
  function DigitsStart(s: string): (j: nat)
    ensures j <= |s|
  {
    var i := Text.LeftEdge(s, CSpace, 0);
    if i < |s| && (s[i] == '-' || s[i] == '+') then i + 1 else i
  }

  /** Leading white space, an optional sign, then the longest run of digits; none when there is no digit. */
  function ReadNumeral(s: string): (r: Option<Numeral>)
  {
    var j := DigitsStart(s);
    var n := Text.LeftEdge(s, Digits, j);
    if n == j then None
    else
      assert Decimal.AllDigits(s[j..n]) by {
        forall k | 0 <= k < n - j ensures Decimal.IsDigit(s[j..n][k]) {
          assert s[j..n][k] == s[j + k];
        }
      }
      Some(Numeral(j > 0 && s[j - 1] == '-', Decimal.DigitsValue(s[j..n])))
  }

  /**
   * `stoul` (and `stoull`, the same on a 64-bit `long`): none when nothing
   * converts (`invalid_argument`) or the magnitude exceeds `ULONG_MAX`
   * (`out_of_range`); a minus sign negates modulo 2^64.
   */
  function StoUL(s: string): (r: Option<u64>)
    ensures r.Some? ==> ReadNumeral(s).Some?
  {
    match ReadNumeral(s)
    case None => None
    case Some(x) =>
      if x.magnitude >= Two64 then None
      else if x.negative && x.magnitude > 0 then Some(Two64 - x.magnitude)
      else Some(x.magnitude)
  }

  /** `stoi`: none when nothing converts or the value is outside the range of a 32-bit `int`. */
  function StoI(s: string): (r: Option<int>)
    ensures r.Some? ==> -0x8000_0000 <= r.value < 0x8000_0000
  {
    match ReadNumeral(s)
    case None => None
    case Some(x) =>
      var v := if x.negative then -(x.magnitude as int) else x.magnitude;
      if v < -0x8000_0000 || v >= 0x8000_0000 then None else Some(v)
  }

  /** The `stoul` result stored in a `uint32_t` field: the low 32 bits. */
  function ToU32(value: string): Option<u32>
  {
    match StoUL(value)
    case None => None
    case Some(v) => Some(v % 0x1_0000_0000)
  }

  /** The `stoi` result stored in a `uint16_t` field: the value modulo 2^16. */
  function ToU16(value: string): Option<u16>
  {
    match StoI(value)
    case None => None
    case Some(v) => Some(v % 0x1_0000)
  }

  /** The `stoi` result stored in a `uint8_t` field: the value modulo 2^8. */
  function ToU8(value: string): Option<u8>
  {
    match StoI(value)
    case None => None
    case Some(v) => Some(v % 0x100)
  }

  /** Digits from `j` to the end of `s` form one run. */
  lemma DigitRun(s: string, j: nat)
    requires j <= |s| && Decimal.AllDigits(s[j..])
    ensures Text.LeftEdge(s, Digits, j) == |s|
  {
  }

  /** A digit run from where the digits start to the end of the text is read whole. */
  lemma ReadRun(s: string, j: nat)
    requires DigitsStart(s) == j < |s| && Decimal.AllDigits(s[j..])
    ensures ReadNumeral(s) == Some(Numeral(j > 0 && s[j - 1] == '-', Decimal.DigitsValue(s[j..])))
  {
    DigitRun(s, j);
    assert s[j..|s|] == s[j..];
  }

  /** A printed natural number converts back to itself. */
  lemma ReadPrinted(n: nat)
    ensures ReadNumeral(Decimal.NatToString(n)) == Some(Numeral(false, n))
  {
    var s := Decimal.NatToString(n);
    Decimal.NatToStringValue(n);
    assert Text.LeftEdge(s, CSpace, 0) == 0;
    assert s[0..] == s;
    ReadRun(s, 0);
  }

  /** A printed natural number after a minus sign converts back to its negation. */
  lemma ReadPrintedNegative(n: nat)
    ensures ReadNumeral("-" + Decimal.NatToString(n)) == Some(Numeral(true, n))
  {
    var d := Decimal.NatToString(n);
    var s := "-" + d;
    Decimal.NatToStringValue(n);
    assert Text.LeftEdge(s, CSpace, 0) == 0;
    assert s[1..] == d;
    ReadRun(s, 1);
  }

  /** `stoul` reads back a printed number. */
  lemma StoULNumeral(n: nat)
    requires n < Two64
    ensures StoUL(Decimal.NatToString(n)) == Some(n)
  {
    ReadPrinted(n);
  }

  /** `stoul` of a negative numeral wraps modulo 2^64 rather than failing. */
  lemma StoULNegative(n: nat)
    requires 0 < n < Two64
    ensures StoUL("-" + Decimal.NatToString(n)) == Some(Two64 - n)
  {
    ReadPrintedNegative(n);
  }

  /** `stoi` reads back a printed number within the range of `int`, and rejects one beyond it. */
  lemma StoINumeral(n: nat)
    ensures StoI(Decimal.NatToString(n)) == if n < 0x8000_0000 then Some(n) else None
  {
    ReadPrinted(n);
  }

  /** Text that does not start with a digit (after white space and a sign) throws `invalid_argument`. */
  lemma NoDigitsThrows(s: string)
    requires DigitsStart(s) == |s| || s[DigitsStart(s)] !in Digits
    ensures StoUL(s).None? && StoI(s).None?
  {
  }

  /** `parse_value` within `[database]`; none when the conversion throws. */
  function AssignDatabase(d: DatabaseSettings, key: string, value: string): Option<DatabaseSettings>
  {
    if key == "total_size" then (match StoUL(value) case None => None case Some(v) => Some(d.(totalSize := v)))
    else if key == "block_size" then (match StoUL(value) case None => None case Some(v) => Some(d.(blockSize := v)))
    else if key == "max_drivers" then (match ToU32(value) case None => None case Some(v) => Some(d.(maxDrivers := v)))
    else if key == "max_vehicles" then (match ToU32(value) case None => None case Some(v) => Some(d.(maxVehicles := v)))
    else if key == "max_trips" then (match ToU32(value) case None => None case Some(v) => Some(d.(maxTrips := v)))
    else if key == "btree_order" then (match ToU8(value) case None => None case Some(v) => Some(d.(btreeOrder := v)))
    else if key == "cache_size" then (match ToU32(value) case None => None case Some(v) => Some(d.(cacheSize := v)))
    else Some(d)
  }

  /** `parse_value` within `[server]`. */
  function AssignServer(d: ServerSettings, key: string, value: string): Option<ServerSettings>
  {
    if key == "port" then (match ToU16(value) case None => None case Some(v) => Some(d.(port := v)))
    else if key == "max_connections" then (match ToU32(value) case None => None case Some(v) => Some(d.(maxConnections := v)))
    else if key == "queue_capacity" then (match ToU32(value) case None => None case Some(v) => Some(d.(queueCapacity := v)))
    else if key == "worker_threads" then (match ToU16(value) case None => None case Some(v) => Some(d.(workerThreads := v)))
    else Some(d)
  }

  /** `parse_value` within `[security]`: authentication is on exactly when the value is `true`. */
  function AssignSecurity(d: SecuritySettings, key: string, value: string): Option<SecuritySettings>
  {
    if key == "require_authentication" then Some(d.(requireAuthentication := value == "true"))
    else if key == "password_hash_algo" then Some(d.(passwordHashAlgo := value))
    else if key == "session_timeout" then (match ToU32(value) case None => None case Some(v) => Some(d.(sessionTimeout := v)))
    else if key == "admin_username" then Some(d.(adminUsername := value))
    else if key == "admin_password" then Some(d.(adminPassword := value))
    else Some(d)
  }

  /** `parse_value` within `[analytics]`. */
  function AssignAnalytics(d: AnalyticsSettings, key: string, value: string): Option<AnalyticsSettings>
  {
    if key == "segment_tree_depth" then (match ToU16(value) case None => None case Some(v) => Some(d.(segmentTreeDepth := v)))
    else if key == "alert_check_interval" then (match ToU32(value) case None => None case Some(v) => Some(d.(alertCheckInterval := v)))
    else Some(d)
  }

  /** `parse_value` within `[paths]`: the values are stored verbatim. */
  function AssignPaths(d: PathSettings, key: string, value: string): PathSettings
  {
    if key == "database_path" then d.(databasePath := value)
    else if key == "index_path" then d.(indexPath := value)
    else if key == "log_path" then d.(logPath := value)
    else d
  }

  /** `parse_value(section, key, value)`: the settings after the assignment, or none when the conversion throws. */
  function Assign(s: Settings, section: string, key: string, value: string): Option<Settings>
  {
    if section == "database" then
      (match AssignDatabase(s.database, key, value) case None => None case Some(d) => Some(s.(database := d)))
    else if section == "server" then
      (match AssignServer(s.server, key, value) case None => None case Some(d) => Some(s.(server := d)))
    else if section == "security" then
      (match AssignSecurity(s.security, key, value) case None => None case Some(d) => Some(s.(security := d)))
    else if section == "analytics" then
      (match AssignAnalytics(s.analytics, key, value) case None => None case Some(d) => Some(s.(analytics := d)))
    else if section == "paths" then Some(s.(paths := AssignPaths(s.paths, key, value)))
    else Some(s)
  }

  /** The keys `parse_value` recognises in each section. */
  predicate Recognised(section: string, key: string)
  {
    (section == "database" && key in {"total_size", "block_size", "max_drivers", "max_vehicles", "max_trips", "btree_order", "cache_size"})
    || (section == "server" && key in {"port", "max_connections", "queue_capacity", "worker_threads"})
    || (section == "security" && key in {"require_authentication", "password_hash_algo", "session_timeout", "admin_username", "admin_password"})
    || (section == "analytics" && key in {"segment_tree_depth", "alert_check_interval"})
    || (section == "paths" && key in {"database_path", "index_path", "log_path"})
  }

  /** An unrecognised (section, key) pair changes nothing and never throws. */
  lemma UnknownIgnored(s: Settings, section: string, key: string, value: string)
    requires !Recognised(section, key)
    ensures Assign(s, section, key, value) == Some(s)
  {
  }

  /** Only strings that do not convert can throw, and only for a numeric field. */
  lemma ThrowsOnlyOnNumbers(s: Settings, section: string, key: string, value: string)
    requires StoUL(value).Some? && StoI(value).Some?
    ensures Assign(s, section, key, value).Some?
  {
  }

  /** An assignment changes only the section it names. */
  lemma SectionLocal(s: Settings, section: string, key: string, value: string)
    requires Assign(s, section, key, value).Some?
    ensures var t := Assign(s, section, key, value).value;
      (section != "database" ==> t.database == s.database)
      && (section != "server" ==> t.server == s.server)
      && (section != "security" ==> t.security == s.security)
      && (section != "analytics" ==> t.analytics == s.analytics)
      && (section != "paths" ==> t.paths == s.paths)
  {
  }

  /** A later assignment to the same key overrides an earlier one. */
  lemma LaterOverrides(s: Settings, section: string, key: string, v1: string, v2: string)
    requires Assign(s, section, key, v1).Some?
    ensures Assign(Assign(s, section, key, v1).value, section, key, v2) == Assign(s, section, key, v2)
  {
    var t := Assign(s, section, key, v1).value;
    if section == "database" {
      assert t == s.(database := AssignDatabase(s.database, key, v1).value);
    } else if section == "server" {
      assert t == s.(server := AssignServer(s.server, key, v1).value);
    } else if section == "security" {
      assert t == s.(security := AssignSecurity(s.security, key, v1).value);
    } else if section == "analytics" {
      assert t == s.(analytics := AssignAnalytics(s.analytics, key, v1).value);
    }
  }

  /** The port keeps the converted number modulo 2^16: there is no range check, so `70000` gives 4464. */
  lemma PortWraps(s: Settings, n: nat)
    requires n < 0x8000_0000
    ensures Assign(s, "server", "port", Decimal.NatToString(n)) == Some(s.(server := s.server.(port := n % 0x1_0000)))
  {
    StoINumeral(n);
  }

  // Lines.

  /** What one line of the file is once its comment is cut and it is trimmed. */
  datatype Line = Blank | Header(name: string) | NoAssignment | Pair(key: string, value: string)

  /** The line up to its first `#`. */
  function Uncommented(line: string): string
  {
    match Text.Find(line, '#')
    case None => line
    case Some(p) => line[..p]
  }

  /** The classification `load_from_file` applies to one line. */
  function Classify(line: string): Line
  {
    var l := Text.Trim(Uncommented(line), Text.LineSpace);
    if l == [] then Blank
    else if l[0] == '[' && l[|l| - 1] == ']' then Header(l[1..|l| - 1])
    else match Text.Find(l, '=')
      case None => NoAssignment
      case Some(e) => Pair(Text.Trim(l[..e], Text.BlankSpace), Text.Trim(l[e + 1..], Text.BlankSpace))
  }

  /** The loop's state: the settings, the current section, and whether a conversion has thrown. */
  datatype State = State(settings: Settings, section: string, threw: bool)

  /** One iteration of the loop; once a conversion has thrown, nothing more happens. */
  function Step(st: State, line: string): State
  {
    if st.threw then st
    else match Classify(line)
      case Blank => st
      case NoAssignment => st
      case Header(name) => st.(section := name)
      case Pair(k, v) =>
        match Assign(st.settings, st.section, k, v)
        case None => st.(threw := true)
        case Some(s') => st.(settings := s')
  }

  /** The state after the lines are read in order. */
  function Run(st: State, lines: seq<string>): State
  {
    if lines == [] then st else Step(Run(st, lines[..|lines| - 1]), lines[|lines| - 1])
  }

  /** The result of `load_from_file`: false, true, or an exception out of a conversion. */
  datatype LoadResult = NotOpened | Loaded | Threw

  /** Everything from the first `#` on is ignored. */
  lemma CommentIgnored(text: string, comment: string)
    requires '#' !in text
    ensures Classify(text + "#" + comment) == Classify(text)
  {
    var line := text + "#" + comment;
    assert line[|text|] == '#' && line[..|text|] == text;
    assert Text.Find(line, '#') == Some(|text|);
  }

  /** A line that is only a comment or white space changes nothing. */
  lemma BlankChangesNothing(st: State, line: string)
    requires Text.Trim(Uncommented(line), Text.LineSpace) == []
    ensures Step(st, line) == st
  {
  }

  /** A bracketed line sets the current section to the text between the brackets. */
  lemma HeaderSetsSection(st: State, name: string)
    requires !st.threw && '#' !in name
    ensures Step(st, "[" + name + "]") == st.(section := name)
  {
    var line := "[" + name + "]";
    assert '#' !in line by {
      forall k | 0 <= k < |line| ensures line[k] != '#' {
        if 0 < k < |line| - 1 {
          assert line[k] == name[k - 1];
        }
      }
    }
    Text.TrimClean(line, Text.LineSpace);
    assert line[1..|line| - 1] == name;
  }

  /** A line that is neither blank nor a section header and has no `=` changes nothing. */
  lemma NoEqualsIgnored(st: State, line: string)
    requires var l := Text.Trim(Uncommented(line), Text.LineSpace);
      l != [] && !(l[0] == '[' && l[|l| - 1] == ']') && '=' !in l
    ensures Step(st, line) == st
  {
  }

  /** A line without `#` that starts and ends with no white space is its own trimmed text. */
  lemma PlainLine(line: string)
    requires '#' !in line
    requires line == [] || (line[0] !in Text.LineSpace && line[|line| - 1] !in Text.LineSpace)
    ensures Text.Trim(Uncommented(line), Text.LineSpace) == line
  {
    Text.TrimClean(line, Text.LineSpace);
  }

  /** A trimmed line that is not a header and holds `=` at `e` first splits there. */
  lemma ClassifyPair(line: string, e: nat)
    requires Text.Trim(Uncommented(line), Text.LineSpace) == line
    requires line != [] && line[0] != '[' && Text.Find(line, '=') == Some(e)
    ensures Classify(line) == Pair(Text.Trim(line[..e], Text.BlankSpace), Text.Trim(line[e + 1..], Text.BlankSpace))
  {
  }

  /** `key=value` with no `#`, with `=` first at `|key|`. */
  lemma PairText(key: string, value: string)
    requires '#' !in key && '#' !in value && '=' !in key
    ensures var line := key + "=" + value;
      '#' !in line && Text.Find(line, '=') == Some(|key|)
      && line[..|key|] == key && line[|key| + 1..] == value
  {
    var line := key + "=" + value;
    forall k | 0 <= k < |line| ensures line[k] != '#' {
      if k < |key| {
        assert line[k] == key[k];
      } else if k > |key| {
        assert line[k] == value[k - |key| - 1];
      }
    }
    assert line[|key|] == '=' && line[..|key|] == key;
  }

  /**
   * A `key=value` line yields the text before the first `=` and the text
   * after it, each trimmed of blanks.
   */
  lemma PairLine(key: string, value: string)
    requires '#' !in key && '#' !in value && '=' !in key && key != []
    requires key[0] !in Text.LineSpace && key[0] != '[' && (value == [] || value[|value| - 1] !in Text.LineSpace)
    requires key[|key| - 1] !in Text.BlankSpace && (value == [] || value[0] !in Text.BlankSpace)
    ensures Classify(key + "=" + value) == Pair(key, value)
  {
    var line := key + "=" + value;
    PairText(key, value);
    assert line[0] == key[0];
    assert line[|line| - 1] == if value == [] then '=' else value[|value| - 1];
    PlainLine(line);
    ClassifyPair(line, |key|);
    Text.TrimClean(key, Text.BlankSpace);
    Text.TrimClean(value, Text.BlankSpace);
  }

  /**
   * One `SDMConfig`, assigned in place by `load_from_file` and `parse_value`;
   * its fields are held as one value per section.
   */
  class SdmConfig {
    var database: DatabaseSettings
    var server: ServerSettings
    var security: SecuritySettings
    var analytics: AnalyticsSettings
    var paths: PathSettings

    /** The fields as one value. */
    function View(): Settings
      reads this
    {
      Settings(database, server, security, analytics, paths)
    }

    /** `SDMConfig()`. */
    constructor ()
      ensures View() == Defaults()
    {
      database := DatabaseSettings(524288000, 4096, 10000, 50000, 10000000, 5, 256);
      server := ServerSettings(8080, 1000, 10000, 16);
      security := SecuritySettings(true, "SHA256", 1800, "admin", "admin123");
      analytics := AnalyticsSettings(15, 3600);
      paths := PathSettings("compiled/SDM.db", "compiled/indexes", "compiled/SDM.log");
    }

    /**
     * `parse_value(section, key, value)`: assigns the recognised field, or
     * reports that the number conversion threw (the fields are then unchanged).
     */
    method ParseValue(section: string, key: string, value: string) returns (ok: bool)
      modifies this
      ensures ok <==> Assign(old(View()), section, key, value).Some?
      ensures View() == if ok then Assign(old(View()), section, key, value).value else old(View())
    {
      if section == "database" {
        var r := AssignDatabase(database, key, value);
        if r.None? {
          return false;
        }
        database := r.value;
      } else if section == "server" {
        var r := AssignServer(server, key, value);
        if r.None? {
          return false;
        }
        server := r.value;
      } else if section == "security" {
        var r := AssignSecurity(security, key, value);
        if r.None? {
          return false;
        }
        security := r.value;
      } else if section == "analytics" {
        var r := AssignAnalytics(analytics, key, value);
        if r.None? {
          return false;
        }
        analytics := r.value;
      } else if section == "paths" {
        paths := AssignPaths(paths, key, value);
      }
      return true;
    }

    /** One line of `load_from_file`: a header names the section, a pair is handed to `parse_value`. */
    method LoadLine(line: string, section: string) returns (nextSection: string, threw: bool)
      modifies this
      ensures State(View(), nextSection, threw) == Step(State(old(View()), section, false), line)
    {
      nextSection, threw := section, false;
      var kind := Classify(line);
      if kind.Header? {
        nextSection := kind.name;
      } else if kind.Pair? {
        var stored := ParseValue(section, kind.key, kind.value);
        threw := !stored;
      }
    }

    /**
     * `load_from_file`: `contents` is the file's text, or none when it cannot
     * be opened. An exception out of a conversion ends the load with the
     * fields assigned so far.
     */
    method LoadFromFile(contents: Option<string>) returns (result: LoadResult)
      modifies this
      ensures contents.None? <==> result == NotOpened
      ensures contents.None? ==> View() == old(View())
      ensures contents.Some? ==>
        var final := Run(State(old(View()), "", false), Text.Split(contents.value, '\n'));
        View() == final.settings && (result == Threw <==> final.threw)
    {
      result := NotOpened;
      if contents.Some? {
        var text := contents.value;
        var section := "";
        var pos := 0;
        var threw := false;
        ghost var start := State(View(), "", false);
        ghost var consumed: seq<string> := [];
        while !threw
          invariant pos <= |text|
          invariant consumed + Text.Split(text[pos..], '\n') == Text.Split(text, '\n')
          invariant Run(start, consumed) == State(View(), section, threw)
          decreases |text| - pos
        {
          var ok, line, next := Text.GetLine(text, pos, '\n');
          if !ok {
            break;
          }
          Text.ConsumeToken(text, pos, next, line, consumed, '\n');
          RunSnoc(start, consumed, line);
          consumed := consumed + [line];
          pos := next;
          section, threw := LoadLine(line, section);
        }
        if threw {
          ThrewStays(start, consumed, Text.Split(text[pos..], '\n'));
        } else {
          assert text[pos..] == [];
          assert consumed == consumed + [];
        }
        assert Run(start, Text.Split(text, '\n')) == State(View(), section, threw);
        result := if threw then Threw else Loaded;
      }
    }
  }

  lemma RunSnoc(st: State, lines: seq<string>, line: string)
    ensures Run(st, lines + [line]) == Step(Run(st, lines), line)
  {
    assert (lines + [line])[..|lines|] == lines;
  }

  /** Once a conversion has thrown, later lines change nothing. */
  lemma {:induction false} ThrewStays(st: State, lines: seq<string>, rest: seq<string>)
    requires Run(st, lines).threw
    ensures Run(st, lines + rest) == Run(st, lines)
    decreases |rest|
  {
    if rest != [] {
      var init, last := rest[..|rest| - 1], rest[|rest| - 1];
      ThrewStays(st, lines, init);
      assert lines + rest == (lines + init) + [last];
      RunSnoc(st, lines + init, last);
    } else {
      assert lines + rest == lines;
    }
  }
}
