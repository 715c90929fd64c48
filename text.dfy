/**
 * Character-string helpers with the semantics of the C++ library calls the
 * source relies on: `find`, `find_first_not_of`/`find_last_not_of` trimming,
 * and `std::getline` tokenising over a string stream.
 */
module Text {
  import opened Wrappers
  import Seqs

  /** The whitespace set " \t\r\n" trimmed by the request parser and by whole config lines. */
  const LineSpace: set<char> := {' ', '\t', '\r', '\n'}
  /** The whitespace set " \t" trimmed around config keys and values. */
  const BlankSpace: set<char> := {' ', '\t'}

  /** `s.find_first_not_of(ws, i)`, or `|s|` in place of `npos`. */
  function LeftEdge(s: string, ws: set<char>, i: nat): (n: nat)
    requires i <= |s|
    ensures i <= n <= |s| && (n < |s| ==> s[n] !in ws)
    ensures forall k :: i <= k < n ==> s[k] in ws
    decreases |s| - i
  {
    if i == |s| || s[i] !in ws then i else LeftEdge(s, ws, i + 1)
  }

  /** One past the last position in `lo..j` holding a character outside `ws`, or `lo` when there is none. */
  function RightEdge(s: string, ws: set<char>, lo: nat, j: nat): (n: nat)
    requires lo <= j <= |s|
    ensures lo <= n <= j && (n > lo ==> s[n - 1] !in ws)
    ensures forall k :: n <= k < j ==> s[k] in ws
    decreases j
  {
    if j == lo || s[j - 1] !in ws then j else RightEdge(s, ws, lo, j - 1)
  }

  /**
   * `s.erase(0, s.find_first_not_of(ws))` followed by
   * `s.erase(s.find_last_not_of(ws) + 1)`: the leading and then the trailing
   * run of characters in `ws` removed (all of `s` when it holds nothing else).
   */
  function Trim(s: string, ws: set<char>): (r: string)
    ensures r == [] || (r[0] !in ws && r[|r| - 1] !in ws)
  {
    var a := LeftEdge(s, ws, 0);
    s[a..RightEdge(s, ws, a, |s|)]
  }

  /** Trimming keeps only characters of the input, and drops only characters of `ws`. */
  lemma TrimChars(s: string, ws: set<char>)
    ensures forall k :: 0 <= k < |Trim(s, ws)| ==> Trim(s, ws)[k] in s
    ensures forall k :: 0 <= k < |s| && s[k] !in ws ==> s[k] in Trim(s, ws)
  {
    var a := LeftEdge(s, ws, 0);
    var b := RightEdge(s, ws, a, |s|);
    forall k | 0 <= k < |s| && s[k] !in ws ensures s[k] in Trim(s, ws) {
      assert Trim(s, ws)[k - a] == s[k];
    }
  }

  /** A string that neither starts nor ends with a character of `ws` is its own trim. */
  lemma TrimClean(s: string, ws: set<char>)
    requires s == [] || (s[0] !in ws && s[|s| - 1] !in ws)
    ensures Trim(s, ws) == s
  {
  }

  /** The position of the first `c` in `s` (`std::string::find(char)`). */
  function Find(s: string, c: char): (r: Option<nat>)
    ensures r.Some? ==> r.value < |s| && s[r.value] == c && c !in s[..r.value]
    ensures r.None? ==> c !in s
  {
    var r := Seqs.FirstIndex(s, (x: char) => x == c);
    assert r.Some? ==> forall j :: 0 <= j < r.value ==> s[..r.value][j] == s[j];
    r
  }

  /** `pat` occurs in `s` starting at position `j`. */
  predicate OccursAt(s: string, pat: string, j: nat)
  {
    j + |pat| <= |s| && s[j..j + |pat|] == pat
  }

  /** The position of the first occurrence of `pat` in `s` at or after `from`. */
  function FindSubFrom(s: string, pat: string, from: nat): (r: Option<nat>)
    requires from <= |s|
    ensures r.Some? ==> from <= r.value && OccursAt(s, pat, r.value)
    ensures r.Some? ==> forall j :: from <= j < r.value ==> !OccursAt(s, pat, j)
    ensures r.None? ==> forall j :: from <= j ==> !OccursAt(s, pat, j)
    decreases |s| - from
  {
    if from + |pat| > |s| then None
    else if OccursAt(s, pat, from) then Some(from)
    else if from == |s| then None
    else FindSubFrom(s, pat, from + 1)
  }

  /** `s.find(pat)`: the first occurrence of `pat` in `s`. */
  function FindSub(s: string, pat: string): Option<nat>
  {
    FindSubFrom(s, pat, 0)
  }

  /**
   * The tokens `while (getline(ss, token, d))` produces from a stream over
   * `s`: the empty string gives none, a trailing delimiter closes the last
   * token without opening a new one, and consecutive delimiters give empty
   * tokens.
   */
  function Split(s: string, d: char): (r: seq<string>)
    ensures s == [] <==> r == []
    decreases |s|
  {
    if s == [] then []
    else match Find(s, d)
      case None => [s]
      case Some(k) => [s[..k]] + Split(s[k + 1..], d)
  }

  /** No token contains the delimiter. */
  lemma {:induction false} SplitTokensFree(s: string, d: char)
    ensures forall i :: 0 <= i < |Split(s, d)| ==> d !in Split(s, d)[i]
    decreases |s|
  {
    if s != [] {
      match Find(s, d)
      case None =>
      case Some(k) =>
        SplitTokensFree(s[k + 1..], d);
        assert Split(s, d) == [s[..k]] + Split(s[k + 1..], d);
    }
  }

  /** The tokens joined with the delimiter between them. */
  function Join(tokens: seq<string>, d: char): string
  {
    if tokens == [] then []
    else if |tokens| == 1 then tokens[0]
    else tokens[0] + [d] + Join(tokens[1..], d)
  }

  /** Joining the tokens gives back the input whenever it does not end in the delimiter. */
  lemma {:induction false} JoinSplit(s: string, d: char)
    requires s == [] || s[|s| - 1] != d
    ensures Join(Split(s, d), d) == s
    decreases |s|
  {
    if s != [] {
      match Find(s, d)
      case None =>
      case Some(k) =>
        var rest := s[k + 1..];
        assert rest != [] by {
          assert s[|s| - 1] != d;
        }
        JoinSplit(rest, d);
        assert Split(s, d) == [s[..k]] + Split(rest, d);
        assert s == s[..k] + [d] + rest;
    }
  }

  /** Splitting a join gives back the tokens when none contains the delimiter and the last is non-empty. */
  lemma {:induction false} SplitJoin(tokens: seq<string>, d: char)
    requires forall i :: 0 <= i < |tokens| ==> d !in tokens[i]
    requires tokens != [] ==> tokens[|tokens| - 1] != []
    ensures Split(Join(tokens, d), d) == tokens
  {
    if |tokens| == 1 {
      assert Find(tokens[0], d).None?;
    } else if |tokens| > 1 {
      var t := tokens[0];
      var rest := Join(tokens[1..], d);
      var s := t + [d] + rest;
      assert Join(tokens, d) == s;
      assert Find(s, d) == Some(|t|) by {
        assert s[|t|] == d;
        assert s[..|t|] == t;
      }
      assert s[..|t|] == t;
      assert s[|t| + 1..] == rest;
      SplitJoin(tokens[1..], d);
      assert tokens == [t] + tokens[1..];
    }
  }

  /** A `getline` loop that has read `consumed` and then `token` has read `consumed + [token]`. */
  lemma ConsumeToken(s: string, pos: nat, next: nat, token: string, consumed: seq<string>, d: char)
    requires pos < next <= |s|
    requires consumed + Split(s[pos..], d) == Split(s, d)
    requires Split(s[pos..], d) == [token] + Split(s[next..], d)
    ensures (consumed + [token]) + Split(s[next..], d) == Split(s, d)
  {
    var rest := Split(s[next..], d);
    assert consumed + ([token] + rest) == (consumed + [token]) + rest;
  }

  /**
   * One `std::getline(ss, token, d)` call on a stream over `s` positioned at
   * `pos`: it fails (and clears the token) at end of stream, and otherwise
   * extracts up to the next delimiter, which it consumes.
   */
  method GetLine(s: string, pos: nat, d: char) returns (ok: bool, token: string, next: nat)
    requires pos <= |s|
    ensures ok <==> pos < |s|
    ensures !ok ==> token == [] && next == pos
    ensures ok ==> pos < next <= |s| && Split(s[pos..], d) == [token] + Split(s[next..], d)
  {
    if pos == |s| {
      return false, [], pos;
    }
    var k := pos;
    while k < |s| && s[k] != d
      invariant pos <= k <= |s|
      invariant forall j :: pos <= j < k ==> s[j] != d
    {
      k := k + 1;
    }
    next := if k < |s| then k + 1 else |s|;
    TokenAt(s, pos, k, next, d);
    ok, token := true, s[pos..k];
  }

  /** The token a `getline` from `pos` extracts when its scan stops at `k`, and where the next one starts. */
  lemma TokenAt(s: string, pos: nat, k: nat, next: nat, d: char)
    requires pos < |s| && pos <= k <= |s|
    requires forall j :: pos <= j < k ==> s[j] != d
    requires k < |s| ==> s[k] == d
    requires next == if k < |s| then k + 1 else |s|
    ensures Split(s[pos..], d) == [s[pos..k]] + Split(s[next..], d)
  {
    if k < |s| {
      TokenBeforeDelimiter(s, pos, k, d);
    } else {
      TokenAtEnd(s, pos, d);
      assert s[pos..k] == s[pos..] && s[next..] == [];
    }
  }

  /** A `getline` from `pos` whose scan stops at a delimiter at `k` extracts `s[pos..k]` and resumes after it. */
  lemma TokenBeforeDelimiter(s: string, pos: nat, k: nat, d: char)
    requires pos <= k < |s| && s[k] == d
    requires forall j :: pos <= j < k ==> s[j] != d
    ensures Split(s[pos..], d) == [s[pos..k]] + Split(s[k + 1..], d)
  {
    var rest, m := s[pos..], k - pos;
    assert rest[m] == d;
    assert forall j :: 0 <= j < m ==> rest[j] != d by {
      forall j | 0 <= j < m ensures rest[j] != d {
        assert rest[j] == s[pos + j];
      }
    }
    SplitAtFirst(rest, d, m);
    assert rest[..m] == s[pos..k];
    assert rest[m + 1..] == s[k + 1..];
  }

  /** A `getline` from `pos` that meets no delimiter extracts the rest of the stream. */
  lemma TokenAtEnd(s: string, pos: nat, d: char)
    requires pos < |s|
    requires forall j :: pos <= j < |s| ==> s[j] != d
    ensures Split(s[pos..], d) == [s[pos..]]
  {
    var rest := s[pos..];
    assert forall j :: 0 <= j < |rest| ==> rest[j] != d by {
      forall j | 0 <= j < |rest| ensures rest[j] != d {
        assert rest[j] == s[pos + j];
      }
    }
    SplitWhole(rest, d);
  }

  /** A string whose first delimiter is at `k` splits into its first `k` characters and the split of the rest. */
  lemma SplitAtFirst(s: string, d: char, k: nat)
    requires k < |s| && s[k] == d
    requires forall j :: 0 <= j < k ==> s[j] != d
    ensures Split(s, d) == [s[..k]] + Split(s[k + 1..], d)
  {
    assert s[..k + 1][k] == d;
  }

  /** A non-empty string without the delimiter is a single token. */
  lemma SplitWhole(s: string, d: char)
    requires s != []
    requires forall j :: 0 <= j < |s| ==> s[j] != d
    ensures Split(s, d) == [s]
  {
    assert Find(s, d).None?;
  }
}
