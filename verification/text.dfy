/** String helpers shared by the client and the server: JavaScript's trim, Python's strip and
    lower, substring search, character search, splitting, joining and decimal rendering.
    Strings are sequences of Unicode scalar values, so lengths count code points, as Python's
    len does (JavaScript counts UTF-16 units; the two agree on the Basic Multilingual Plane). */
module Text {
  import opened Wrappers

  /** What String.prototype.trim removes: ECMAScript WhiteSpace and LineTerminator code points. */
  const JsWhitespace: set<char> := {
    '\t', '\n', '\U{000B}', '\U{000C}', '\r', ' ', '\U{00A0}', '\U{1680}',
    '\U{2000}', '\U{2001}', '\U{2002}', '\U{2003}', '\U{2004}', '\U{2005}', '\U{2006}',
    '\U{2007}', '\U{2008}', '\U{2009}', '\U{200A}', '\U{2028}', '\U{2029}', '\U{202F}',
    '\U{205F}', '\U{3000}', '\U{FEFF}'
  }

  /** What Python's argument-less str.strip removes: the code points for which str.isspace holds.
      Unlike JsWhitespace it contains the separators U+001C..U+001F and NEL (U+0085), and it
      does not contain the byte-order mark U+FEFF. */
  const PyWhitespace: set<char> := {
    '\t', '\n', '\U{000B}', '\U{000C}', '\r', '\U{001C}', '\U{001D}', '\U{001E}', '\U{001F}',
    ' ', '\U{0085}', '\U{00A0}', '\U{1680}',
    '\U{2000}', '\U{2001}', '\U{2002}', '\U{2003}', '\U{2004}', '\U{2005}', '\U{2006}',
    '\U{2007}', '\U{2008}', '\U{2009}', '\U{200A}', '\U{2028}', '\U{2029}', '\U{202F}',
    '\U{205F}', '\U{3000}'
  }

  // ---------------------------------------------------------------- trimming

  /** The number of leading characters of s that belong to ws. */
  function LeadingCount(s: string, ws: set<char>): (n: nat)
    ensures n <= |s|
    ensures forall k :: 0 <= k < n ==> s[k] in ws
    ensures n < |s| ==> s[n] !in ws
  {
    if s == [] || s[0] !in ws then 0 else 1 + LeadingCount(s[1..], ws)
  }

  /** The number of trailing characters of s that belong to ws. */
  function TrailingCount(s: string, ws: set<char>): (n: nat)
    ensures n <= |s|
    ensures forall k :: |s| - n <= k < |s| ==> s[k] in ws
    ensures n < |s| ==> s[|s| - 1 - n] !in ws
  {
    if s == [] || s[|s| - 1] !in ws then 0 else 1 + TrailingCount(s[..|s| - 1], ws)
  }

  /** r is s[i..j], everything outside [i, j) belongs to ws, and r neither starts nor ends
      with a character of ws. */
  ghost predicate TrimAt(r: string, s: string, ws: set<char>, i: int, j: int) {
    && 0 <= i <= j <= |s|
    && r == s[i..j]
    && (forall k :: 0 <= k < i ==> s[k] in ws)
    && (forall k :: j <= k < |s| ==> s[k] in ws)
    && (r == [] || (r[0] !in ws && r[|r| - 1] !in ws))
  }

  /** r is s with its maximal ws prefix and suffix cut away: an independent description of
      trimming, which determines r uniquely (TrimOfUnique). */
  ghost predicate IsTrimOf(r: string, s: string, ws: set<char>) {
    exists i, j :: TrimAt(r, s, ws, i, j)
  }

  /** Removes leading and trailing characters of ws. */
  function TrimWith(s: string, ws: set<char>): (r: string)
    ensures IsTrimOf(r, s, ws)
    ensures |r| <= |s|
  {
    var i := LeadingCount(s, ws);
    if i == |s| then
      assert TrimAt([], s, ws, i, i);
      []
    else
      var t := TrailingCount(s, ws);
      assert i < |s| - t;
      var r := s[i..|s| - t];
      assert r[0] == s[i] && r[|r| - 1] == s[|s| - 1 - t];
      assert TrimAt(r, s, ws, i, |s| - t);
      r
  }

  /** JavaScript's String.prototype.trim. */
  function Trim(s: string): (r: string)
    ensures IsTrimOf(r, s, JsWhitespace)
  {
    TrimWith(s, JsWhitespace)
  }

  /** Python's argument-less str.strip. */
  function Strip(s: string): (r: string)
    ensures IsTrimOf(r, s, PyWhitespace)
  {
    TrimWith(s, PyWhitespace)
  }

  /** Trimming has exactly one possible result. */
  lemma TrimOfUnique(r1: string, r2: string, s: string, ws: set<char>)
    requires IsTrimOf(r1, s, ws) && IsTrimOf(r2, s, ws)
    ensures r1 == r2
  {
    var i1, j1 :| TrimAt(r1, s, ws, i1, j1);
    var i2, j2 :| TrimAt(r2, s, ws, i2, j2);
    if r1 != [] && r2 != [] {
      assert s[i1] == r1[0] && s[j1 - 1] == r1[|r1| - 1];
      assert s[i2] == r2[0] && s[j2 - 1] == r2[|r2| - 1];
      assert i1 == i2;
      assert j1 == j2;
    } else if r1 != [] {
      assert false;
    } else if r2 != [] {
      assert false;
    }
  }

  /** Trimming removes characters of ws only: the trim holds exactly the characters of s,
      except possibly some of ws. */
  lemma TrimWithChars(s: string, ws: set<char>)
    ensures forall c :: c in TrimWith(s, ws) ==> c in s
    ensures forall c :: c in s && c !in ws ==> c in TrimWith(s, ws)
  {
    var r := TrimWith(s, ws);
    var i, j :| TrimAt(r, s, ws, i, j);
    forall c | c in r
      ensures c in s
    {
      var k :| 0 <= k < |r| && r[k] == c;
      assert s[i + k] == c;
    }
    forall c | c in s && c !in ws
      ensures c in r
    {
      var k :| 0 <= k < |s| && s[k] == c;
      assert r[k - i] == c;
    }
  }

  /** A string whose first and last characters are outside ws is its own trim. */
  lemma TrimWithNoop(s: string, ws: set<char>)
    requires s == [] || (s[0] !in ws && s[|s| - 1] !in ws)
    ensures TrimWith(s, ws) == s
  {
    assert TrimAt(s, s, ws, 0, |s|);
    TrimOfUnique(TrimWith(s, ws), s, s, ws);
  }

  /** A non-empty trim starts and ends outside ws. */
  lemma TrimWithEnds(s: string, ws: set<char>)
    ensures var r := TrimWith(s, ws); r == [] || (r[0] !in ws && r[|r| - 1] !in ws)
  {
    var r := TrimWith(s, ws);
    var i, j :| TrimAt(r, s, ws, i, j);
  }

  /** Neither runtime counts a visible ASCII character as whitespace. */
  lemma VisibleAsciiNotWhitespace(c: char)
    requires '!' <= c <= '~'
    ensures c !in JsWhitespace && c !in PyWhitespace
  {
  }

  // ---------------------------------------------------------------- lengths

  /** A character outside the Basic Multilingual Plane, which UTF-16 writes as two units. */
  predicate IsAstral(c: char) {
    c as int >= 0x1_0000
  }

  /** JavaScript's `length` of a string: its UTF-16 code units, two for an astral character and
      one for any other. Python's `len` is `|s|`, the code points. */
  function Utf16Length(s: string): (n: nat)
    ensures |s| <= n <= 2 * |s|
    ensures (forall k :: 0 <= k < |s| ==> !IsAstral(s[k])) ==> n == |s|
    ensures (forall k :: 0 <= k < |s| ==> IsAstral(s[k])) ==> n == 2 * |s|
  {
    if s == [] then 0
    else (if IsAstral(s[0]) then 2 else 1) + Utf16Length(s[1..])
  }

  // ---------------------------------------------------------------- case folding

  predicate IsAsciiUpper(c: char) {
    'A' <= c <= 'Z'
  }

  function LowerChar(c: char): char {
    if IsAsciiUpper(c) then (c as int + 32) as char else c
  }

  /** Python's str.lower restricted to ASCII: exactly the upper-case letters change. */
  function Lower(s: string): (r: string)
    ensures |r| == |s|
    ensures forall k :: 0 <= k < |r| ==> !IsAsciiUpper(r[k])
    ensures forall k :: 0 <= k < |r| ==> (r[k] == s[k] <==> !IsAsciiUpper(s[k]))
    ensures forall k :: 0 <= k < |s| && IsAsciiUpper(s[k]) ==> r[k] as int - 'a' as int == s[k] as int - 'A' as int
  {
    seq(|s|, k requires 0 <= k < |s| => LowerChar(s[k]))
  }

  // ---------------------------------------------------------------- searching

  /** p occurs in s starting at position i. */
  ghost predicate OccursAt(p: string, s: string, i: int) {
    0 <= i && i + |p| <= |s| && s[i..i + |p|] == p
  }

  /** Python's `p in s` for strings: substring containment. */
  function Contains(p: string, s: string): bool
    decreases |s|
  {
    p <= s || (s != [] && Contains(p, s[1..]))
  }

  /** Contains holds exactly when p occurs somewhere in s. */
  lemma {:induction false} ContainsCorrect(p: string, s: string)
    ensures Contains(p, s) <==> exists i :: OccursAt(p, s, i)
    decreases |s|
  {
    if p <= s {
      assert s[0..|p|] == p;
      assert OccursAt(p, s, 0);
    } else if s != [] {
      ContainsCorrect(p, s[1..]);
      OccursInTail(p, s);
    }
  }

  /** When s does not start with p, p occurs in s exactly when it occurs in s's tail. */
  lemma OccursInTail(p: string, s: string)
    requires s != [] && !(p <= s)
    ensures (exists i :: OccursAt(p, s, i)) <==> (exists i :: OccursAt(p, s[1..], i))
  {
    if exists i :: OccursAt(p, s[1..], i) {
      var i :| OccursAt(p, s[1..], i);
      assert s[i + 1..i + 1 + |p|] == s[1..][i..i + |p|];
      assert OccursAt(p, s, i + 1);
    }
    if exists i :: OccursAt(p, s, i) {
      var i :| OccursAt(p, s, i);
      if i != 0 {
        assert s[1..][i - 1..i - 1 + |p|] == s[i..i + |p|];
        assert OccursAt(p, s[1..], i - 1);
      }
    }
  }

  /** The position of the first c in s, if any. */
  function IndexOf(s: string, c: char): (r: Option<nat>)
    ensures r.Some? ==> r.value < |s| && s[r.value] == c && c !in s[..r.value]
    ensures r.None? <==> c !in s
  {
    if s == [] then None
    else if s[0] == c then Some(0)
    else
      match IndexOf(s[1..], c)
      case None => None
      case Some(i) =>
        assert s[..i + 1] == [s[0]] + s[1..][..i];
        Some(i + 1)
  }

  /** The position of the last c in s, if any. */
  function LastIndexOf(s: string, c: char): (r: Option<nat>)
    ensures r.Some? ==> r.value < |s| && s[r.value] == c && c !in s[r.value + 1..]
    ensures r.None? <==> c !in s
  {
    if s == [] then None
    else if s[|s| - 1] == c then Some(|s| - 1)
    else
      var r := LastIndexOf(s[..|s| - 1], c);
      if r.Some? then
        assert s[r.value + 1..] == s[..|s| - 1][r.value + 1..] + [s[|s| - 1]];
        r
      else
        assert s == s[..|s| - 1] + [s[|s| - 1]];
        r
  }

  // ---------------------------------------------------------------- splitting and joining

  /** Python's str.join: the parts with sep between neighbours; empty for no parts. */
  function Join(parts: seq<string>, sep: string): string {
    if |parts| == 0 then ""
    else if |parts| == 1 then parts[0]
    else parts[0] + sep + Join(parts[1..], sep)
  }

  /** Python's str.split with a one-character separator: the maximal sep-free pieces. */
  function Split(s: string, sep: char): (parts: seq<string>)
    ensures |parts| >= 1
    ensures forall k :: 0 <= k < |parts| ==> sep !in parts[k]
    decreases |s|
  {
    match IndexOf(s, sep)
    case None => [s]
    case Some(i) => [s[..i]] + Split(s[i + 1..], sep)
  }

  /** Joining the pieces back with the separator restores the string. */
  lemma {:induction false} JoinSplit(s: string, sep: char)
    ensures Join(Split(s, sep), [sep]) == s
    decreases |s|
  {
    match IndexOf(s, sep)
    case None =>
    case Some(i) =>
      var rest := Split(s[i + 1..], sep);
      assert Split(s, sep) == [s[..i]] + rest;
      assert ([s[..i]] + rest)[1..] == rest;
      assert Join(Split(s, sep), [sep]) == s[..i] + [sep] + Join(rest, [sep]);
      JoinSplit(s[i + 1..], sep);
      assert s == s[..i] + [sep] + s[i + 1..];
  }

  /** Splitting a join of separator-free parts gives the parts back. */
  lemma {:induction false} SplitJoin(parts: seq<string>, sep: char)
    requires |parts| >= 1
    requires forall k :: 0 <= k < |parts| ==> sep !in parts[k]
    ensures Split(Join(parts, [sep]), sep) == parts
  {
    if |parts| == 1 {
      assert sep !in parts[0];
      assert IndexOf(parts[0], sep).None?;
    } else {
      var tail := parts[1..];
      assert Join(parts, [sep]) == parts[0] + [sep] + Join(tail, [sep]);
      SplitCons(parts[0], sep, Join(tail, [sep]));
      assert forall k :: 0 <= k < |tail| ==> tail[k] == parts[k + 1];
      SplitJoin(tail, sep);
      assert parts == [parts[0]] + tail;
    }
  }

  /** Splitting a separator-free piece, the separator and a remainder gives the piece, then the
      remainder's pieces. */
  lemma SplitCons(piece: string, sep: char, rest: string)
    requires sep !in piece
    ensures Split(piece + [sep] + rest, sep) == [piece] + Split(rest, sep)
  {
    FirstSeparator(piece, sep, rest);
  }

  /** In a separator-free piece followed by the separator, the separator found first is that
      one, and what follows it is the remainder. */
  lemma FirstSeparator(piece: string, sep: char, rest: string)
    requires sep !in piece
    ensures IndexOf(piece + [sep] + rest, sep) == Some(|piece|)
    ensures (piece + [sep] + rest)[..|piece|] == piece
    ensures (piece + [sep] + rest)[|piece| + 1..] == rest
  {
    var s := piece + [sep] + rest;
    assert s[..|piece|] == piece;
    assert s[|piece|] == sep;
    assert s[|piece| + 1..] == rest;
  }

  // ---------------------------------------------------------------- decimal numbers

  function DigitChar(d: nat): char
    requires d < 10
  {
    ('0' as int + d) as char
  }

  function DigitValue(c: char): nat {
    if '0' <= c <= '9' then c as int - '0' as int else 0
  }

  /** The decimal rendering of n, as String(n) in JavaScript and str(n) in Python. */
  function NatToString(n: nat): (r: string)
    ensures |r| >= 1
    ensures forall k :: 0 <= k < |r| ==> '0' <= r[k] <= '9'
    ensures r[0] == '0' ==> n == 0
  {
    if n < 10 then [DigitChar(n)] else NatToString(n / 10) + [DigitChar(n % 10)]
  }

  /** The decimal rendering of an integer, with a leading minus sign when negative. */
  function IntToString(n: int): string {
    if n >= 0 then NatToString(n) else "-" + NatToString(-n)
  }

  /** The value of a string of decimal digits. */
  function ParseDecimal(s: string): nat {
    if s == [] then 0 else 10 * ParseDecimal(s[..|s| - 1]) + DigitValue(s[|s| - 1])
  }

  /** Reading back a rendered number gives the number. */
  lemma {:induction false} ParseNatToString(n: nat)
    ensures ParseDecimal(NatToString(n)) == n
  {
    if n >= 10 {
      ParseNatToString(n / 10);
      var r := NatToString(n);
      assert r == NatToString(n / 10) + [DigitChar(n % 10)];
      assert r[..|r| - 1] == NatToString(n / 10);
      assert DigitValue(r[|r| - 1]) == n % 10;
    }
  }
}
