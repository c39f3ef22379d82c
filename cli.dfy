/**
 * Character-level parsing of the command line: building the payload from the
 * arguments (join with one space, then trim) and the three argument patterns
 * the commands accept, `^\d+$`, `^(\d+)\s+(.+)$` and the status alternation,
 * written out as predicates over characters.
 */
module Cli {
  import opened Tasks

  /** `\d`: an ASCII decimal digit. */
  predicate IsDigit(c: char)
  {
    '0' <= c <= '9'
  }

  /** The line terminators, the characters that `.` does not match. */
  const LineTerminators: set<char> := {'\n', '\r', '\U{2028}', '\U{2029}'}

  /** The white-space characters other than line terminators. */
  const WhiteSpace: set<char> :=
    {'\t', '\U{B}', '\U{C}', ' ', '\U{A0}', '\U{FEFF}', '\U{1680}',
     '\U{2000}', '\U{2001}', '\U{2002}', '\U{2003}', '\U{2004}', '\U{2005}',
     '\U{2006}', '\U{2007}', '\U{2008}', '\U{2009}', '\U{200A}',
     '\U{202F}', '\U{205F}', '\U{3000}'}

  /** A line terminator is also white space to `\s` and `trim`. */
  predicate IsLineTerminator(c: char)
    ensures IsLineTerminator(c) ==> IsSpace(c)
  {
    c in LineTerminators
  }

  /** `\s`, and the characters `trim` removes: white space and line terminators. */
  predicate IsSpace(c: char)
    ensures IsSpace(c) ==> !IsDigit(c)
  {
    c in WhiteSpace || c in LineTerminators
  }

  predicate AllDigits(s: string)
  {
    forall i :: 0 <= i < |s| ==> IsDigit(s[i])
  }

  predicate AllSpace(s: string)
  {
    forall i :: 0 <= i < |s| ==> IsSpace(s[i])
  }

  predicate NoLineTerminator(s: string)
  {
    forall i :: 0 <= i < |s| ==> !IsLineTerminator(s[i])
  }

  // ---------------------------------------------------------------------------
  // Payload: args.slice(1).join(' ').trim()

  /** Length of the white-space run at the start of `s`. */
  function LeadingSpaces(s: string): (n: nat)
    ensures n <= |s|
    ensures AllSpace(s[..n])
    ensures n < |s| ==> !IsSpace(s[n])
  {
    if |s| > 0 && IsSpace(s[0]) then
      var n := 1 + LeadingSpaces(s[1..]);
      assert s[..n] == [s[0]] + s[1..][..n - 1];
      n
    else 0
  }

  /** Length of the white-space run at the end of `s`. */
  function TrailingSpaces(s: string): (n: nat)
    ensures n <= |s|
    ensures forall t :: |s| - n <= t < |s| ==> IsSpace(s[t])
    ensures n < |s| ==> !IsSpace(s[|s| - 1 - n])
  {
    if |s| > 0 && IsSpace(s[|s| - 1]) then
      var init := s[..|s| - 1];
      assert forall t :: 0 <= t < |init| ==> init[t] == s[t];
      1 + TrailingSpaces(init)
    else 0
  }

  /** `String.prototype.trim`: `s` without its leading and trailing white space. */
  function Trim(s: string): (r: string)
    ensures |r| <= |s|
    ensures r == [] <==> AllSpace(s)
    ensures r != [] ==> !IsSpace(r[0]) && !IsSpace(r[|r| - 1])
    ensures exists a :: 0 <= a <= |s| - |r| && s[a..a + |r|] == r && AllSpace(s[..a]) && AllSpace(s[a + |r|..])
  {
    var a := LeadingSpaces(s);
    if a == |s| then
      assert s[..a] == s;
      []
    else
      var b := TrailingSpaces(s);
      assert a < |s| - b;  // s[a] is not white space, everything from |s| - b on is
      assert forall t :: |s| - b <= t < |s| ==> s[|s| - b..][t - (|s| - b)] == s[t];
      s[a..|s| - b]
  }

  /** `Array.prototype.join(' ')`. */
  function JoinWords(words: seq<string>): (r: string)
    ensures |words| == 1 ==> r == words[0]
    ensures AllSpace(r) <==> forall k :: 0 <= k < |words| ==> AllSpace(words[k])
  {
    if |words| == 0 then ""
    else if |words| == 1 then words[0]
    else
      var rest := JoinWords(words[1..]);
      var r := words[0] + " " + rest;
      assert r[..|words[0]|] == words[0];
      assert r[|words[0]| + 1..] == rest;
      assert forall k :: 1 <= k < |words| ==> words[k] == words[1..][k - 1];
      r
  }

  /** The text after the command name, joined and trimmed: empty when there is nothing after the name. */
  function Payload(args: seq<string>): (r: string)
    ensures Trimmed(r)
    ensures |args| <= 1 ==> r == []
  {
    if |args| == 0 then "" else Trim(JoinWords(args[1..]))
  }

  /** The payload is empty exactly when every argument after the command name is white space. */
  lemma PayloadEmpty(args: seq<string>)
    requires |args| > 0
    ensures Payload(args) == [] <==> forall k :: 1 <= k < |args| ==> AllSpace(args[k])
  {
    assert forall k :: 1 <= k < |args| ==> args[k] == args[1..][k - 1];
  }

  /** A string that neither starts nor ends with white space. */
  predicate Trimmed(s: string)
  {
    s == [] || (!IsSpace(s[0]) && !IsSpace(s[|s| - 1]))
  }

  /** A string that neither starts nor ends with white space is its own trim. */
  lemma TrimUnchanged(s: string)
    requires Trimmed(s)
    ensures Trim(s) == s
  {
    if s != [] {
      assert LeadingSpaces(s) == 0;
      assert s[0..] == s;
    }
  }

  /** Trimming a trimmed string changes nothing. */
  lemma TrimIdempotent(s: string)
    ensures Trim(Trim(s)) == Trim(s)
  {
    TrimUnchanged(Trim(s));
  }

  // ---------------------------------------------------------------------------
  // Decimal ids: Number(...) applied to a run of digits

  function DigitValue(c: char): (d: nat)
    requires IsDigit(c)
    ensures d < 10
  {
    c as int - '0' as int
  }

  function DigitChar(d: nat): (c: char)
    requires d < 10
    ensures IsDigit(c) && DigitValue(c) == d
  {
    (d + '0' as int) as char
  }

  /** The decimal value of a digit string (leading zeros allowed); it is zero exactly when every digit is `0`. */
  function DecimalValue(s: string): (v: nat)
    requires AllDigits(s)
    ensures v == 0 <==> forall i :: 0 <= i < |s| ==> s[i] == '0'
  {
    if |s| == 0 then 0
    else
      var init := s[..|s| - 1];
      assert forall i :: 0 <= i < |init| ==> init[i] == s[i];
      10 * DecimalValue(init) + DigitValue(s[|s| - 1])
  }

  /** The canonical decimal spelling of `n`. */
  function DecimalString(n: nat): (s: string)
    ensures |s| > 0 && AllDigits(s)
  {
    if n < 10 then [DigitChar(n)] else DecimalString(n / 10) + [DigitChar(n % 10)]
  }

  /** A decimal spelling has no white space at either end. */
  lemma DecimalStringTrimmed(n: nat)
    ensures Trimmed(DecimalString(n))
  {
    var s := DecimalString(n);
    assert IsDigit(s[0]) && IsDigit(s[|s| - 1]);
  }

  lemma {:induction false} DecimalRoundTrip(n: nat)
    ensures DecimalValue(DecimalString(n)) == n
  {
    if n >= 10 {
      DecimalRoundTrip(n / 10);
      var s := DecimalString(n);
      assert s[..|s| - 1] == DecimalString(n / 10);
    }
  }

  /** Leading zeros do not change the value: `Number("007") === 7`. */
  lemma {:induction false} DecimalLeadingZero(s: string)
    requires AllDigits(s)
    ensures DecimalValue("0" + s) == DecimalValue(s)
  {
    if |s| > 0 {
      var init := s[..|s| - 1];
      DecimalLeadingZero(init);
      assert ("0" + s)[..|s|] == "0" + init;
    }
  }

  // ---------------------------------------------------------------------------
  // Id arguments: /^\d+$/

  /** The id of a `delete` or `mark-*` payload: accepted exactly when it is a non-empty run of digits. */
  function ParseId(p: string): (r: Option<nat>)
    ensures r.Some? <==> p != [] && AllDigits(p)
    ensures r.Some? ==> r.value == DecimalValue(p)
  {
    if p != [] && AllDigits(p) then Some(DecimalValue(p)) else None
  }

  /** Every id, written in decimal, is accepted back as itself. */
  lemma ParseIdRoundTrip(n: nat)
    ensures ParseId(DecimalString(n)) == Some(n)
  {
    DecimalRoundTrip(n);
  }

  // ---------------------------------------------------------------------------
  // Update arguments: /^(\d+)\s+(.+)$/

  /** Length of the digit run at the start of `s`. */
  function LeadingDigits(s: string): (n: nat)
    ensures n <= |s|
    ensures AllDigits(s[..n])
    ensures n < |s| ==> !IsDigit(s[n])
  {
    if |s| > 0 && IsDigit(s[0]) then
      var n := 1 + LeadingDigits(s[1..]);
      assert s[..n] == [s[0]] + s[1..][..n - 1];
      n
    else 0
  }

  /**
   * A way for `^(\d+)\s+(.+)$` to match `p`: digits up to `i`, white space up
   * to `j`, then one or more characters other than line terminators to the end.
   */
  ghost predicate UpdateShape(p: string, i: int, j: int)
    ensures UpdateShape(p, i, j) ==> |p| >= 3
  {
    0 < i < j < |p| && AllDigits(p[..i]) && AllSpace(p[i..j]) && NoLineTerminator(p[j..])
  }

  /**
   * The id and description an `update` payload carries, as the backtracking
   * matcher finds them: the longest digit run, then the longest white-space run
   * that still leaves at least one character for `(.+)`.
   */
  function ParseUpdate(p: string): (r: Option<(nat, string)>)
    ensures r.Some? ==> r.value.1 != [] && NoLineTerminator(r.value.1)
  {
    var i := LeadingDigits(p);
    var j := i + LeadingSpaces(p[i..]);
    var k := if j < |p| then j else |p| - 1;
    if 0 < i < k && NoLineTerminator(p[k..]) then
      Some((DecimalValue(p[..i]), p[k..]))
    else None
  }

  /**
   * `ParseUpdate` succeeds exactly when the pattern matches `p`, and it yields
   * the captures the backtracking matcher reports: every way to match splits
   * after the same digit run, and none leaves a shorter description.
   */
  lemma UpdateMatchesPattern(p: string)
    ensures ParseUpdate(p).Some? <==> exists i, j :: UpdateShape(p, i, j)
    ensures ParseUpdate(p).Some? ==>
              exists i, j :: && UpdateShape(p, i, j)
                             && ParseUpdate(p).value.1 == p[j..]
                             && ParseUpdate(p).value.0 == DecimalValue(p[..i])
                             && forall i', j' :: UpdateShape(p, i', j') ==> i' == i && j' <= j
  {
    var i0 := LeadingDigits(p);
    var n := LeadingSpaces(p[i0..]);
    var k := if i0 + n < |p| then i0 + n else |p| - 1;
    forall i, j | UpdateShape(p, i, j)
      ensures i == i0 && j <= k && 0 < i0 < k && NoLineTerminator(p[k..])
    {
      ShapeIsGreedy(p, i, j);
    }
    if ParseUpdate(p).Some? {
      assert forall t :: 0 <= t < k - i0 ==> p[i0..k][t] == p[i0..][..n][t];
      assert UpdateShape(p, i0, k);
    }
  }

  /** Any way to match the update pattern splits after the whole digit run and within the white-space run after it. */
  lemma ShapeIsGreedy(p: string, i: int, j: int)
    requires UpdateShape(p, i, j)
    ensures var i0 := LeadingDigits(p);
            var n := LeadingSpaces(p[i0..]);
            var k := if i0 + n < |p| then i0 + n else |p| - 1;
            i == i0 && j <= k && 0 < i0 < k && NoLineTerminator(p[k..])
  {
    assert IsSpace(p[i..j][0]);
    DigitRunEnds(p, i);
    SpaceRunBound(p, i, j);
    assert forall t :: j <= t < |p| ==> !IsLineTerminator(p[t]);
  }

  /** A digit run followed by a non-digit is the leading digit run. */
  lemma DigitRunEnds(s: string, i: nat)
    requires i < |s| && AllDigits(s[..i]) && !IsDigit(s[i])
    ensures LeadingDigits(s) == i
  {
    var m := LeadingDigits(s);
    assert forall t :: 0 <= t < i ==> IsDigit(s[..i][t]);
    assert forall t :: 0 <= t < m ==> IsDigit(s[..m][t]);
  }

  /** A white-space run starting at `i` is no longer than the leading white-space run of `s[i..]`. */
  lemma SpaceRunBound(s: string, i: nat, j: nat)
    requires i <= j <= |s| && AllSpace(s[i..j])
    ensures j - i <= LeadingSpaces(s[i..])
  {
    var n := LeadingSpaces(s[i..]);
    assert forall t :: i <= t < j ==> IsSpace(s[t]);
    assert i + n < |s| ==> !IsSpace(s[i..][n]);
  }

  /** On a trimmed payload the description is what follows the whole white-space run. */
  lemma UpdateOnTrimmedPayload(p: string)
    ensures ParseUpdate(p).Some? ==> p != [] && (!IsSpace(p[|p| - 1]) ==> !IsSpace(ParseUpdate(p).value.1[0]))
  {
    var i0 := LeadingDigits(p);
    var n := LeadingSpaces(p[i0..]);
    if 0 < n {
      assert p[i0..][..n][n - 1] == p[i0 + n - 1];
    }
  }

  /** The digit run at the start of a digit string followed by a non-digit is the whole digit string. */
  lemma {:induction false} LeadingDigitsOfDigits(s: string, rest: string)
    requires AllDigits(s)
    requires rest != [] && !IsDigit(rest[0])
    ensures LeadingDigits(s + rest) == |s|
  {
    if s != [] {
      assert (s + rest)[1..] == s[1..] + rest;
      LeadingDigitsOfDigits(s[1..], rest);
    }
  }

  /** An id written in decimal, one space and a description is read back as that id and description. */
  lemma UpdateRoundTrip(id: nat, description: string)
    requires description != [] && !IsSpace(description[0]) && NoLineTerminator(description)
    ensures ParseUpdate(DecimalString(id) + " " + description) == Some((id, description))
  {
    var s := DecimalString(id);
    var rest := " " + description;
    var p := s + " " + description;
    assert p == s + rest;
    LeadingDigitsOfDigits(s, rest);
    assert p[..|s|] == s;
    assert p[|s|..] == rest;
    assert rest[1..] == description;
    assert LeadingSpaces(rest) == 1;
    assert p[|s| + 1..] == description;
    DecimalRoundTrip(id);
  }
}
