/** Option, and the handful of PHP string built-ins the scraper relies on, stated
    over Dafny strings: trim/rtrim, explode (with and without a limit of 2),
    strtok, preg_replace with the class [^a-zA-Z0-9 ], empty() on a string, and
    the decimal rendering of an int inside a double-quoted string. */
module Text {

  datatype Option<+T> = None | Some(value: T) {
    function GetOr(default: T): T {
      if Some? then value else default
    }
  }

  /** The characters trim() and rtrim() strip by default: " \t\n\r\0\x0B". */
  predicate IsTrimChar(c: char) {
    c == ' ' || c == '\t' || c == '\n' || c == '\r' || c == '\0' || c == '\U{0B}'
  }

  /** The index of the first character at or after i that is not a trim character. */
  function FirstKept(s: string, i: nat): (k: nat)
    requires i <= |s|
    ensures i <= k <= |s|
    ensures forall j :: i <= j < k ==> IsTrimChar(s[j])
    ensures k < |s| ==> !IsTrimChar(s[k])
    decreases |s| - i
  {
    if i < |s| && IsTrimChar(s[i]) then FirstKept(s, i + 1) else i
  }

  /** ltrim(s): drops the longest prefix made of trim characters. */
  function TrimLeft(s: string): string {
    s[FirstKept(s, 0)..]
  }

  /** rtrim(s): drops the longest suffix made of trim characters. */
  function TrimRight(s: string): (r: string)
    ensures |r| <= |s| && r == s[..|r|]
    ensures forall i :: |r| <= i < |s| ==> IsTrimChar(s[i])
    ensures r != [] ==> !IsTrimChar(r[|r| - 1])
  {
    if s != [] && IsTrimChar(s[|s| - 1]) then TrimRight(s[..|s| - 1]) else s
  }

  /** trim(s). */
  function Trim(s: string): string {
    TrimRight(TrimLeft(s))
  }

  /** trim() leaves a piece of s with no trim character at either end, and
      leaves alone a string that has none there. */
  lemma TrimEnds(s: string)
    ensures |Trim(s)| <= |s| && Trim(s) == s[|s| - |TrimLeft(s)|..][..|Trim(s)|]
    ensures Trim(s) != [] ==> !IsTrimChar(Trim(s)[0]) && !IsTrimChar(Trim(s)[|Trim(s)| - 1])
    ensures (s == [] || (!IsTrimChar(s[0]) && !IsTrimChar(s[|s| - 1]))) ==> Trim(s) == s
  {
    var l := TrimLeft(s);
    var r := TrimRight(l);
    if r != [] {
      assert r[0] == l[0];
    }
  }

  /** trim() drops padding made only of trim characters from both ends of a
      text that has none at its own ends, as in a header line ending "\r". */
  lemma TrimPadded(pre: string, s: string, post: string)
    requires forall j :: 0 <= j < |pre| ==> IsTrimChar(pre[j])
    requires forall j :: 0 <= j < |post| ==> IsTrimChar(post[j])
    requires s != [] && !IsTrimChar(s[0]) && !IsTrimChar(s[|s| - 1])
    ensures Trim(pre + s + post) == s
  {
    var t := pre + s + post;
    var k := FirstKept(t, 0);
    assert t[|pre|] == s[0];
    assert forall j :: 0 <= j < |pre| ==> t[j] == pre[j];
    assert k == |pre|;
    var l := TrimLeft(t);
    assert l == s + post;
    var r := TrimRight(l);
    assert l[|s| - 1] == s[|s| - 1];
    assert forall j :: |s| <= j < |l| ==> l[j] == post[j - |s|];
    assert r == l[..|s|] == s;
  }

  /** PHP's empty() on a string: true for "" and for "0". */
  predicate IsEmpty(s: string) {
    s == "" || s == "0"
  }

  /** The characters the pattern class [a-zA-Z0-9 ] accepts. */
  predicate IsAlnumOrSpace(c: char) {
    ('a' <= c <= 'z') || ('A' <= c <= 'Z') || ('0' <= c <= '9') || c == ' '
  }

  /** preg_replace('/[^a-zA-Z0-9 ]/', '', s): deletes every character outside the class. */
  function KeepAlnumAndSpace(s: string): (r: string)
    ensures |r| <= |s|
  {
    if s == [] then []
    else (if IsAlnumOrSpace(s[0]) then [s[0]] else []) + KeepAlnumAndSpace(s[1..])
  }

  /** Only characters of the class survive the filter. */
  lemma {:induction false} KeepAlnumAndSpaceOnlyClass(s: string)
    ensures forall i :: 0 <= i < |KeepAlnumAndSpace(s)| ==> IsAlnumOrSpace(KeepAlnumAndSpace(s)[i])
  {
    if s != [] {
      KeepAlnumAndSpaceOnlyClass(s[1..]);
    }
  }

  /** A string already inside the class passes through the filter unchanged. */
  lemma {:induction false} KeepAlnumAndSpaceOfClean(s: string)
    requires forall i :: 0 <= i < |s| ==> IsAlnumOrSpace(s[i])
    ensures KeepAlnumAndSpace(s) == s
  {
    if s != [] {
      KeepAlnumAndSpaceOfClean(s[1..]);
    }
  }

  /** The filter keeps every occurrence of an accepted character and drops
      every occurrence of any other. */
  lemma {:induction false} KeepAlnumAndSpaceCounts(s: string)
    ensures forall c :: multiset(KeepAlnumAndSpace(s))[c] == if IsAlnumOrSpace(c) then multiset(s)[c] else 0
  {
    if s != [] {
      KeepAlnumAndSpaceCounts(s[1..]);
      assert s == [s[0]] + s[1..];
    }
  }

  /** Deleting characters commutes with concatenation, so the filter works piece by piece. */
  lemma {:induction false} KeepAlnumAndSpaceConcat(a: string, b: string)
    ensures KeepAlnumAndSpace(a + b) == KeepAlnumAndSpace(a) + KeepAlnumAndSpace(b)
  {
    if a != [] {
      var head := if IsAlnumOrSpace(a[0]) then [a[0]] else [];
      assert (a + b)[0] == a[0] && (a + b)[1..] == a[1..] + b;
      KeepAlnumAndSpaceConcat(a[1..], b);
      calc {
        KeepAlnumAndSpace(a + b);
        head + KeepAlnumAndSpace(a[1..] + b);
        head + (KeepAlnumAndSpace(a[1..]) + KeepAlnumAndSpace(b));
        (head + KeepAlnumAndSpace(a[1..])) + KeepAlnumAndSpace(b);
      }
    } else {
      assert a + b == b;
    }
  }

  /** The position of the first c in s, if any. */
  function IndexOf(s: string, c: char): (r: Option<nat>)
    ensures r.None? <==> c !in s
    ensures r.Some? ==> r.value < |s| && s[r.value] == c && c !in s[..r.value]
  {
    if s == [] then None
    else if s[0] == c then Some(0)
    else match IndexOf(s[1..], c)
      case None => None
      case Some(i) =>
        assert s[..i + 1] == [s[0]] + s[1..][..i];
        Some(i + 1)
  }

  /** explode(d, s, 2): the text before the first d, and the text after it when
      there is a d (None stands for the missing second element). */
  function SplitOnce(s: string, d: char): (r: (string, Option<string>))
    ensures d !in r.0
    ensures r.1.None? <==> d !in s
    ensures r.1.None? ==> r.0 == s
    ensures r.1.Some? ==> s == r.0 + [d] + r.1.value
  {
    match IndexOf(s, d)
    case None => (s, None)
    case Some(i) =>
      assert s == s[..i] + [d] + s[i + 1..];
      (s[..i], Some(s[i + 1..]))
  }

  /** The split point is the first d: what precedes it is free of d. */
  lemma SplitOnceAt(before: string, d: char, after: string)
    requires d !in before
    ensures SplitOnce(before + [d] + after, d) == (before, Some(after))
  {
    var s := before + [d] + after;
    assert s[|before|] == d;
    assert s[..|before|] == before;
    var i := IndexOf(s, d).value;
    assert i == |before|;
    assert s[i + 1..] == after;
  }

  /** explode(d, s): the pieces between the occurrences of d; at least one piece. */
  function Split(s: string, d: char): (r: seq<string>)
    ensures |r| >= 1
    ensures forall i :: 0 <= i < |r| ==> d !in r[i]
    decreases |s|
  {
    match SplitOnce(s, d)
    case (head, None) => [head]
    case (head, Some(rest)) => [head] + Split(rest, d)
  }

  /** implode(d, parts): the inverse of Split. */
  function Join(parts: seq<string>, d: char): string
    requires |parts| >= 1
  {
    if |parts| == 1 then parts[0] else parts[0] + [d] + Join(parts[1..], d)
  }

  /** Splitting loses nothing: joining the pieces gives back the text. */
  lemma {:induction false} JoinSplit(s: string, d: char)
    ensures Join(Split(s, d), d) == s
    decreases |s|
  {
    match SplitOnce(s, d)
    case (head, None) =>
    case (head, Some(rest)) =>
      JoinSplit(rest, d);
      assert Split(s, d)[1..] == Split(rest, d);
  }

  /** And pieces free of d are recovered exactly from their join. */
  lemma {:induction false} SplitJoin(parts: seq<string>, d: char)
    requires |parts| >= 1
    requires forall i :: 0 <= i < |parts| ==> d !in parts[i]
    ensures Split(Join(parts, d), d) == parts
  {
    if |parts| > 1 {
      var rest := Join(parts[1..], d);
      SplitJoin(parts[1..], d);
      SplitOnceAt(parts[0], d, rest);
      assert parts == [parts[0]] + parts[1..];
    }
  }

  /** The text of s up to (not including) its first d. */
  function TakeUntil(s: string, d: char): (r: string)
    ensures d !in r && |r| <= |s| && r == s[..|r|]
    ensures |r| < |s| ==> s[|r|] == d
  {
    match IndexOf(s, d)
    case None => s
    case Some(i) => s[..i]
  }

  /** When s holds a d, it is the text before its first d, that d, and the rest. */
  lemma TakeUntilSplits(s: string, d: char)
    requires |TakeUntil(s, d)| < |s|
    ensures s == TakeUntil(s, d) + [d] + s[|TakeUntil(s, d)| + 1..]
  {
    var r := TakeUntil(s, d);
    assert s == s[..|r|] + [s[|r|]] + s[|r| + 1..];
  }

  /** A text with no d, followed by d, is what TakeUntil keeps. */
  lemma TakeUntilBefore(head: string, d: char, tail: string)
    requires d !in head && tail != [] && tail[0] == d
    ensures TakeUntil(head + tail, d) == head
  {
    var r := TakeUntil(head + tail, d);
    assert (head + tail)[|head|] == d;
    assert head == (head + tail)[..|head|];
  }

  /** strtok(s, d) on a first call: leading delimiters are skipped and the run up
      to the next delimiter is returned; false (None) when only delimiters remain. */
  function StrTok(s: string, d: char): (r: Option<string>)
    ensures r.None? <==> forall i :: 0 <= i < |s| ==> s[i] == d
    ensures r.Some? ==> r.value != [] && d !in r.value
  {
    if s == [] then None
    else if s[0] == d then StrTok(s[1..], d)
    else Some(TakeUntil(s, d))
  }

  /** A non-empty, delimiter-free first token is what strtok returns, whatever follows it. */
  lemma StrTokFirstToken(token: string, d: char, rest: string)
    requires token != [] && d !in token
    ensures StrTok(token, d) == Some(token)
    ensures StrTok(token + [d] + rest, d) == Some(token)
  {
    var s := token + [d] + rest;
    assert s[0] == token[0];
    assert s[|token|] == d;
    assert s[..|token|] == token;
    var i := IndexOf(s, d).value;
    assert i == |token|;
  }

  /** strtok skips the leading delimiters: the token is the text from the
      first other character up to the next delimiter. */
  lemma {:induction false} StrTokSkipsDelimiters(s: string, d: char)
    ensures StrTok(s, d).Some? ==>
      exists k :: 0 <= k < |s| && (forall j :: 0 <= j < k ==> s[j] == d) && s[k] != d && StrTok(s, d).value == TakeUntil(s[k..], d)
  {
    if s != [] && s[0] == d {
      var t := s[1..];
      assert StrTok(s, d) == StrTok(t, d);
      StrTokSkipsDelimiters(t, d);
      if StrTok(t, d).Some? {
        var k :| 0 <= k < |t| && (forall j :: 0 <= j < k ==> t[j] == d) && t[k] != d && StrTok(t, d).value == TakeUntil(t[k..], d);
        assert t[k..] == s[k + 1..];
        forall j | 0 <= j < k + 1
          ensures s[j] == d
        {
          if j > 0 {
            assert s[j] == t[j - 1];
          }
        }
        assert s[k + 1] == t[k];
        assert 0 <= k + 1 < |s| && s[k + 1] != d && StrTok(s, d).value == TakeUntil(s[k + 1..], d);
      }
    } else if s != [] {
      assert s[0..] == s;
    }
  }

  /** The leading delimiters of `;;abc;x` are skipped and the token is "abc". */
  lemma StrTokExample()
    ensures StrTok(";;abc;x", ';') == Some("abc")
  {
    var s := ";;abc;x";
    assert s[1..] == ";abc;x" && s[2..] == "abc;x";
    StrTokFirstToken("abc", ';', "x");
    assert "abc" + [';'] + "x" == "abc;x";
  }

  /** The decimal digit character for d. */
  function DigitChar(d: nat): (c: char)
    requires d < 10
    ensures '0' <= c <= '9' && c as int - '0' as int == d
  {
    ('0' as int + d) as char
  }

  predicate IsDigits(s: string) {
    forall i :: 0 <= i < |s| ==> '0' <= s[i] <= '9'
  }

  /** The number of whole tens in n: n without its last decimal digit. */
  function Tens(n: nat): (q: nat)
    ensures 10 * q <= n < 10 * q + 10
  {
    if n < 10 then 0 else 1 + Tens(n - 10)
  }

  /** The decimal rendering of n, without leading zeros. */
  function NatToDecimal(n: nat): (r: string)
    ensures r != [] && IsDigits(r)
    ensures r[0] == '0' ==> n == 0
  {
    if n < 10 then [DigitChar(n)] else NatToDecimal(Tens(n)) + [DigitChar(n - 10 * Tens(n))]
  }

  /** How PHP renders an int inside a double-quoted string. */
  function IntToDecimal(i: int): string {
    if i < 0 then "-" + NatToDecimal(-i) else NatToDecimal(i)
  }

  /** The number a string of decimal digits denotes: the partner of NatToDecimal. */
  function DecimalValue(s: string): nat
    requires IsDigits(s)
  {
    if s == [] then 0
    else DecimalValue(s[..|s| - 1]) * 10 + (s[|s| - 1] as int - '0' as int)
  }

  /** Rendering a number in decimal and reading it back gives the number. */
  lemma {:induction false} DecimalRoundTrip(n: nat)
    ensures DecimalValue(NatToDecimal(n)) == n
  {
    if n >= 10 {
      DecimalRoundTrip(Tens(n));
      var r := NatToDecimal(n);
      assert r[..|r| - 1] == NatToDecimal(Tens(n));
    }
  }
}
