/** The parts of Python's str and int behaviour that the game engines rely on:
    str.isspace, str.strip, str.split(), str.splitlines(), int(token), str(n),
    str.zfill and sep.join.  Digits are the ASCII digits '0'..'9' only. */
module Text {
  import opened Optional

  /** Python's str.isspace() on one character. */
  predicate IsSpace(c: char) {
    || ('\t' <= c <= '\r')               // \t \n \v \f \r
    || ('\U{1C}' <= c <= '\U{1F}')
    || c == ' ' || c == '\U{85}' || c == '\U{A0}' || c == '\U{1680}'
    || ('\U{2000}' <= c <= '\U{200A}')
    || c == '\U{2028}' || c == '\U{2029}' || c == '\U{202F}' || c == '\U{205F}' || c == '\U{3000}'
  }

  /** The characters at which Python's str.splitlines() ends a line ("\r\n" counts once). */
  predicate IsLineBreak(c: char) {
    || ('\n' <= c <= '\r')               // \n \v \f \r
    || ('\U{1C}' <= c <= '\U{1E}')
    || c == '\U{85}' || c == '\U{2028}' || c == '\U{2029}'
  }

  // ---------------------------------------------------------------- strip

  /** Number of whitespace characters at the front of s. */
  function LeadingSpaces(s: string): (k: nat)
    ensures k <= |s|
    ensures forall i :: 0 <= i < k ==> IsSpace(s[i])
    ensures k < |s| ==> !IsSpace(s[k])
  {
    if s != [] && IsSpace(s[0]) then 1 + LeadingSpaces(s[1..]) else 0
  }

  /** Number of whitespace characters at the end of s. */
  function TrailingSpaces(s: string): (k: nat)
    ensures k <= |s|
    ensures forall i :: |s| - k <= i < |s| ==> IsSpace(s[i])
    ensures k < |s| ==> !IsSpace(s[|s| - k - 1])
  {
    if s != [] && IsSpace(s[|s| - 1]) then 1 + TrailingSpaces(s[..|s| - 1]) else 0
  }

  /** Python's s.lstrip(). */
  function StripStart(s: string): string {
    s[LeadingSpaces(s)..]
  }

  /** Python's s.rstrip(). */
  function StripEnd(s: string): string {
    s[..|s| - TrailingSpaces(s)]
  }

  /** Python's s.strip(): the result is empty exactly when s is blank, and
      otherwise starts and ends with a non-space character. */
  function Strip(s: string): (r: string)
    ensures |r| <= |s|
    ensures r == [] <==> forall i :: 0 <= i < |s| ==> IsSpace(s[i])
    ensures r != [] ==> !IsSpace(r[0]) && !IsSpace(r[|r| - 1])
  {
    StripStartFacts(s);
    StripEndFacts(StripStart(s));
    StripEnd(StripStart(s))
  }

  /** s.strip() is s with its leading and trailing whitespace cut off. */
  lemma StripIsTrim(s: string)
    ensures exists i, j :: 0 <= i <= j <= |s| && Strip(s) == s[i..j] && (forall k :: 0 <= k < i ==> IsSpace(s[k])) && (forall k :: j <= k < |s| ==> IsSpace(s[k]))
  {
    var i := LeadingSpaces(s);
    var t := s[i..];
    var j := i + (|t| - TrailingSpaces(t));
    assert Strip(s) == s[i..j];
    forall k | j <= k < |s| ensures IsSpace(s[k]) {
      assert s[k] == t[k - i];
    }
  }

  lemma StripStartFacts(s: string)
    ensures var t := StripStart(s);
      && |t| <= |s|
      && (t == [] <==> forall i :: 0 <= i < |s| ==> IsSpace(s[i]))
      && (t != [] ==> !IsSpace(t[0]))
  {
  }

  lemma StripEndFacts(s: string)
    ensures var t := StripEnd(s);
      && |t| <= |s|
      && (t == [] <==> forall i :: 0 <= i < |s| ==> IsSpace(s[i]))
      && (t != [] ==> t[0] == s[0] && !IsSpace(t[|t| - 1]))
  {
  }

  // ---------------------------------------------------------------- split

  /** A token of str.split(): non-empty, no whitespace in it. */
  predicate IsWord(w: string) {
    w != [] && forall i :: 0 <= i < |w| ==> !IsSpace(w[i])
  }

  /** Length of the run of non-space characters at the front of s. */
  function WordLength(s: string): (k: nat)
    ensures k <= |s|
    ensures forall i :: 0 <= i < k ==> !IsSpace(s[i])
    ensures k < |s| ==> IsSpace(s[k])
  {
    if s == [] || IsSpace(s[0]) then 0 else 1 + WordLength(s[1..])
  }

  /** Python's s.split() with no argument: the maximal runs of non-space characters, in order. */
  function Split(s: string): (words: seq<string>)
    ensures forall i :: 0 <= i < |words| ==> IsWord(words[i])
    decreases |s|
  {
    var t := StripStart(s);
    if t == [] then []
    else
      var k := WordLength(t);
      [t[..k]] + Split(t[k..])
  }

  /** Python's sep.join(parts). */
  function Join(parts: seq<string>, sep: string): (r: string)
  {
    if parts == [] then []
    else if |parts| == 1 then parts[0]
    else parts[0] + sep + Join(parts[1..], sep)
  }

  /** Splitting the words joined by single blanks gives the words back. */
  lemma {:induction false} SplitJoin(words: seq<string>)
    requires forall i :: 0 <= i < |words| ==> IsWord(words[i])
    ensures Split(Join(words, " ")) == words
  {
    if |words| == 1 {
      SplitOneWord(words[0]);
      assert [words[0]] == words;
    } else if words != [] {
      SplitJoin(words[1..]);
      SplitJoinCons(words[0], words[1..]);
      assert [words[0]] + words[1..] == words;
    }
  }

  lemma SplitOneWord(w: string)
    requires IsWord(w)
    ensures Split(w) == [w]
  {
    SplitWordThen(w, "");
    assert w + "" == w;
  }

  /** One more word in front of a non-empty joined list. */
  lemma SplitJoinCons(w: string, rest: seq<string>)
    requires IsWord(w) && rest != []
    requires Split(Join(rest, " ")) == rest
    ensures Split(Join([w] + rest, " ")) == [w] + rest
  {
    var tail := Join(rest, " ");
    var words := [w] + rest;
    assert words[0] == w && words[1..] == rest;
    assert Join(words, " ") == w + (" " + tail);
    SplitLeadingSpace(tail);
    SplitWordThen(w, " " + tail);
  }

  lemma SplitLeadingSpace(x: string)
    ensures Split(" " + x) == Split(x)
  {
    assert (" " + x)[1..] == x;
    assert StripStart(" " + x) == StripStart(x);
  }

  /** A word followed by nothing or by whitespace is the first token. */
  lemma SplitWordThen(w: string, tail: string)
    requires IsWord(w)
    requires tail == [] || IsSpace(tail[0])
    ensures Split(w + tail) == [w] + Split(tail)
  {
    var s := w + tail;
    assert s[0] == w[0];
    assert StripStart(s) == s;
    WordLengthOfWord(w, tail);
    assert s[..|w|] == w && s[|w|..] == tail;
  }

  lemma {:induction false} WordLengthOfWord(w: string, tail: string)
    requires IsWord(w)
    requires tail == [] || IsSpace(tail[0])
    ensures WordLength(w + tail) == |w|
  {
    if |w| > 1 {
      assert (w + tail)[1..] == w[1..] + tail;
      WordLengthOfWord(w[1..], tail);
    } else {
      assert (w + tail)[1..] == tail;
    }
  }

  // ---------------------------------------------------------------- splitlines

  /** Length of the text before the first line break of s. */
  function LineLength(s: string): (k: nat)
    ensures k <= |s|
    ensures forall i :: 0 <= i < k ==> !IsLineBreak(s[i])
    ensures k < |s| ==> IsLineBreak(s[k])
  {
    if s == [] || IsLineBreak(s[0]) then 0 else 1 + LineLength(s[1..])
  }

  /** Python's s.splitlines(): the lines without their terminators; a final
      terminator does not start an empty last line. */
  function SplitLines(s: string): (lines: seq<string>)
    ensures forall j, i :: 0 <= j < |lines| && 0 <= i < |lines[j]| ==> !IsLineBreak(lines[j][i])
    decreases |s|
  {
    if s == [] then []
    else
      var k := LineLength(s);
      if k == |s| then [s]
      else if s[k] == '\r' && k + 1 < |s| && s[k + 1] == '\n' then [s[..k]] + SplitLines(s[k + 2..])
      else [s[..k]] + SplitLines(s[k + 1..])
  }

  /** Lines joined with "\n" split back into the same lines. */
  lemma {:induction false} SplitLinesJoin(lines: seq<string>)
    requires forall j, i :: 0 <= j < |lines| && 0 <= i < |lines[j]| ==> !IsLineBreak(lines[j][i])
    requires lines != [] ==> lines[|lines| - 1] != []
    ensures SplitLines(Join(lines, "\n")) == lines
  {
    if lines == [] {
    } else {
      var l := lines[0];
      var s := Join(lines, "\n");
      if |lines| == 1 {
        assert LineLength(s) == |s| by { LineLengthOfLine(l, ""); }
      } else {
        var rest := Join(lines[1..], "\n");
        assert s == l + ("\n" + rest);
        LineLengthOfLine(l, "\n" + rest);
        assert s[..|l|] == l;
        assert s[|l| + 1..] == rest;
        SplitLinesJoin(lines[1..]);
      }
    }
  }

  lemma {:induction false} LineLengthOfLine(l: string, tail: string)
    requires forall i :: 0 <= i < |l| ==> !IsLineBreak(l[i])
    requires tail == [] || IsLineBreak(tail[0])
    ensures LineLength(l + tail) == |l|
  {
    if l == [] {
    } else {
      assert (l + tail)[1..] == l[1..] + tail;
      LineLengthOfLine(l[1..], tail);
    }
  }

  // ---------------------------------------------------------------- decimal numbers

  predicate IsDigit(c: char) {
    '0' <= c <= '9'
  }

  predicate AllDigits(s: string) {
    forall i :: 0 <= i < |s| ==> IsDigit(s[i])
  }

  /** Python's s.isdigit() restricted to ASCII: non-empty and all digits. */
  predicate IsDigits(s: string) {
    s != [] && AllDigits(s)
  }

  function DigitValue(c: char): (d: nat)
    requires IsDigit(c)
    ensures d < 10
  {
    c as int - '0' as int
  }

  function Digit(d: nat): (c: char)
    requires d < 10
    ensures IsDigit(c) && DigitValue(c) == d
  {
    ('0' as int + d) as char
  }

  /** The value of a string of decimal digits, leading zeros allowed. */
  function DigitsValue(s: string): nat
    requires AllDigits(s)
  {
    if s == [] then 0 else DigitsValue(s[..|s| - 1]) * 10 + DigitValue(s[|s| - 1])
  }

  function Pow10(k: nat): (p: nat)
    ensures p >= 1
  {
    if k == 0 then 1 else 10 * Pow10(k - 1)
  }

  function Zeros(k: nat): (z: string)
    ensures |z| == k && AllDigits(z)
  {
    seq(k, _ => '0')
  }

  /** Python's str(n) for n >= 0: the digits of n, without leading zeros. */
  function NatToString(n: nat): (r: string)
    ensures IsDigits(r) && DigitsValue(r) == n
    ensures n > 0 ==> r[0] != '0'
  {
    var r := (if n < 10 then [] else NatToString(n / 10)) + [Digit(n % 10)];
    assert r[..|r| - 1] == (if n < 10 then [] else NatToString(n / 10));
    r
  }

  /** Python's str(n). */
  function IntToString(n: int): (r: string)
  {
    if n < 0 then "-" + NatToString(-n) else NatToString(n)
  }

  /** Python's int(token) on a token with no surrounding whitespace: an optional
      sign followed by one or more ASCII digits; anything else raises ValueError (None). */
  function ParseInt(s: string): (r: Option<int>)
    ensures r.Some? ==> |s| > 0
  {
    if |s| > 0 && (s[0] == '-' || s[0] == '+') then
      if IsDigits(s[1..]) then
        var v: int := DigitsValue(s[1..]);
        Some(if s[0] == '-' then -v else v)
      else None
    else if IsDigits(s) then Some(DigitsValue(s))
    else None
  }

  /** Python's s.zfill(width). */
  function ZFill(s: string, width: int): (r: string)
    ensures |r| == if |s| >= width then |s| else width
  {
    if |s| >= width then s
    else if s != [] && (s[0] == '+' || s[0] == '-') then [s[0]] + Zeros(width - |s|) + s[1..]
    else Zeros(width - |s|) + s
  }

  // ---------------------------------------------------------------- decimal lemmas

  /** int(str(n)) == n. */
  lemma ParseIntToString(n: int)
    ensures ParseInt(IntToString(n)) == Some(n)
  {
    if n < 0 {
      assert IntToString(n)[1..] == NatToString(-n);
    }
  }

  lemma {:induction false} ZerosValue(k: nat)
    ensures DigitsValue(Zeros(k)) == 0
  {
    if k > 0 {
      assert Zeros(k)[..k - 1] == Zeros(k - 1);
      ZerosValue(k - 1);
    }
  }

  /** Leading zeros do not change the value of a digit string. */
  lemma {:induction false} LeadingZerosValue(k: nat, t: string)
    requires AllDigits(t)
    ensures AllDigits(Zeros(k) + t)
    ensures DigitsValue(Zeros(k) + t) == DigitsValue(t)
  {
    if t == [] {
      assert Zeros(k) + t == Zeros(k);
      ZerosValue(k);
    } else {
      var u := Zeros(k) + t;
      assert u[..|u| - 1] == Zeros(k) + t[..|t| - 1];
      LeadingZerosValue(k, t[..|t| - 1]);
    }
  }

  /** Zero-padding a decimal numeral keeps its value: int(str(n).zfill(w)) == n. */
  lemma ZFillValue(n: int, width: int)
    ensures ParseInt(ZFill(IntToString(n), width)) == Some(n)
  {
    var s := IntToString(n);
    if |s| >= width {
      ParseIntToString(n);
      assert ZFill(s, width) == s;
    } else if n < 0 {
      assert s == "-" + NatToString(-n);
      ZFillNegative(-n, width);
    } else {
      assert s == NatToString(n);
      ZFillNonNegative(n, width);
    }
  }

  /** zfill puts the zeros after the minus sign of a negative numeral. */
  lemma ZFillNegative(m: nat, width: int)
    requires m > 0 && 1 + |NatToString(m)| < width
    ensures ParseInt(ZFill("-" + NatToString(m), width)) == Some(-(m as int))
  {
    var d := NatToString(m);
    var s := "-" + d;
    var k := width - |s|;
    assert s[0] == '-' && s[1..] == d;
    LeadingZerosValue(k, d);
    var z := ZFill(s, width);
    assert z == "-" + (Zeros(k) + d);
    assert z[1..] == Zeros(k) + d;
  }

  /** zfill puts the zeros in front of a non-negative numeral. */
  lemma ZFillNonNegative(n: nat, width: int)
    requires |NatToString(n)| < width
    ensures ParseInt(ZFill(NatToString(n), width)) == Some(n)
  {
    var s := NatToString(n);
    var k := width - |s|;
    var z := Zeros(k) + s;
    assert ZFill(s, width) == z by {
      assert IsDigit(s[0]);
    }
    LeadingZerosValue(k, s);
    assert z[0] == '0' && IsDigits(z);
    assert ParseInt(z) == Some(DigitsValue(z));
  }

  /** A digit string is worth 0 exactly when it is all zeros. */
  lemma {:induction false} DigitsValueZero(s: string)
    requires AllDigits(s)
    ensures DigitsValue(s) == 0 <==> forall i :: 0 <= i < |s| ==> s[i] == '0'
  {
    if s != [] {
      DigitsValueZero(s[..|s| - 1]);
    }
  }

  /** The numeral of n has at most k digits exactly when n < 10^k. */
  lemma {:induction false} NatToStringLength(n: nat, k: nat)
    requires k >= 1
    ensures |NatToString(n)| <= k <==> n < Pow10(k)
  {
    if n >= 10 {
      if k == 1 {
        assert |NatToString(n)| >= 2;
      } else {
        NatToStringLength(n / 10, k - 1);
        assert |NatToString(n)| == |NatToString(n / 10)| + 1;
        assert n / 10 < Pow10(k - 1) <==> n < Pow10(k);
      }
    }
  }

  // ---------------------------------------------------------------- joined text

  /** Text that neither starts nor ends with whitespace is its own strip. */
  lemma StripTrimmed(s: string)
    requires s != [] ==> !IsSpace(s[0]) && !IsSpace(s[|s| - 1])
    ensures Strip(s) == s
  {
    if s != [] {
      assert LeadingSpaces(s) == 0;
      assert StripStart(s) == s;
      assert TrailingSpaces(s) == 0;
    }
  }

  /** A text starting with neither a sign nor a digit is not an integer. */
  lemma ParseIntRejects(w: string)
    requires w != [] && w[0] != '-' && w[0] != '+' && !IsDigit(w[0])
    ensures ParseInt(w).None?
  {
  }

  /** Stripping a text that starts with a non-space keeps its first character. */
  lemma StripKeepsFirst(s: string)
    requires s != [] && !IsSpace(s[0])
    ensures Strip(s) != [] && Strip(s)[0] == s[0]
  {
    assert LeadingSpaces(s) == 0;
    assert StripStart(s) == s;
  }

  /** str(n) is one word: digits, perhaps after a minus sign. */
  lemma IntToStringWord(n: int)
    ensures IsWord(IntToString(n))
    ensures forall i :: 0 <= i < |IntToString(n)| ==> !IsLineBreak(IntToString(n)[i])
  {
    var d := NatToString(if n < 0 then -n else n);
    DigitsPlain(d);
    if n < 0 {
      var s := IntToString(n);
      assert s == "-" + d;
      forall i | 0 <= i < |s|
        ensures !IsSpace(s[i]) && !IsLineBreak(s[i])
      {
        if i > 0 {
          assert s[i] == d[i - 1];
        }
      }
    }
  }

  lemma DigitsPlain(d: string)
    requires AllDigits(d)
    ensures forall i :: 0 <= i < |d| ==> !IsSpace(d[i]) && !IsLineBreak(d[i])
  {
    forall i | 0 <= i < |d|
      ensures !IsSpace(d[i]) && !IsLineBreak(d[i])
    {
      assert IsDigit(d[i]);
    }
  }

  /** Joining adds no line break that the parts and the separator do not have. */
  lemma {:induction false} JoinNoLineBreak(parts: seq<string>, sep: string)
    requires forall j, i :: 0 <= j < |parts| && 0 <= i < |parts[j]| ==> !IsLineBreak(parts[j][i])
    requires forall i :: 0 <= i < |sep| ==> !IsLineBreak(sep[i])
    ensures forall i :: 0 <= i < |Join(parts, sep)| ==> !IsLineBreak(Join(parts, sep)[i])
  {
    if |parts| > 1 {
      JoinNoLineBreak(parts[1..], sep);
      var p0, rest := parts[0], Join(parts[1..], sep);
      assert Join(parts, sep) == p0 + sep + rest;
      forall i | 0 <= i < |Join(parts, sep)| ensures !IsLineBreak(Join(parts, sep)[i]) {
        if i < |p0| {
          assert Join(parts, sep)[i] == parts[0][i];
        } else if i < |p0| + |sep| {
          assert Join(parts, sep)[i] == sep[i - |p0|];
        } else {
          assert Join(parts, sep)[i] == rest[i - |p0| - |sep|];
        }
      }
    }
  }

  /** Joined non-empty parts start with the first part's first character and
      end with the last part's last character. */
  lemma {:induction false} JoinEnds(parts: seq<string>, sep: string)
    requires parts != [] && forall j :: 0 <= j < |parts| ==> parts[j] != []
    ensures var r := Join(parts, sep); var last := parts[|parts| - 1];
      |r| > 0 && r[0] == parts[0][0] && r[|r| - 1] == last[|last| - 1]
  {
    if |parts| > 1 {
      JoinEnds(parts[1..], sep);
      assert Join(parts, sep) == parts[0] + sep + Join(parts[1..], sep);
    }
  }
}
