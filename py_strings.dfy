/** The small part of Python's `str` behaviour the crawler relies on:
    `strip()`, `replace(old, new)`, `isdigit()` and `int(...)`, over ASCII digits. */
module PyStrings {

  /** Characters Python's `str.isspace()` accepts, which `str.strip()` removes. */
  predicate IsSpace(c: char) {
    ('\t' <= c <= '\r') || ('\U{1c}' <= c <= '\U{1f}') || c == ' '
    || c == '\U{85}' || c == '\U{a0}' || c == '\U{1680}'
    || ('\U{2000}' <= c <= '\U{200a}')
    || c == '\U{2028}' || c == '\U{2029}' || c == '\U{202f}' || c == '\U{205f}' || c == '\U{3000}'
  }

  /** `s.lstrip()`. */
  function TrimLeft(s: string): string {
    if s != [] && IsSpace(s[0]) then TrimLeft(s[1..]) else s
  }

  /** `s.rstrip()`. */
  function TrimRight(s: string): string {
    if s != [] && IsSpace(s[|s| - 1]) then TrimRight(s[..|s| - 1]) else s
  }

  /** `s.strip()`. */
  function Strip(s: string): string {
    TrimRight(TrimLeft(s))
  }

  /** `lstrip()` drops exactly the leading whitespace: what is left is a suffix that does
      not start with whitespace, and everything dropped is whitespace. */
  lemma {:induction false} TrimLeftSpec(s: string)
    ensures |TrimLeft(s)| <= |s| && TrimLeft(s) == s[|s| - |TrimLeft(s)|..]
    ensures TrimLeft(s) != [] ==> !IsSpace(TrimLeft(s)[0])
    ensures forall i :: 0 <= i < |s| - |TrimLeft(s)| ==> IsSpace(s[i])
    decreases |s|
  {
    if s != [] && IsSpace(s[0]) {
      TrimLeftSpec(s[1..]);
    }
  }

  /** `rstrip()` drops exactly the trailing whitespace. */
  lemma {:induction false} TrimRightSpec(s: string)
    ensures |TrimRight(s)| <= |s| && TrimRight(s) == s[..|TrimRight(s)|]
    ensures TrimRight(s) != [] ==> !IsSpace(TrimRight(s)[|TrimRight(s)| - 1])
    ensures forall i :: |TrimRight(s)| <= i < |s| ==> IsSpace(s[i])
    decreases |s|
  {
    if s != [] && IsSpace(s[|s| - 1]) {
      TrimRightSpec(s[..|s| - 1]);
    }
  }

  /** `strip()` gives a piece of `s`, no longer than `s`, with no whitespace at either
      end; it is empty exactly when `s` is all whitespace. */
  lemma StripSpec(s: string)
    ensures |Strip(s)| <= |s|
    ensures Strip(s) != [] ==> !IsSpace(Strip(s)[0]) && !IsSpace(Strip(s)[|Strip(s)| - 1])
    ensures forall c :: c in Strip(s) ==> c in s
    ensures Strip(s) == [] <==> forall i :: 0 <= i < |s| ==> IsSpace(s[i])
  {
    var l := TrimLeft(s);
    TrimLeftSpec(s);
    TrimRightSpec(l);
    var r := TrimRight(l);
    assert forall c :: c in r ==> c in l;
    assert forall c :: c in l ==> c in s;
    if r != [] {
      assert r[0] == l[0];
    }
  }

  /** A string with no whitespace at either end is its own strip. */
  lemma StripTrimmed(s: string)
    requires s == [] || (!IsSpace(s[0]) && !IsSpace(s[|s| - 1]))
    ensures Strip(s) == s
  {
  }

  /** `strip()` is idempotent. */
  lemma StripIdempotent(s: string)
    ensures Strip(Strip(s)) == Strip(s)
  {
    StripSpec(s);
    StripTrimmed(Strip(s));
  }

  /** `s.replace(pat, rep)`: every non-overlapping occurrence of `pat`, scanning left to
      right, is replaced by `rep`. */
  function ReplaceAll(s: string, pat: string, rep: string): string
    requires pat != []
    decreases |s|
  {
    if |s| < |pat| then s
    else if s[..|pat|] == pat then rep + ReplaceAll(s[|pat|..], pat, rep)
    else [s[0]] + ReplaceAll(s[1..], pat, rep)
  }

  /** Replacing one character by another keeps every position and changes exactly the
      occurrences of that character. */
  lemma {:induction false} ReplaceCharAt(s: string, c: char, d: char)
    ensures |ReplaceAll(s, [c], [d])| == |s|
    ensures forall i :: 0 <= i < |s| ==> ReplaceAll(s, [c], [d])[i] == if s[i] == c then d else s[i]
    decreases |s|
  {
    if s != [] {
      ReplaceCharAt(s[1..], c, d);
      assert s[..1] == [s[0]];
    }
  }

  /** Every character of the result comes from the input or from the replacement. */
  lemma {:induction false} ReplaceAllChars(s: string, pat: string, rep: string)
    requires pat != []
    ensures forall x :: x in ReplaceAll(s, pat, rep) ==> x in s || x in rep
    decreases |s|
  {
    if |s| >= |pat| {
      if s[..|pat|] == pat {
        ReplaceAllChars(s[|pat|..], pat, rep);
        assert forall x :: x in s[|pat|..] ==> x in s;
      } else {
        ReplaceAllChars(s[1..], pat, rep);
        assert forall x :: x in s[1..] ==> x in s;
      }
    }
  }

  /** A replacement no longer than the pattern never lengthens the string. */
  lemma {:induction false} ReplaceAllShrinks(s: string, pat: string, rep: string)
    requires pat != [] && |rep| <= |pat|
    ensures |ReplaceAll(s, pat, rep)| <= |s|
    decreases |s|
  {
    if |s| >= |pat| {
      if s[..|pat|] == pat {
        ReplaceAllShrinks(s[|pat|..], pat, rep);
      } else {
        ReplaceAllShrinks(s[1..], pat, rep);
      }
    }
  }

  /** `k` spaces. */
  function Spaces(k: nat): (r: string)
    ensures |r| == k
  {
    if k == 0 then [] else " " + Spaces(k - 1)
  }

  /** Two leading spaces become one, and the scan resumes after them. */
  lemma PairOfSpaces(k: nat, t: string)
    requires k >= 2
    ensures ReplaceAll(Spaces(k) + t, "  ", " ") == " " + ReplaceAll(Spaces(k - 2) + t, "  ", " ")
  {
    var rest := Spaces(k - 2) + t;
    assert Spaces(k) + t == "  " + rest;
    assert ("  " + rest)[..2] == "  ";
    assert ("  " + rest)[2..] == rest;
  }

  /** A single space before a non-space is kept as it is. */
  lemma LoneSpace(t: string)
    requires t == [] || t[0] != ' '
    ensures ReplaceAll(Spaces(1) + t, "  ", " ") == " " + ReplaceAll(t, "  ", " ")
  {
    var s := Spaces(1) + t;
    if t != [] {
      assert s[..2] == [' ', t[0]];
    }
    assert s[1..] == t;
  }

  /** Two more spaces in front of a run add one space to its halved form. */
  lemma HalveSpaceRunStep(k: nat, t: string)
    requires k >= 2
    requires ReplaceAll(Spaces(k - 2) + t, "  ", " ") == Spaces((k - 1) / 2) + ReplaceAll(t, "  ", " ")
    ensures ReplaceAll(Spaces(k) + t, "  ", " ") == Spaces((k + 1) / 2) + ReplaceAll(t, "  ", " ")
  {
    PairOfSpaces(k, t);
    assert (k + 1) / 2 == (k - 1) / 2 + 1;
  }

  /** One left-to-right pass of `replace("  ", " ")` turns a run of `k` spaces into
      ceil(k/2) spaces: it halves runs rather than collapsing them. */
  lemma {:induction false} HalveSpaceRun(k: nat, t: string)
    requires t == [] || t[0] != ' '
    ensures ReplaceAll(Spaces(k) + t, "  ", " ") == Spaces((k + 1) / 2) + ReplaceAll(t, "  ", " ")
    decreases k
  {
    if k == 0 {
      assert Spaces(k) + t == t;
    } else if k == 1 {
      LoneSpace(t);
    } else {
      HalveSpaceRun(k - 2, t);
      HalveSpaceRunStep(k, t);
    }
  }

  /** A character other than a space passes through the space pass untouched. */
  lemma NonSpaceThrough(c: char, t: string)
    requires c != ' '
    ensures ReplaceAll([c] + t, "  ", " ") == [c] + ReplaceAll(t, "  ", " ")
  {
    var s := [c] + t;
    assert s[1..] == t;
    if |s| >= 2 {
      assert s[..2] != "  " by { assert s[0] == c; }
    }
  }

  /** Every `"` written twice, every other character kept: what `replace('"', '""')`
      produces. */
  function Doubled(s: string): string
    decreases |s|
  {
    if s == [] then []
    else (if s[0] == '"' then "\"\"" else [s[0]]) + Doubled(s[1..])
  }

  /** `replace('"', '""')` doubles each quote and keeps every other character. */
  lemma {:induction false} ReplaceQuotesDoubles(s: string)
    ensures ReplaceAll(s, "\"", "\"\"") == Doubled(s)
    decreases |s|
  {
    if s != [] {
      assert s[..1] == [s[0]];
      ReplaceQuotesDoubles(s[1..]);
    }
  }

  /** Reverses `replace('"', '""')`: every doubled quote becomes one. */
  function Undouble(t: string): string
    decreases |t|
  {
    if |t| >= 2 && t[0] == '"' && t[1] == '"' then "\"" + Undouble(t[2..])
    else if t == [] then []
    else [t[0]] + Undouble(t[1..])
  }

  /** Doubling every quote can be undone. */
  lemma {:induction false} UndoubleDoubled(s: string)
    ensures Undouble(ReplaceAll(s, "\"", "\"\"")) == s
    decreases |s|
  {
    if s != [] {
      var t := ReplaceAll(s, "\"", "\"\"");
      assert s[..1] == [s[0]];
      UndoubleDoubled(s[1..]);
      if s[0] == '"' {
        assert t == "\"\"" + ReplaceAll(s[1..], "\"", "\"\"");
        assert t[2..] == ReplaceAll(s[1..], "\"", "\"\"");
      } else {
        assert t == [s[0]] + ReplaceAll(s[1..], "\"", "\"\"");
        assert t[1..] == ReplaceAll(s[1..], "\"", "\"\"");
      }
    }
  }

  predicate IsDigit(c: char) {
    '0' <= c <= '9'
  }

  /** `s.isdigit()` over ASCII: non-empty and only decimal digits. */
  predicate IsDigits(s: string) {
    s != [] && forall i :: 0 <= i < |s| ==> IsDigit(s[i])
  }

  /** `int(s)` for a string of ASCII digits (leading zeros allowed). */
  function DecimalValue(s: string): nat
    requires forall i :: 0 <= i < |s| ==> IsDigit(s[i])
  {
    if s == [] then 0
    else assert IsDigit(s[|s| - 1]); DecimalValue(s[..|s| - 1]) * 10 + (s[|s| - 1] as int - '0' as int)
  }

  /** The decimal rendering of `n`, without leading zeros. */
  function DecimalString(n: nat): (r: string)
    ensures IsDigits(r)
  {
    var d := ['0' + ((n % 10) as char)];
    if n < 10 then d else DecimalString(n / 10) + d
  }

  /** Reading back a rendered number gives the number. */
  lemma {:induction false} DecimalRoundTrip(n: nat)
    ensures DecimalValue(DecimalString(n)) == n
  {
    var r := DecimalString(n);
    if n >= 10 {
      DecimalRoundTrip(n / 10);
      assert r[..|r| - 1] == DecimalString(n / 10);
    }
  }
}
