/**
 * The few Python string operations the script compiler relies on:
 * str.isspace, str.strip, str.lower, str.startswith, str.split, str.find
 * and int() on a string. Strings are sequences of Unicode scalar values.
 */
module Text {
  import opened Wrappers

  /** Python's str.isspace() for a single character. */
  predicate IsSpace(c: char) {
    || ('\t' <= c <= '\r')                 // \t \n \v \f \r
    || ('\U{1c}' <= c <= '\U{1f}')         // file, group, record and unit separators
    || c == ' ' || c == '\U{85}' || c == '\U{a0}' || c == '\U{1680}'
    || ('\U{2000}' <= c <= '\U{200a}')
    || c == '\U{2028}' || c == '\U{2029}' || c == '\U{202f}' || c == '\U{205f}' || c == '\U{3000}'
  }

  predicate AllSpace(s: string) {
    forall k :: 0 <= k < |s| ==> IsSpace(s[k])
  }

  /** The first index at or after i that holds no white space, or |s|. */
  function SkipSpace(s: string, i: nat): (j: nat)
    requires i <= |s|
    ensures i <= j <= |s|
    ensures forall k :: i <= k < j ==> IsSpace(s[k])
    ensures j < |s| ==> !IsSpace(s[j])
    decreases |s| - i
  {
    if i < |s| && IsSpace(s[i]) then SkipSpace(s, i + 1) else i
  }

  /** The least index i <= j such that s[i..j] is all white space. */
  function SkipSpaceBack(s: string, j: nat): (i: nat)
    requires j <= |s|
    ensures i <= j
    ensures forall k :: i <= k < j ==> IsSpace(s[k])
    ensures 0 < i ==> !IsSpace(s[i - 1])
  {
    if 0 < j && IsSpace(s[j - 1]) then SkipSpaceBack(s, j - 1) else j
  }

  /** A string with no white space at either end. */
  predicate Trimmed(s: string) {
    s == [] || (!IsSpace(s[0]) && !IsSpace(s[|s| - 1]))
  }

  /** str.strip(): drops white space at both ends and nothing else. */
  function Strip(s: string): (r: string)
    ensures |r| <= |s|
    ensures Trimmed(r)
  {
    var i, j := SkipSpace(s, 0), SkipSpaceBack(s, |s|);
    if i < j then s[i..j] else []
  }

  /** Stripping only removes characters. */
  lemma StripKeepsOut(s: string, c: char)
    requires c !in s
    ensures c !in Strip(s)
  {
    var i, j := SkipSpace(s, 0), SkipSpaceBack(s, |s|);
    if i < j {
      forall k | 0 <= k < j - i
        ensures s[i..j][k] != c
      {
        assert s[i..j][k] == s[i + k];
      }
    }
  }

  lemma {:induction false} SkipSpaceTo(s: string, i: nat, j: nat)
    requires i <= j <= |s|
    requires forall k :: i <= k < j ==> IsSpace(s[k])
    requires j < |s| ==> !IsSpace(s[j])
    ensures SkipSpace(s, i) == j
    decreases j - i
  {
    if i < j {
      SkipSpaceTo(s, i + 1, j);
    }
  }

  lemma {:induction false} SkipSpaceBackTo(s: string, i: nat, j: nat)
    requires i <= j <= |s|
    requires forall k :: i <= k < j ==> IsSpace(s[k])
    requires 0 < i ==> !IsSpace(s[i - 1])
    ensures SkipSpaceBack(s, j) == i
    decreases j - i
  {
    if i < j {
      SkipSpaceBackTo(s, i, j - 1);
    }
  }

  /** Strip removes exactly the surrounding white space: whatever sits between it is kept whole. */
  lemma StripOf(before: string, m: string, after: string)
    requires AllSpace(before) && AllSpace(after) && Trimmed(m)
    ensures Strip(before + m + after) == m
  {
    var s := before + m + after;
    var lo, hi := |before|, |before| + |m|;
    forall k | 0 <= k < |s|
      ensures k < lo ==> s[k] == before[k]
      ensures lo <= k < hi ==> s[k] == m[k - lo]
      ensures hi <= k ==> s[k] == after[k - hi]
    {
    }
    if m == [] {
      SkipSpaceTo(s, 0, |s|);
      SkipSpaceBackTo(s, 0, |s|);
    } else {
      SkipSpaceTo(s, 0, lo);
      SkipSpaceBackTo(s, hi, |s|);
      assert s[lo..hi] == m;
    }
  }

  /** Stripping a string with no white space at its ends changes nothing. */
  lemma StripTrimmed(s: string)
    requires Trimmed(s)
    ensures Strip(s) == s
  {
    StripOf("", s, "");
    assert "" + s + "" == s;
  }

  /** Python's str.lower() restricted to ASCII letters. */
  function LowerChar(c: char): char {
    if 'A' <= c <= 'Z' then (c as int + 32) as char else c
  }

  function Lower(s: string): (r: string)
    ensures |r| == |s|
  {
    seq(|s|, k requires 0 <= k < |s| => LowerChar(s[k]))
  }

  lemma LowerDrop(s: string, i: nat)
    requires i <= |s|
    ensures Lower(s[i..]) == Lower(s)[i..]
  {
  }

  lemma LowerConcat(x: string, y: string)
    ensures Lower(x + y) == Lower(x) + Lower(y)
  {
    assert forall k :: 0 <= k < |x + y| ==> (x + y)[k] == if k < |x| then x[k] else y[k - |x|];
  }

  /** Lower-casing never turns white space into something else, nor the reverse. */
  predicate SameSpaces(x: string, y: string) {
    |x| == |y| && forall k :: 0 <= k < |x| ==> IsSpace(x[k]) == IsSpace(y[k])
  }

  lemma {:induction false} SkipSpaceSame(x: string, y: string, i: nat)
    requires SameSpaces(x, y) && i <= |x|
    ensures SkipSpace(x, i) == SkipSpace(y, i)
    decreases |x| - i
  {
    if i < |x| {
      SkipSpaceSame(x, y, i + 1);
    }
  }

  lemma {:induction false} SkipSpaceBackSame(x: string, y: string, j: nat)
    requires SameSpaces(x, y) && j <= |x|
    ensures SkipSpaceBack(x, j) == SkipSpaceBack(y, j)
  {
    if 0 < j {
      SkipSpaceBackSame(x, y, j - 1);
    }
  }

  lemma LowerSlice(s: string, i: nat, j: nat)
    requires i <= j <= |s|
    ensures Lower(s[i..j]) == Lower(s)[i..j]
  {
  }

  lemma LowerSameSpaces(x: string, y: string)
    requires Lower(x) == Lower(y)
    ensures SameSpaces(x, y)
  {
    forall k | 0 <= k < |x|
      ensures IsSpace(x[k]) == IsSpace(y[k])
    {
      assert LowerChar(x[k]) == Lower(x)[k] == Lower(y)[k] == LowerChar(y[k]);
    }
  }

  /** Strings equal up to case strip to strings equal up to case. */
  lemma StripSameCase(x: string, y: string)
    requires Lower(x) == Lower(y)
    ensures Lower(Strip(x)) == Lower(Strip(y))
  {
    LowerSameSpaces(x, y);
    SkipSpaceSame(x, y, 0);
    SkipSpaceBackSame(x, y, |x|);
    var i, j := SkipSpace(x, 0), SkipSpaceBack(x, |x|);
    if i < j {
      LowerSlice(x, i, j);
      LowerSlice(y, i, j);
    }
  }

  /** Only a letter can lower-case onto a letter; every other character is its own lower case. */
  lemma LowerFixesNonLetter(c: char, d: char)
    requires LowerChar(c) == LowerChar(d)
    requires !('A' <= d <= 'Z') && !('a' <= d <= 'z')
    ensures c == d
  {
  }

  /** str.startswith(), one character at a time. */
  predicate StartsWith(s: string, prefix: string)
    decreases |prefix|
  {
    prefix == [] || (s != [] && s[0] == prefix[0] && StartsWith(s[1..], prefix[1..]))
  }

  lemma {:induction false} StartsWithSlice(s: string, prefix: string)
    ensures StartsWith(s, prefix) <==> |prefix| <= |s| && s[..|prefix|] == prefix
    decreases |prefix|
  {
    if prefix != [] && s != [] {
      StartsWithSlice(s[1..], prefix[1..]);
      if |prefix| <= |s| {
        assert s[..|prefix|] == [s[0]] + s[1..][..|prefix| - 1];
        assert prefix == [prefix[0]] + prefix[1..];
      }
    }
  }

  /** The index of the first c in s at or after i. */
  function FindFrom(s: string, c: char, i: nat): (r: Option<nat>)
    requires i <= |s|
    ensures r.None? ==> forall k :: i <= k < |s| ==> s[k] != c
    ensures r.Some? ==> i <= r.value < |s| && s[r.value] == c
    ensures r.Some? ==> forall k :: i <= k < r.value ==> s[k] != c
    decreases |s| - i
  {
    if i == |s| then None
    else if s[i] == c then Some(i)
    else FindFrom(s, c, i + 1)
  }

  /** str.find() for one character: the index of its first occurrence. */
  function Find(s: string, c: char): (r: Option<nat>)
    ensures r.None? <==> c !in s
    ensures r.Some? ==> r.value < |s| && s[r.value] == c
    ensures r.Some? ==> forall k :: 0 <= k < r.value ==> s[k] != c
  {
    FindFrom(s, c, 0)
  }

  /** The first c in head + [c] + tail is the one after head, when head has none. */
  lemma FindFirst(head: string, c: char, tail: string)
    requires c !in head
    ensures Find(head + [c] + tail, c) == Some(|head|)
  {
    var s := head + [c] + tail;
    assert s[|head|] == c;
    forall k | 0 <= k < |head|
      ensures s[k] != c
    {
      assert s[k] == head[k];
    }
  }

  /** str.join() with a one-character separator. */
  function Join(parts: seq<string>, sep: char): string {
    if parts == [] then ""
    else if |parts| == 1 then parts[0]
    else parts[0] + [sep] + Join(parts[1..], sep)
  }

  /** str.split(sep) with a one-character separator: splitting then joining gives back the string. */
  function Split(s: string, sep: char): (parts: seq<string>)
    ensures |parts| >= 1
    ensures forall k :: 0 <= k < |parts| ==> sep !in parts[k]
    ensures Join(parts, sep) == s
    decreases |s|
  {
    match Find(s, sep)
    case None => [s]
    case Some(i) =>
      var rest := Split(s[i + 1..], sep);
      assert ([s[..i]] + rest)[1..] == rest;
      assert s == s[..i] + [sep] + s[i + 1..];
      [s[..i]] + rest
  }

  /** The other direction: pieces free of the separator come back from splitting their join. */
  lemma {:induction false} SplitJoin(parts: seq<string>, sep: char)
    requires |parts| >= 1
    requires forall k :: 0 <= k < |parts| ==> sep !in parts[k]
    ensures Split(Join(parts, sep), sep) == parts
    decreases |parts|
  {
    if |parts| > 1 {
      var tail := Join(parts[1..], sep);
      var s := parts[0] + [sep] + tail;
      FindFirst(parts[0], sep, tail);
      assert s[..|parts[0]|] == parts[0];
      assert s[|parts[0]| + 1..] == tail;
      SplitJoin(parts[1..], sep);
      assert [parts[0]] + parts[1..] == parts;
    } else {
      assert Find(parts[0], sep).None?;
    }
  }

  predicate IsDigit(c: char) {
    '0' <= c <= '9'
  }

  /** Digits with single underscores between them, as Python's int() accepts them. */
  predicate IsDigitString(s: string) {
    && |s| > 0
    && IsDigit(s[0])
    && IsDigit(s[|s| - 1])
    && (forall k :: 0 <= k < |s| ==> IsDigit(s[k]) || s[k] == '_')
    && (forall i, j :: 0 <= i < |s| && i < j < |s| && j == i + 1 ==> s[i] != '_' || s[j] != '_')
  }

  /** The base-10 value of the digits of s; underscores are skipped. */
  function DigitsValue(s: string): nat {
    if s == [] then 0
    else if IsDigit(s[|s| - 1]) then DigitsValue(s[..|s| - 1]) * 10 + (s[|s| - 1] as int - '0' as int)
    else DigitsValue(s[..|s| - 1])
  }

  /** Python's int() on an already stripped string: an optional sign, then a digit string. */
  function ParseInt(s: string): (r: Option<int>)
    ensures r.Some? ==> |s| > 0
    ensures r.Some? ==> forall k :: 0 < k < |s| ==> IsDigit(s[k]) || s[k] == '_'
    ensures r.Some? && r.value < 0 ==> s[0] == '-'
    ensures r.Some? <==> IsDigitString(s) || (|s| > 0 && (s[0] == '+' || s[0] == '-') && IsDigitString(s[1..]))
  {
    if |s| > 0 && (s[0] == '+' || s[0] == '-') then
      if IsDigitString(s[1..]) then
        Some(if s[0] == '-' then -(DigitsValue(s[1..]) as int) else DigitsValue(s[1..]))
      else None
    else if IsDigitString(s) then Some(DigitsValue(s))
    else None
  }

  /** int() reads a digit string, signed or not, as its base-10 value. */
  lemma ParseIntDigits(d: string)
    requires IsDigitString(d)
    ensures ParseInt(d) == Some(DigitsValue(d))
    ensures ParseInt("+" + d) == Some(DigitsValue(d))
    ensures ParseInt("-" + d) == Some(-(DigitsValue(d) as int))
  {
    assert ("+" + d)[1..] == d && ("-" + d)[1..] == d;
  }

  /** Digits with equal values stay equal in value when the same digits follow. */
  lemma {:induction false} DigitsValueAppend(x: string, z: string, y: string)
    requires DigitsValue(x) == DigitsValue(z)
    ensures DigitsValue(x + y) == DigitsValue(z + y)
    decreases |y|
  {
    if y == [] {
      assert x + y == x && z + y == z;
    } else {
      var init := y[..|y| - 1];
      DigitsValueAppend(x, z, init);
      assert (x + y)[..|x + y| - 1] == x + init && (x + y)[|x + y| - 1] == y[|y| - 1];
      assert (z + y)[..|z + y| - 1] == z + init && (z + y)[|z + y| - 1] == y[|y| - 1];
    }
  }

  /** A leading zero changes nothing: int("0" + d) == int(d). */
  lemma LeadingZero(d: string)
    requires IsDigitString(d)
    ensures ParseInt("0" + d) == Some(DigitsValue(d))
  {
    LeadingZeroDigits(d);
    LeadingZeroValue(d);
  }

  lemma LeadingZeroDigits(d: string)
    requires IsDigitString(d)
    ensures IsDigitString("0" + d)
  {
    var s := "0" + d;
    forall k | 0 <= k < |s|
      ensures IsDigit(s[k]) || s[k] == '_'
    {
      if k > 0 {
        assert s[k] == d[k - 1];
      }
    }
    forall i, j | 0 <= i < |s| && i < j < |s| && j == i + 1
      ensures s[i] != '_' || s[j] != '_'
    {
      if i > 0 {
        assert s[i] == d[i - 1] && s[j] == d[j - 1];
      }
    }
    assert s[|s| - 1] == d[|d| - 1];
  }

  lemma LeadingZeroValue(d: string)
    ensures DigitsValue("0" + d) == DigitsValue(d)
  {
    var zero := "0";
    assert zero[..0] == "";
    assert DigitsValue(zero) == 0 == DigitsValue("");
    DigitsValueAppend(zero, "", d);
    assert "" + d == d;
  }

  /** An underscore between digits changes nothing: int(a + "_" + b) == int(a + b). */
  lemma UnderscoreIgnored(a: string, b: string)
    requires IsDigitString(a) && IsDigitString(b)
    ensures ParseInt(a + "_" + b) == ParseInt(a + b) == Some(DigitsValue(a + b))
  {
    UnderscoreDigits(a, b);
    ConcatDigits(a, b);
    UnderscoreValue(a, b);
  }

  lemma UnderscoreDigits(a: string, b: string)
    requires IsDigitString(a) && IsDigitString(b)
    ensures IsDigitString(a + "_" + b)
  {
    var s := a + "_" + b;
    forall k | 0 <= k < |s|
      ensures IsDigit(s[k]) || s[k] == '_'
    {
      if k < |a| {
        assert s[k] == a[k];
      } else if k > |a| {
        assert s[k] == b[k - |a| - 1];
      }
    }
    forall i, j | 0 <= i < |s| && i < j < |s| && j == i + 1
      ensures s[i] != '_' || s[j] != '_'
    {
      if j < |a| {
        assert s[i] == a[i] && s[j] == a[j];
      } else if i > |a| {
        assert s[i] == b[i - |a| - 1] && s[j] == b[j - |a| - 1];
      } else if i == |a| {
        assert s[j] == b[0];
      } else {
        assert s[i] == a[|a| - 1];
      }
    }
    assert s[0] == a[0];
    assert s[|s| - 1] == b[|b| - 1];
  }

  lemma ConcatDigits(a: string, b: string)
    requires IsDigitString(a) && IsDigitString(b)
    ensures IsDigitString(a + b)
  {
    var t := a + b;
    forall k | 0 <= k < |t|
      ensures IsDigit(t[k]) || t[k] == '_'
    {
      if k < |a| {
        assert t[k] == a[k];
      } else {
        assert t[k] == b[k - |a|];
      }
    }
    forall i, j | 0 <= i < |t| && i < j < |t| && j == i + 1
      ensures t[i] != '_' || t[j] != '_'
    {
      if j < |a| {
        assert t[i] == a[i] && t[j] == a[j];
      } else if i >= |a| {
        assert t[i] == b[i - |a|] && t[j] == b[j - |a|];
      } else {
        assert t[i] == a[|a| - 1];
      }
    }
    assert t[0] == a[0];
    assert t[|t| - 1] == b[|b| - 1];
  }

  lemma UnderscoreValue(a: string, b: string)
    ensures DigitsValue(a + "_" + b) == DigitsValue(a + b)
  {
    var u := a + "_";
    assert u[..|u| - 1] == a;
    assert DigitsValue(u) == DigitsValue(a);
    DigitsValueAppend(u, a, b);
    assert u + b == a + "_" + b;
  }

  /** The other spellings int() accepts for a number: a plus sign, a leading zero. */
  lemma ParseIntSpellings(n: nat)
    ensures ParseInt("+" + NatToString(n)) == Some(n)
    ensures ParseInt("0" + NatToString(n)) == Some(n)
  {
    var d := NatToString(n);
    assert IsDigitString(d);
    NatToStringValue(n);
    ParseIntDigits(d);
    LeadingZero(d);
  }

  /** int() does not care about letter case: a digit string has no letters. */
  lemma ParseIntSameCase(x: string, y: string)
    requires Lower(x) == Lower(y)
    ensures ParseInt(x) == ParseInt(y)
  {
    if ParseInt(x).Some? {
      ParseIntLettersFree(x, y);
    } else if ParseInt(y).Some? {
      ParseIntLettersFree(y, x);
    }
  }

  lemma ParseIntLettersFree(x: string, y: string)
    requires Lower(x) == Lower(y) && ParseInt(x).Some?
    ensures y == x
  {
    forall k | 0 <= k < |x|
      ensures y[k] == x[k]
    {
      assert LowerChar(y[k]) == Lower(y)[k] == Lower(x)[k] == LowerChar(x[k]);
      assert IsDigit(x[k]) || x[k] == '_' || x[k] == '+' || x[k] == '-';
      LowerFixesNonLetter(y[k], x[k]);
    }
  }

  function DigitChar(d: nat): char
    requires d < 10
  {
    ('0' as int + d) as char
  }

  /** Python's str() on a non-negative integer. */
  function NatToString(n: nat): (s: string)
    ensures |s| > 0 && forall k :: 0 <= k < |s| ==> IsDigit(s[k])
  {
    if n < 10 then [DigitChar(n)] else NatToString(n / 10) + [DigitChar(n % 10)]
  }

  /** Python's str() on an integer. */
  function IntToString(n: int): string {
    if n < 0 then "-" + NatToString(-n) else NatToString(n)
  }

  lemma {:induction false} NatToStringValue(n: nat)
    ensures DigitsValue(NatToString(n)) == n
  {
    var s := NatToString(n);
    if n >= 10 {
      assert s[..|s| - 1] == NatToString(n / 10);
      NatToStringValue(n / 10);
    }
  }

  /** int(str(n)) == n. */
  lemma ParseIntToString(n: int)
    ensures ParseInt(IntToString(n)) == Some(n)
  {
    if n < 0 {
      var digits := NatToString(-n);
      var s := "-" + digits;
      assert s[1..] == digits;
      assert IsDigitString(digits);
      NatToStringValue(-n);
      assert ParseInt(s) == Some(-(DigitsValue(digits) as int));
    } else {
      var digits := NatToString(n);
      assert !IsDigit('+') && !IsDigit('-');
      assert IsDigitString(digits);
      NatToStringValue(n);
    }
  }
}
