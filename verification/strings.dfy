/**
 * The handful of Python string operations the crawlers rely on, written over
 * `string` (a sequence of characters): prefix and substring tests, counting a
 * character, `str.strip()`, `str.lower()`, `str.split(sep)[0]`, `sep.join`,
 * `str(n)` and `int(text)`, and the first match of the regular expression `\d+`.
 *
 * Letters and digits are ASCII here: `lower()` maps only A-Z, and a digit is 0-9.
 */
module Strings {
  import opened Wrappers

  predicate StartsWith(s: string, prefix: string) {
    |prefix| <= |s| && s[..|prefix|] == prefix
  }

  /** Python's `sub in s`. */
  predicate Contains(s: string, sub: string)
    decreases |s|
  {
    StartsWith(s, sub) || (|s| > 0 && Contains(s[1..], sub))
  }

  /** Python's `s.count(c)` for a single character. */
  function CountChar(s: string, c: char): (n: nat)
    ensures n <= |s|
    ensures n == 0 <==> c !in s
  {
    if |s| == 0 then 0
    else (if s[0] == c then 1 else 0) + CountChar(s[1..], c)
  }

  // ---------------------------------------------------------------------------
  // Whitespace and str.strip()
  // ---------------------------------------------------------------------------

  /** The characters `str.isspace()` accepts, which are what `str.strip()` removes. */
  predicate IsSpace(c: char) {
    || 9 <= c as int <= 13
    || 28 <= c as int <= 32
    || c as int == 0x85 || c as int == 0xA0 || c as int == 0x1680
    || 0x2000 <= c as int <= 0x200A
    || c as int == 0x2028 || c as int == 0x2029 || c as int == 0x202F
    || c as int == 0x205F || c as int == 0x3000
  }

  function TrimStart(s: string): (r: string)
    ensures |r| <= |s| && r == s[|s| - |r|..]
    ensures forall k :: 0 <= k < |s| - |r| ==> IsSpace(s[k])
    ensures |r| > 0 ==> !IsSpace(r[0])
  {
    if |s| > 0 && IsSpace(s[0]) then TrimStart(s[1..]) else s
  }

  function TrimEnd(s: string): (r: string)
    ensures |r| <= |s| && r == s[..|r|]
    ensures forall k :: |r| <= k < |s| ==> IsSpace(s[k])
    ensures |r| > 0 ==> !IsSpace(r[|r| - 1])
  {
    if |s| > 0 && IsSpace(s[|s| - 1]) then TrimEnd(s[..|s| - 1]) else s
  }

  /** Python's `s.strip()`: the longest infix with no white space at either end. */
  function Trim(s: string): (r: string)
    ensures |r| > 0 ==> !IsSpace(r[0]) && !IsSpace(r[|r| - 1])
    ensures exists i: nat :: StrippedAt(s, i, r)
  {
    var t := TrimStart(s);
    var r := TrimEnd(t);
    var i := |s| - |t|;
    assert StrippedAt(s, i, r);
    r
  }

  /** `r` sits at index `i` of `s` with only white space around it. */
  predicate StrippedAt(s: string, i: nat, r: string) {
    && i + |r| <= |s|
    && r == s[i..i + |r|]
    && (forall k :: 0 <= k < i ==> IsSpace(s[k]))
    && (forall k :: i + |r| <= k < |s| ==> IsSpace(s[k]))
  }

  /** A string that neither starts nor ends with white space is its own strip(). */
  lemma TrimUnchanged(s: string)
    requires |s| > 0 ==> !IsSpace(s[0]) && !IsSpace(s[|s| - 1])
    ensures Trim(s) == s
  {
  }

  // ---------------------------------------------------------------------------
  // str.lower(), str.split(sep)[0] and sep.join(parts)
  // ---------------------------------------------------------------------------

  function LowerChar(c: char): char {
    if 'A' <= c <= 'Z' then (c as int + 32) as char else c
  }

  /** Python's `s.lower()` restricted to ASCII letters. */
  function Lower(s: string): (r: string)
    ensures |r| == |s|
  {
    seq(|s|, i requires 0 <= i < |s| => LowerChar(s[i]))
  }

  /** Python's `s.split(sep)[0]`: everything before the first `sep`, or all of `s`. */
  function BeforeFirst(s: string, sep: char): (r: string)
    ensures |r| <= |s| && r == s[..|r|]
    ensures sep !in r
    ensures |r| < |s| ==> s[|r|] == sep
  {
    if |s| == 0 || s[0] == sep then [] else [s[0]] + BeforeFirst(s[1..], sep)
  }

  /** Python's `sep.join(parts)`. */
  function Join(parts: seq<string>, sep: string): (r: string)
    ensures |parts| == 0 ==> r == []
    ensures |parts| == 1 ==> r == parts[0]
    ensures |parts| > 0 ==> StartsWith(r, parts[0])
  {
    if |parts| == 0 then []
    else if |parts| == 1 then parts[0]
    else parts[0] + sep + Join(parts[1..], sep)
  }

  /** The total length of the parts. */
  function PartsLength(parts: seq<string>): nat {
    if |parts| == 0 then 0 else |parts[0]| + PartsLength(parts[1..])
  }

  /** Where part `k` starts in `sep.join(parts)`: after each earlier part and its separator. */
  function Offset(parts: seq<string>, sep: string, k: nat): nat
    requires k <= |parts|
  {
    if k == 0 then 0 else |parts[0]| + |sep| + Offset(parts[1..], sep, k - 1)
  }

  /** Consecutive parts start one part and one separator apart. */
  lemma {:induction false} OffsetStep(parts: seq<string>, sep: string, k: nat)
    requires k < |parts|
    ensures Offset(parts, sep, k + 1) == Offset(parts, sep, k) + |parts[k]| + |sep|
  {
    if k > 0 {
      OffsetStep(parts[1..], sep, k - 1);
    }
  }

  /** The slice of `a + b` that lies past `a` is a slice of `b`. */
  lemma SliceAfter(a: string, b: string, x: nat, y: nat)
    requires x <= y <= |b|
    ensures (a + b)[|a| + x..|a| + y] == b[x..y]
  {
  }

  /** A join is as long as its parts and one separator between each two of them. */
  lemma {:induction false} JoinLength(parts: seq<string>, sep: string)
    requires |parts| > 0
    ensures |Join(parts, sep)| == PartsLength(parts) + (|parts| - 1) * |sep|
  {
    if |parts| > 1 {
      JoinLength(parts[1..], sep);
    }
  }

  /** Part `k` of a join sits at its offset. */
  lemma {:induction false} JoinPart(parts: seq<string>, sep: string, k: nat)
    requires k < |parts|
    ensures Offset(parts, sep, k) + |parts[k]| <= |Join(parts, sep)|
    ensures Join(parts, sep)[Offset(parts, sep, k)..Offset(parts, sep, k) + |parts[k]|] == parts[k]
  {
    if |parts| > 1 {
      var head := parts[0] + sep;
      var rest := Join(parts[1..], sep);
      assert Join(parts, sep) == head + rest;
      if k > 0 {
        JoinPart(parts[1..], sep, k - 1);
        var o := Offset(parts[1..], sep, k - 1);
        assert parts[1..][k - 1] == parts[k];
        SliceAfter(head, rest, o, o + |parts[k]|);
      }
    }
  }

  /** Between part `k` and part `k + 1` of a join sits the separator. */
  lemma {:induction false} JoinSeparator(parts: seq<string>, sep: string, k: nat)
    requires k + 1 < |parts|
    ensures Offset(parts, sep, k + 1) == Offset(parts, sep, k) + |parts[k]| + |sep|
    ensures Offset(parts, sep, k + 1) <= |Join(parts, sep)|
    ensures Join(parts, sep)[Offset(parts, sep, k) + |parts[k]|..Offset(parts, sep, k + 1)] == sep
  {
    OffsetStep(parts, sep, k);
    var head := parts[0] + sep;
    var rest := Join(parts[1..], sep);
    assert Join(parts, sep) == head + rest;
    if k == 0 {
      assert (head + rest)[|parts[0]|..|head|] == sep;
    } else {
      JoinSeparator(parts[1..], sep, k - 1);
      OffsetStep(parts[1..], sep, k - 1);
      var o := Offset(parts[1..], sep, k - 1);
      assert parts[1..][k - 1] == parts[k];
      SliceAfter(head, rest, o + |parts[k]|, Offset(parts[1..], sep, k));
    }
  }

  /** `sub` occurs in `s` at index `i`. */
  lemma {:induction false} ContainsAt(s: string, sub: string, i: nat)
    requires i <= |s| && StartsWith(s[i..], sub)
    decreases i
    ensures Contains(s, sub)
  {
    if i > 0 {
      assert s[1..][i - 1..] == s[i..];
      ContainsAt(s[1..], sub, i - 1);
    }
  }

  /** Every part occurs in the join. */
  lemma JoinContains(parts: seq<string>, sep: string, k: nat)
    requires k < |parts|
    ensures Contains(Join(parts, sep), parts[k])
  {
    JoinPart(parts, sep, k);
    var r := Join(parts, sep);
    var o := Offset(parts, sep, k);
    assert r[o..][..|parts[k]|] == parts[k];
    ContainsAt(r, parts[k], o);
  }

  /** Every element of the parts occurs in their join. */
  lemma JoinContainsAll(parts: seq<string>, sep: string)
    ensures forall x :: x in parts ==> Contains(Join(parts, sep), x)
  {
    forall x | x in parts
      ensures Contains(Join(parts, sep), x)
    {
      var k :| 0 <= k < |parts| && parts[k] == x;
      JoinContains(parts, sep, k);
    }
  }

  // ---------------------------------------------------------------------------
  // Digits, str(n) and int(text)
  // ---------------------------------------------------------------------------

  predicate IsDigit(c: char) {
    '0' <= c <= '9'
  }

  predicate AllDigits(s: string) {
    forall k :: 0 <= k < |s| ==> IsDigit(s[k])
  }

  function DigitChar(d: nat): char
    requires d < 10
  {
    ('0' as int + d) as char
  }

  /** The value of a string of decimal digits, most significant first. */
  function DigitsValue(s: string): nat
    requires AllDigits(s)
  {
    if |s| == 0 then 0
    else DigitsValue(s[..|s| - 1]) * 10 + (s[|s| - 1] as int - '0' as int)
  }

  /** Python's `str(n)` for a non-negative integer. */
  function NatToString(n: nat): (r: string)
    ensures |r| > 0 && AllDigits(r)
  {
    if n < 10 then [DigitChar(n)] else NatToString(n / 10) + [DigitChar(n % 10)]
  }

  /** Python's `str(n)`. */
  function IntToString(n: int): (r: string)
    ensures |r| > 0
  {
    if n < 0 then "-" + NatToString(-n) else NatToString(n)
  }

  /**
   * Python's `int(text)`: surrounding white space is ignored, one optional sign,
   * then one or more decimal digits. None stands for the ValueError.
   */
  function ParseInt(text: string): Option<int> {
    var t := Trim(text);
    var negative := |t| > 0 && t[0] == '-';
    var digits := if |t| > 0 && (t[0] == '-' || t[0] == '+') then t[1..] else t;
    if |digits| > 0 && AllDigits(digits) then
      Some(if negative then -(DigitsValue(digits) as int) else DigitsValue(digits))
    else
      None
  }

  lemma {:induction false} DigitsValueOfNatToString(n: nat)
    ensures DigitsValue(NatToString(n)) == n
  {
    if n >= 10 {
      var s := NatToString(n);
      assert s[..|s| - 1] == NatToString(n / 10);
      DigitsValueOfNatToString(n / 10);
    }
  }

  /** Reading back what `str(n)` wrote gives `n`: `int(str(n)) == n`. */
  lemma ParseIntOfIntToString(n: int)
    ensures ParseInt(IntToString(n)) == Some(n)
  {
    var s := IntToString(n);
    var m: nat := if n < 0 then -n else n;
    var d := NatToString(m);
    DigitsValueOfNatToString(m);
    assert IsDigit(d[0]) && IsDigit(d[|d| - 1]);
    if n < 0 {
      assert s == "-" + d;
      assert s[1..] == d;
      TrimUnchanged(s);
    } else {
      assert s == d;
      TrimUnchanged(s);
    }
  }

  // ---------------------------------------------------------------------------
  // The first match of the regular expression \d+
  // ---------------------------------------------------------------------------

  /** `run` is the first maximal block of digits in `s`, and it starts at index `i`. */
  predicate FirstRunAt(s: string, i: nat, run: string) {
    && i + |run| <= |s|
    && s[i..i + |run|] == run
    && |run| > 0
    && AllDigits(run)
    && (forall k :: 0 <= k < i ==> !IsDigit(s[k]))
    && (i + |run| == |s| || !IsDigit(s[i + |run|]))
  }

  /** The longest prefix of `s` made of digits. */
  function DigitPrefix(s: string): (r: string)
    ensures |r| <= |s| && r == s[..|r|] && AllDigits(r)
    ensures |r| < |s| ==> !IsDigit(s[|r|])
  {
    if |s| > 0 && IsDigit(s[0]) then [s[0]] + DigitPrefix(s[1..]) else []
  }

  /** Python's `re.findall(r'\d+', s)[0]`, with None when there is no match. */
  function FirstDigitRun(s: string): (r: Option<string>)
    ensures r.None? <==> forall k :: 0 <= k < |s| ==> !IsDigit(s[k])
    ensures r.Some? ==> exists i: nat :: FirstRunAt(s, i, r.value)
  {
    if |s| == 0 then None
    else if IsDigit(s[0]) then
      assert FirstRunAt(s, 0, DigitPrefix(s));
      Some(DigitPrefix(s))
    else
      var rest := FirstDigitRun(s[1..]);
      FirstRunAfterNonDigit(s, rest);
      rest
  }

  lemma FirstRunAfterNonDigit(s: string, rest: Option<string>)
    requires |s| > 0 && !IsDigit(s[0])
    requires rest.Some? ==> exists i: nat :: FirstRunAt(s[1..], i, rest.value)
    ensures rest.Some? ==> exists i: nat :: FirstRunAt(s, i, rest.value)
  {
    if rest.Some? {
      var i: nat :| FirstRunAt(s[1..], i, rest.value);
      assert FirstRunAt(s, i + 1, rest.value);
    }
  }
}
