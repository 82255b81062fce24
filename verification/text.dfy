/** String operations the application relies on, each in the form JavaScript
    defines it: `includes`, `indexOf`, `replace` with a string pattern, an
    anchored prefix strip, `trim`, `join`, ASCII case folding, and the decimal
    rendering and parsing of integers used by `String(n)` and `Number(s)`. */
module Text {
  import opened Seqs

  /** `p` occurs in `s` starting at index `i`. */
  predicate OccursAt(s: string, p: string, i: int)
  {
    0 <= i && i + |p| <= |s| && s[i..i + |p|] == p
  }

  /** An occurrence begins with the pattern's first character. */
  lemma OccursAtStart(s: string, p: string, i: int)
    requires OccursAt(s, p, i) && |p| > 0
    ensures s[i] == p[0]
  {
    assert s[i..i + |p|][0] == s[i];
  }

  /** `p` occurs somewhere in `s` (the reference meaning of `includes`). */
  ghost predicate Contains(s: string, p: string)
  {
    exists i :: OccursAt(s, p, i)
  }

  /** Scans `s` from index `i` for an occurrence of `p`. */
  function IncludesFrom(s: string, p: string, i: nat): (r: bool)
    ensures r <==> exists k :: i <= k && OccursAt(s, p, k)
    decreases |s| - i
  {
    if i + |p| > |s| then false
    else
      assert OccursAt(s, p, i) <==> s[i..i + |p|] == p;
      assert (exists k :: i <= k && OccursAt(s, p, k))
             <==> OccursAt(s, p, i) || exists k :: i + 1 <= k && OccursAt(s, p, k);
      s[i..i + |p|] == p || IncludesFrom(s, p, i + 1)
  }

  /** `s.includes(p)`. */
  function Includes(s: string, p: string): (r: bool)
    ensures r <==> Contains(s, p)
  {
    IncludesFrom(s, p, 0)
  }

  /** `s.indexOf(p)`, with `None` for JavaScript's -1. */
  function IndexOfFrom(s: string, p: string, i: nat): (r: Option<nat>)
    ensures r.Some? ==> i <= r.value && OccursAt(s, p, r.value)
    ensures r.Some? ==> forall k :: i <= k < r.value ==> !OccursAt(s, p, k)
    ensures r.None? ==> forall k :: i <= k ==> !OccursAt(s, p, k)
    decreases |s| - i
  {
    if i + |p| > |s| then None
    else if s[i..i + |p|] == p then Some(i)
    else IndexOfFrom(s, p, i + 1)
  }

  /** `s.replace(p, q)` with a string pattern: only the first occurrence is
      replaced, wherever it is. */
  function ReplaceFirst(s: string, p: string, q: string): (r: string)
    ensures !Contains(s, p) ==> r == s
    ensures Contains(s, p) ==>
              exists i :: OccursAt(s, p, i) && r == s[..i] + q + s[i + |p|..]
                          && forall k :: 0 <= k < i ==> !OccursAt(s, p, k)
  {
    match IndexOfFrom(s, p, 0)
    case None => s
    case Some(i) => s[..i] + q + s[i + |p|..]
  }

  /** `s.replace(/^p/, "")`: removes `p` only when `s` starts with it. */
  function StripPrefix(s: string, p: string): (r: string)
    ensures OccursAt(s, p, 0) ==> r + [] == s[|p|..] && p + r == s
    ensures !OccursAt(s, p, 0) ==> r == s
  {
    if |p| <= |s| && s[..|p|] == p then s[|p|..] else s
  }

  /** When `s` starts with `p`, the anchored strip and the first-occurrence
      replacement agree. */
  lemma StripPrefixAgreesAtStart(s: string, p: string)
    requires OccursAt(s, p, 0)
    ensures StripPrefix(s, p) == ReplaceFirst(s, p, "")
  {
    assert IndexOfFrom(s, p, 0) == Some(0);
    assert s[..0] + "" + s[|p|..] == s[|p|..];
  }

  /** ASCII lower-casing of one character. */
  function LowerChar(c: char): char
  {
    if 'A' <= c <= 'Z' then (c as int + 32) as char else c
  }

  /** ASCII lower-casing of a string; other characters are left alone. */
  function Lower(s: string): (r: string)
    ensures |r| == |s|
    ensures forall i :: 0 <= i < |s| ==> r[i] == LowerChar(s[i])
  {
    seq(|s|, i requires 0 <= i < |s| => LowerChar(s[i]))
  }

  /** The characters JavaScript's `trim` removes (WhiteSpace and LineTerminator). */
  predicate IsSpace(c: char)
  {
    c == ' ' || c == '\t' || c == '\n' || c == '\r' || c == '\U{000B}' || c == '\U{000C}'
    || c == '\U{00A0}' || c == '\U{1680}' || ('\U{2000}' <= c <= '\U{200A}')
    || c == '\U{2028}' || c == '\U{2029}' || c == '\U{202F}' || c == '\U{205F}'
    || c == '\U{3000}' || c == '\U{FEFF}'
  }

  /** First index at or after `i` that does not hold a space. */
  function SkipSpaces(s: string, i: nat): (j: nat)
    requires i <= |s|
    ensures i <= j <= |s|
    ensures forall k :: i <= k < j ==> IsSpace(s[k])
    ensures j < |s| ==> !IsSpace(s[j])
    decreases |s| - i
  {
    if i == |s| || !IsSpace(s[i]) then i else SkipSpaces(s, i + 1)
  }

  /** Smallest index `k >= lo` such that `s[k..j]` is all spaces. */
  function BackOverSpaces(s: string, lo: nat, j: nat): (k: nat)
    requires lo <= j <= |s|
    ensures lo <= k <= j
    ensures forall m :: k <= m < j ==> IsSpace(s[m])
    ensures k > lo ==> !IsSpace(s[k - 1])
    decreases j - lo
  {
    if j == lo || !IsSpace(s[j - 1]) then j else BackOverSpaces(s, lo, j - 1)
  }

  /** `s.trim()`: the middle of `s` once the leading and trailing spaces go. */
  function Trim(s: string): (r: string)
    ensures |r| == 0 || (!IsSpace(r[0]) && !IsSpace(r[|r| - 1]))
    ensures exists lo, hi :: 0 <= lo <= hi <= |s| && r == s[lo..hi]
                             && (forall k :: 0 <= k < lo ==> IsSpace(s[k]))
                             && (forall k :: hi <= k < |s| ==> IsSpace(s[k]))
  {
    var lo := SkipSpaces(s, 0);
    var hi := BackOverSpaces(s, lo, |s|);
    assert forall k :: lo <= k < |s| && !IsSpace(s[k]) ==> k < hi;
    s[lo..hi]
  }

  /** Trimming cannot create or destroy an occurrence of a word that neither
      starts nor ends with a space. */
  lemma ContainsTrim(s: string, p: string)
    requires |p| > 0 && !IsSpace(p[0]) && !IsSpace(p[|p| - 1])
    ensures Contains(Trim(s), p) <==> Contains(s, p)
  {
    var lo, hi :| 0 <= lo <= hi <= |s| && Trim(s) == s[lo..hi]
                  && (forall k :: 0 <= k < lo ==> IsSpace(s[k]))
                  && (forall k :: hi <= k < |s| ==> IsSpace(s[k]));
    ContainsSlice(s, lo, hi, p);
  }

  /** The slice form of `ContainsTrim`. */
  lemma ContainsSlice(s: string, lo: nat, hi: nat, p: string)
    requires lo <= hi <= |s|
    requires forall k :: 0 <= k < lo ==> IsSpace(s[k])
    requires forall k :: hi <= k < |s| ==> IsSpace(s[k])
    requires |p| > 0 && !IsSpace(p[0]) && !IsSpace(p[|p| - 1])
    ensures Contains(s[lo..hi], p) <==> Contains(s, p)
  {
    var r := s[lo..hi];
    if Contains(r, p) {
      var i :| OccursAt(r, p, i);
      forall m | 0 <= m < |p|
        ensures s[lo + i + m] == p[m]
      {
        assert r[i..i + |p|][m] == p[m];
      }
      assert s[lo + i..lo + i + |p|] == p;
      assert OccursAt(s, p, lo + i);
    }
    if Contains(s, p) {
      var i :| OccursAt(s, p, i);
      var first := i;
      var last := i + |p| - 1;
      assert s[first] == p[0];
      assert s[last] == p[|p| - 1];
      assert !IsSpace(s[first]) && !IsSpace(s[last]);
      assert lo <= first;
      assert last < hi;
      forall m | 0 <= m < |p|
        ensures r[i - lo + m] == p[m]
      {
        assert s[i..i + |p|][m] == p[m];
      }
      assert r[i - lo..i - lo + |p|] == p;
      assert OccursAt(r, p, i - lo);
    }
  }

  /** `items.join(sep)`: with a non-empty separator the result is empty only
      for no items or a single empty item. */
  function Join(items: seq<string>, sep: string): (r: string)
    ensures |items| == 1 ==> r == items[0]
    ensures |sep| > 0 ==> (r == "" <==> |items| == 0 || (|items| == 1 && items[0] == ""))
  {
    if |items| == 0 then ""
    else if |items| == 1 then items[0]
    else Join(items[..|items| - 1], sep) + sep + items[|items| - 1]
  }

  /** Decimal digits of a natural number, most significant first. */
  function NatDigits(n: nat): (r: string)
    ensures |r| > 0
    ensures forall i :: 0 <= i < |r| ==> '0' <= r[i] <= '9'
    ensures |r| > 1 ==> r[0] != '0'
    decreases n
  {
    if n < 10 then [DigitChar(n)] else NatDigits(n / 10) + [DigitChar(n % 10)]
  }

  function DigitChar(d: nat): (c: char)
    requires d < 10
    ensures '0' <= c <= '9'
    ensures c as int - '0' as int == d
  {
    ('0' as int + d) as char
  }

  /** The value of a string of decimal digits. */
  function DigitsValue(s: string): nat
    requires forall i :: 0 <= i < |s| ==> '0' <= s[i] <= '9'
  {
    if |s| == 0 then 0
    else 10 * DigitsValue(s[..|s| - 1]) + (s[|s| - 1] as int - '0' as int)
  }

  /** Reading back the digits of `n` gives `n`. */
  lemma {:induction false} DigitsRoundTrip(n: nat)
    ensures DigitsValue(NatDigits(n)) == n
    decreases n
  {
    if n >= 10 {
      var d := NatDigits(n / 10);
      var r := d + [DigitChar(n % 10)];
      assert r[..|r| - 1] == d;
      DigitsRoundTrip(n / 10);
    }
  }

  /** `String(n)` for an integer. */
  function IntToString(n: int): string
  {
    if n < 0 then "-" + NatDigits(-n) else NatDigits(n)
  }

  /** The integer a string of the shape `[+-]?[0-9]+` denotes, if it has that
      shape; `None` otherwise. */
  function ParseInt(s: string): (r: Option<int>)
  {
    if |s| > 0 && (s[0] == '+' || s[0] == '-') then
      var body := s[1..];
      if |body| > 0 && forall i :: 0 <= i < |body| ==> '0' <= body[i] <= '9' then
        var v: int := DigitsValue(body);
        Some(if s[0] == '-' then -v else v)
      else None
    else if |s| > 0 && forall i :: 0 <= i < |s| ==> '0' <= s[i] <= '9' then
      Some(DigitsValue(s))
    else None
  }

  /** An unsigned run of digits parses as its value. */
  lemma ParseDigits(d: string)
    requires |d| > 0 && forall i :: 0 <= i < |d| ==> '0' <= d[i] <= '9'
    ensures ParseInt(d) == Some(DigitsValue(d))
  {
    assert d[0] != '+' && d[0] != '-';
  }

  /** A minus sign before a run of digits parses as its negated value. */
  lemma ParseNegative(d: string)
    requires |d| > 0 && forall i :: 0 <= i < |d| ==> '0' <= d[i] <= '9'
    ensures ParseInt("-" + d) == Some(-(DigitsValue(d) as int))
  {
    var s := "-" + d;
    assert s[0] == '-';
    assert s[1..] == d;
  }

  /** Printing an integer and parsing it back is the identity. */
  lemma IntRoundTrip(n: int)
    ensures ParseInt(IntToString(n)) == Some(n)
  {
    if n < 0 {
      var d := NatDigits(-n);
      assert IntToString(n) == "-" + d;
      ParseNegative(d);
      DigitsRoundTrip(-n);
    } else {
      var d := NatDigits(n);
      assert IntToString(n) == d;
      ParseDigits(d);
      DigitsRoundTrip(n);
    }
  }
}
