/** The C string routines the configuration reader relies on: its own `trim`,
    `strtok` with a one-character delimiter set, and `atoi`. A C string is
    modelled as the characters before its terminating NUL; pointers into a
    string become indices. */
module CString {
  import opened Wrappers

  // ---------------------------------------------------------------------------
  // trim
  // ---------------------------------------------------------------------------

  /** The characters `trim` strips: space, tab and newline. */
  predicate IsBlank(c: char) {
    c == ' ' || c == '\t' || c == '\n'
  }

  ghost predicate AllBlank(s: seq<char>) {
    forall k :: 0 <= k < |s| ==> IsBlank(s[k])
  }

  /** Neither end is blank (vacuously true of the empty string). */
  ghost predicate NoEdgeBlanks(s: seq<char>) {
    |s| == 0 || (!IsBlank(s[0]) && !IsBlank(s[|s| - 1]))
  }

  /** `r` is `s[i..j]`, only blanks lie outside it, and it has no blank end. */
  ghost predicate TrimAt(s: seq<char>, r: seq<char>, i: int, j: int) {
    0 <= i <= j <= |s| && r == s[i..j]
    && (i < j ==> !IsBlank(s[i]) && !IsBlank(s[j - 1]))
    && (forall m :: 0 <= m < i ==> IsBlank(s[m]))
    && (forall m :: j <= m < |s| ==> IsBlank(s[m]))
  }

  /** `r` is a contiguous slice of `s` that leaves only blanks on either side
      and has no blank at either end. */
  ghost predicate TrimOf(s: seq<char>, r: seq<char>) {
    exists i, j :: TrimAt(s, r, i, j)
  }

  /** The forward walk of `str`: the first non-blank index at or after `i`. */
  function SkipBlanks(s: seq<char>, i: nat): (k: nat)
    requires i <= |s|
    ensures i <= k <= |s|
    ensures forall m :: i <= m < k ==> IsBlank(s[m])
    ensures k < |s| ==> !IsBlank(s[k])
    decreases |s| - i
  {
    if i < |s| && IsBlank(s[i]) then SkipBlanks(s, i + 1) else i
  }

  /** The backward walk of `end`, as an exclusive bound: it stops at the last
      non-blank character, and never moves below `lo + 1` (`end > str`). */
  function BackOverBlanks(s: seq<char>, lo: nat, hi: nat): (k: nat)
    requires lo < hi <= |s|
    ensures lo < k <= hi
    ensures forall m :: k <= m < hi ==> IsBlank(s[m])
    ensures k - 1 > lo ==> !IsBlank(s[k - 1])
    decreases hi
  {
    if hi - 1 > lo && IsBlank(s[hi - 1]) then BackOverBlanks(s, lo, hi - 1) else hi
  }

  /** `trim`: drop leading blanks; if nothing is left return the empty
      string, otherwise also drop trailing blanks. */
  function Trim(s: seq<char>): (r: seq<char>)
    ensures TrimOf(s, r)
    ensures |r| <= |s|
  {
    var i := SkipBlanks(s, 0);
    if i == |s| then
      assert TrimAt(s, s[i..i], i, i);
      s[i..i]
    else
      var j := BackOverBlanks(s, i, |s|);
      assert TrimAt(s, s[i..j], i, j);
      s[i..j]
  }

  /** Outside and inside blanks together make an all-blank string. */
  lemma TrimAtEmpty(s: seq<char>, r: seq<char>, i: int, j: int)
    requires TrimAt(s, r, i, j) && r == []
    ensures AllBlank(s)
  {
  }

  /** A non-empty trim starts at the first non-blank character. */
  lemma TrimAtStart(s: seq<char>, r: seq<char>, i: int, j: int)
    requires TrimAt(s, r, i, j) && r != []
    ensures i == SkipBlanks(s, 0)
  {
    assert s[i] == r[0];
  }

  /** Two non-empty trims of one string end at the same place. */
  lemma TrimAtSameEnd(s: seq<char>, r1: seq<char>, i1: int, j1: int, r2: seq<char>, i2: int, j2: int)
    requires TrimAt(s, r1, i1, j1) && r1 != []
    requires TrimAt(s, r2, i2, j2) && r2 != []
    ensures j1 == j2
  {
    assert s[j1 - 1] == r1[|r1| - 1];
    assert s[j2 - 1] == r2[|r2| - 1];
  }

  /** There is only one way to trim a string. */
  lemma TrimOfUnique(s: seq<char>, r1: seq<char>, r2: seq<char>)
    requires TrimOf(s, r1) && TrimOf(s, r2)
    ensures r1 == r2
  {
    var i1, j1 :| TrimAt(s, r1, i1, j1);
    var i2, j2 :| TrimAt(s, r2, i2, j2);
    if r1 == [] {
      TrimAtEmpty(s, r1, i1, j1);
    } else if r2 == [] {
      TrimAtEmpty(s, r2, i2, j2);
    } else {
      TrimAtStart(s, r1, i1, j1);
      TrimAtStart(s, r2, i2, j2);
      TrimAtSameEnd(s, r1, i1, j1, r2, i2, j2);
    }
  }

  /** A string without blank ends is its own trim. */
  lemma TrimOfSelf(s: seq<char>)
    requires NoEdgeBlanks(s)
    ensures TrimOf(s, s)
  {
    assert TrimAt(s, s, 0, |s|);
  }

  /** Trimming twice is trimming once, which is why the source may trim the
      key a second time before comparing it. */
  lemma TrimIdempotent(s: seq<char>)
    ensures Trim(Trim(s)) == Trim(s)
  {
    var r := Trim(s);
    var i, j :| TrimAt(s, r, i, j);
    TrimOfSelf(r);
    TrimOfUnique(r, r, Trim(r));
  }

  /** A string is trimmed to nothing exactly when it is all blanks. */
  lemma TrimEmptyIffBlank(s: seq<char>)
    ensures Trim(s) == [] <==> AllBlank(s)
  {
    var r := Trim(s);
    var i, j :| TrimAt(s, r, i, j);
    if r == [] {
      TrimAtEmpty(s, r, i, j);
    }
  }

  /** Blanks in front of a string do not change its trim. */
  lemma TrimBlankPrefix(p: seq<char>, q: seq<char>)
    requires AllBlank(p)
    ensures Trim(p + q) == Trim(q)
  {
    var r := Trim(q);
    var i, j :| TrimAt(q, r, i, j);
    var s := p + q;
    assert r == s[|p| + i..|p| + j];
    assert i < j ==> s[|p| + i] == q[i] && s[|p| + j - 1] == q[j - 1];
    assert TrimAt(s, r, |p| + i, |p| + j);
    TrimOfUnique(s, r, Trim(s));
  }

  /** Blanks after a string do not change its trim. */
  lemma TrimBlankSuffix(p: seq<char>, q: seq<char>)
    requires AllBlank(q)
    ensures Trim(p + q) == Trim(p)
  {
    var r := Trim(p);
    var i, j :| TrimAt(p, r, i, j);
    var s := p + q;
    assert r == s[i..j];
    assert TrimAt(s, r, i, j);
    TrimOfUnique(s, r, Trim(s));
  }

  /** Where a string with a non-empty trim stops being blank at the front. */
  lemma LeadingBlanks(s: seq<char>) returns (i: nat)
    requires Trim(s) != []
    ensures i < |s| && AllBlank(s[..i]) && !IsBlank(s[i])
    ensures s[i] == Trim(s)[0] && Trim(s[i..]) == Trim(s)
  {
    var t := Trim(s);
    var i0, j0 :| TrimAt(s, t, i0, j0);
    i := i0;
    assert s[i] == t[0];
    assert AllBlank(s[..i]);
    TrimBlankPrefix(s[..i], s[i..]);
    assert s[..i] + s[i..] == s;
  }

  /** Where a string with a non-empty trim stops being blank at the back. */
  lemma TrailingBlanks(s: seq<char>) returns (j: nat)
    requires Trim(s) != []
    ensures 0 < j <= |s| && AllBlank(s[j..]) && !IsBlank(s[j - 1])
    ensures Trim(s[..j]) == Trim(s)
  {
    var t := Trim(s);
    var i0, j0 :| TrimAt(s, t, i0, j0);
    j := j0;
    assert AllBlank(s[j..]);
    TrimBlankSuffix(s[..j], s[j..]);
    assert s[..j] + s[j..] == s;
  }

  // ---------------------------------------------------------------------------
  // strtok with a single delimiter
  // ---------------------------------------------------------------------------

  /** A token, as the index where it starts and its text, and the position
      `strtok` saves for the next call. */
  datatype Token = Token(start: nat, text: seq<char>, next: nat)

  /** First index at or after `i` that is not the delimiter. */
  function SkipDelims(s: seq<char>, d: char, i: nat): (k: nat)
    requires i <= |s|
    ensures i <= k <= |s|
    ensures forall m :: i <= m < k ==> s[m] == d
    ensures k < |s| ==> s[k] != d
    decreases |s| - i
  {
    if i < |s| && s[i] == d then SkipDelims(s, d, i + 1) else i
  }

  /** First index at or after `i` that is the delimiter, or the end. */
  function TokenEnd(s: seq<char>, d: char, i: nat): (k: nat)
    requires i <= |s|
    ensures i <= k <= |s|
    ensures forall m :: i <= m < k ==> s[m] != d
    ensures k < |s| ==> s[k] == d
    decreases |s| - i
  {
    if i < |s| && s[i] != d then TokenEnd(s, d, i + 1) else i
  }

  /** One call of `strtok(·, d)` continuing at saved position `pos`: skip
      delimiters; none left gives NULL; otherwise the token runs to the next
      delimiter, which is overwritten, and the saved position moves past it. */
  function StrTok(s: seq<char>, d: char, pos: nat): (t: Option<Token>)
    requires pos <= |s|
    ensures t.None? <==> forall m :: pos <= m < |s| ==> s[m] == d
    ensures t.Some? ==> var e := t.value.start + |t.value.text|;
                        && pos <= t.value.start && e <= |s|
                        && t.value.text == s[t.value.start..e]
                        && |t.value.text| > 0 && d !in t.value.text
                        && (forall m :: pos <= m < t.value.start ==> s[m] == d)
                        && (e < |s| ==> s[e] == d && t.value.next == e + 1)
                        && (e == |s| ==> t.value.next == e)
  {
    var start := SkipDelims(s, d, pos);
    if start == |s| then None
    else
      var end := TokenEnd(s, d, start);
      assert forall m :: 0 <= m < end - start ==> s[start..end][m] == s[start + m];
      Some(Token(start, s[start..end], if end < |s| then end + 1 else end))
  }

  /** `s` holds two delimiter-free stretches separated by a delimiter, i.e.
      `strtok` finds at least two tokens in it. */
  ghost predicate HasTwoFields(s: seq<char>, d: char) {
    exists i, m, j :: 0 <= i < m < j < |s| && s[i] != d && s[m] == d && s[j] != d
  }

  /** Two successive `strtok` calls both succeed exactly when the string has
      two fields. */
  lemma TwoTokensIffTwoFields(s: seq<char>, d: char)
    ensures (StrTok(s, d, 0).Some? && StrTok(s, d, StrTok(s, d, 0).value.next).Some?)
            <==> HasTwoFields(s, d)
  {
    var t1 := StrTok(s, d, 0);
    if t1.Some? {
      var start := SkipDelims(s, d, 0);
      var end := TokenEnd(s, d, start);
      var t2 := StrTok(s, d, t1.value.next);
      if t2.Some? {
        var start2 := SkipDelims(s, d, t1.value.next);
        assert end < |s|;
        assert 0 <= start < end < start2 < |s| && s[start] != d && s[end] == d && s[start2] != d;
      }
      if HasTwoFields(s, d) {
        var i, m, j :| 0 <= i < m < j < |s| && s[i] != d && s[m] == d && s[j] != d;
        assert start <= i;
        assert end <= m;
        assert s[j] != d && t1.value.next <= j;
      }
    }
  }

  /** `strtok` on `a + [d] + b` with delimiter-free `a` and `b`, starting at a
      non-delimiter, yields `a` and then `b`. */
  lemma StrTokPair(a: seq<char>, d: char, b: seq<char>)
    requires |a| > 0 && |b| > 0 && d !in a && d !in b
    ensures StrTok(a + [d] + b, d, 0) == Some(Token(0, a, |a| + 1))
    ensures StrTok(a + [d] + b, d, |a| + 1) == Some(Token(|a| + 1, b, |a| + 1 + |b|))
  {
    var s := a + [d] + b;
    assert s[0] == a[0];
    assert SkipDelims(s, d, 0) == 0;
    TokenEndOver(s, d, 0, |a|);
    assert s[..|a|] == a;
    assert s[|a| + 1] == b[0];
    assert SkipDelims(s, d, |a| + 1) == |a| + 1;
    assert forall m :: |a| + 1 <= m < |s| ==> s[m] == b[m - |a| - 1];
    TokenEndOver(s, d, |a| + 1, |s|);
    assert s[|a| + 1..|s|] == b;
  }

  /** `TokenEnd` runs to the first delimiter at or after `i`. */
  lemma TokenEndOver(s: seq<char>, d: char, i: nat, k: nat)
    requires i <= k <= |s|
    requires forall m :: i <= m < k ==> s[m] != d
    requires k < |s| ==> s[k] == d
    ensures TokenEnd(s, d, i) == k
    decreases k - i
  {
    if i < k {
      TokenEndOver(s, d, i + 1, k);
    }
  }

  // ---------------------------------------------------------------------------
  // atoi
  // ---------------------------------------------------------------------------

  /** The characters `isspace` accepts in the C locale. */
  predicate IsSpace(c: char) {
    c == ' ' || c == '\t' || c == '\n' || c == '\U{000B}' || c == '\U{000C}' || c == '\r'
  }

  predicate IsDigit(c: char) {
    '0' <= c <= '9'
  }

  ghost predicate AllDigits(s: seq<char>) {
    forall k :: 0 <= k < |s| ==> IsDigit(s[k])
  }

  function DigitValue(c: char): (v: nat)
    requires IsDigit(c)
    ensures v < 10
  {
    (c as int) - ('0' as int)
  }

  function DigitChar(n: nat): (c: char)
    requires n < 10
    ensures IsDigit(c) && DigitValue(c) == n
  {
    (('0' as int) + n) as char
  }

  function SkipSpaces(s: seq<char>, i: nat): (k: nat)
    requires i <= |s|
    ensures i <= k <= |s|
    ensures k < |s| ==> !IsSpace(s[k])
    decreases |s| - i
  {
    if i < |s| && IsSpace(s[i]) then SkipSpaces(s, i + 1) else i
  }

  /** End of the run of digits starting at `i`. */
  function DigitsEnd(s: seq<char>, i: nat): (k: nat)
    requires i <= |s|
    ensures i <= k <= |s|
    ensures AllDigits(s[i..k])
    ensures k < |s| ==> !IsDigit(s[k])
    decreases |s| - i
  {
    if i < |s| && IsDigit(s[i]) then
      var k := DigitsEnd(s, i + 1);
      assert s[i..k] == [s[i]] + s[i + 1..k];
      k
    else i
  }

  /** Value of a decimal digit string, most significant digit first. */
  function DigitsValue(ds: seq<char>): nat
    requires AllDigits(ds)
  {
    if |ds| == 0 then 0
    else DigitsValue(ds[..|ds| - 1]) * 10 + DigitValue(ds[|ds| - 1])
  }

  /** `atoi`: skip white space, read an optional sign, then as many decimal
      digits as follow; no digits give 0. Overflow is not modelled. */
  function Atoi(s: seq<char>): (n: int)
    ensures (forall k :: 0 <= k < |s| ==> !IsDigit(s[k])) ==> n == 0
    ensures n < 0 ==> '-' in s
  {
    var i := SkipSpaces(s, 0);
    var negative := i < |s| && s[i] == '-';
    var j := if i < |s| && (s[i] == '-' || s[i] == '+') then i + 1 else i;
    var e := DigitsEnd(s, j);
    var v: int := DigitsValue(s[j..e]);
    if j < e then assert IsDigit(s[j..e][0]); (if negative then -v else v)
    else 0
  }

  /** Shortest decimal spelling of a natural number. */
  function Decimal(n: nat): (r: seq<char>)
    ensures |r| > 0 && AllDigits(r)
  {
    if n < 10 then [DigitChar(n)] else Decimal(n / 10) + [DigitChar(n % 10)]
  }

  /** Decimal spelling of an integer, with a leading '-' when negative. */
  function Show(n: int): (r: seq<char>)
    ensures |r| > 0
  {
    if n < 0 then "-" + Decimal(-n) else Decimal(n)
  }

  lemma {:induction false} DecimalValue(n: nat)
    ensures DigitsValue(Decimal(n)) == n
  {
    if n >= 10 {
      var ds := Decimal(n);
      assert ds[..|ds| - 1] == Decimal(n / 10);
      DecimalValue(n / 10);
    }
  }

  /** `atoi` reads back what `Show` wrote, whatever non-digit text follows. */
  lemma AtoiShow(n: int, rest: seq<char>)
    requires |rest| == 0 || !IsDigit(rest[0])
    ensures Atoi(Show(n) + rest) == n
  {
    var m := if n < 0 then -n else n;
    var ds := Decimal(m);
    var s := Show(n) + rest;
    var j := if n < 0 then 1 else 0;
    assert s[0] == Show(n)[0];
    assert SkipSpaces(s, 0) == 0;
    assert s[j..j + |ds|] == ds;
    DigitsEndOver(s, j, j + |ds|);
    DecimalValue(m);
  }

  /** `DigitsEnd` stops at the first non-digit. */
  lemma DigitsEndOver(s: seq<char>, i: nat, k: nat)
    requires i <= k <= |s|
    requires AllDigits(s[i..k])
    requires k < |s| ==> !IsDigit(s[k])
    ensures DigitsEnd(s, i) == k
    decreases k - i
  {
    if i < k {
      assert s[i..k][0] == s[i];
      assert s[i + 1..k] == s[i..k][1..];
      DigitsEndOver(s, i + 1, k);
    }
  }
}
