/** Character and string primitives the validators and queries rely on: Python's
    whitespace and `str.strip`, decimal digits, the binary string ordering SQLite uses
    for comparisons and ORDER BY, and SQLite's case-insensitive LIKE. */
module Strings {

  // ---------------------------------------------------------------------------
  // Whitespace and strip
  // ---------------------------------------------------------------------------

  /** The characters for which Python's `str.isspace()` holds; `str.strip()` removes
      exactly these from both ends. */
  predicate IsSpace(c: char)
  {
    || ('\t' <= c <= '\r')                      // \t \n \v \f \r
    || ('\U{1C}' <= c <= '\U{1F}')              // file, group, record and unit separators
    || c == ' ' || c == '\U{85}' || c == '\U{A0}' || c == '\U{1680}'
    || ('\U{2000}' <= c <= '\U{200A}')
    || c == '\U{2028}' || c == '\U{2029}' || c == '\U{202F}' || c == '\U{205F}' || c == '\U{3000}'
  }

  /** Number of whitespace characters at the start of `s`. */
  function LeadingSpaces(s: string): (n: nat)
    ensures n <= |s|
    ensures forall k :: 0 <= k < n ==> IsSpace(s[k])
    ensures n < |s| ==> !IsSpace(s[n])
  {
    if s == [] || !IsSpace(s[0]) then 0 else 1 + LeadingSpaces(s[1..])
  }

  /** Number of whitespace characters at the end of `s`. */
  function TrailingSpaces(s: string): (n: nat)
    ensures n <= |s|
    ensures forall k :: |s| - n <= k < |s| ==> IsSpace(s[k])
    ensures n < |s| ==> !IsSpace(s[|s| - 1 - n])
  {
    if s == [] || !IsSpace(s[|s| - 1]) then 0 else 1 + TrailingSpaces(s[..|s| - 1])
  }

  /** Python's `str.strip()` with no argument: `s` without its leading and trailing
      whitespace. The result is the slice of `s` that is left after cutting only
      whitespace from both ends, and it neither starts nor ends with whitespace. */
  function Strip(s: string): (r: string)
    ensures |r| <= |s|
    ensures r == [] || (!IsSpace(r[0]) && !IsSpace(r[|r| - 1]))
    ensures exists i :: StrippedAt(s, r, i)
  {
    var lead := LeadingSpaces(s);
    var trail := TrailingSpaces(s[lead..]);
    StripSlice(s, lead, trail);
    s[lead..|s| - trail]
  }

  lemma StripSlice(s: string, lead: nat, trail: nat)
    requires lead == LeadingSpaces(s) && trail == TrailingSpaces(s[lead..])
    ensures lead <= |s| - trail
    ensures var r := s[lead..|s| - trail];
            (r == [] || (!IsSpace(r[0]) && !IsSpace(r[|r| - 1]))) && StrippedAt(s, r, lead)
  {
    var rest := s[lead..];
    var r := s[lead..|s| - trail];
    assert r == rest[..|rest| - trail];
    forall k | |s| - trail <= k < |s| ensures IsSpace(s[k]) {
      assert s[k] == rest[k - lead];
    }
    if r != [] {
      assert r[0] == rest[0] && r[|r| - 1] == rest[|rest| - 1 - trail];
    }
  }

  /** `r` is `s[i..i + |r|]` and everything of `s` outside that slice is whitespace. */
  predicate StrippedAt(s: string, r: string, i: int)
  {
    && 0 <= i <= |s| - |r| && r == s[i..i + |r|]
    && (forall k :: 0 <= k < i ==> IsSpace(s[k]))
    && (forall k :: i + |r| <= k < |s| ==> IsSpace(s[k]))
  }

  /** A string that neither starts nor ends with whitespace is its own strip. */
  lemma StripKeepsTrimmed(s: string)
    requires s == [] || (!IsSpace(s[0]) && !IsSpace(s[|s| - 1]))
    ensures Strip(s) == s
  {
    var r := Strip(s);
    var i :| StrippedAt(s, r, i);
    if s != [] {
      assert !IsSpace(s[0]) && !IsSpace(s[|s| - 1]);
    }
  }

  /** Stripping twice is stripping once. */
  lemma StripIdempotent(s: string)
    ensures Strip(Strip(s)) == Strip(s)
  {
    StripKeepsTrimmed(Strip(s));
  }

  /** `s` is blank: empty or all whitespace. */
  predicate IsBlank(s: string)
  {
    forall k :: 0 <= k < |s| ==> IsSpace(s[k])
  }

  /** A string is blank exactly when stripping it leaves nothing, which is Python's
      `not s or not s.strip()`. */
  lemma BlankIffStripEmpty(s: string)
    ensures IsBlank(s) <==> Strip(s) == []
  {
    var r := Strip(s);
    var i :| StrippedAt(s, r, i);
    if IsBlank(s) {
      SliceOfSpaces(s, r, i);
    }
  }

  lemma SliceOfSpaces(s: string, r: string, i: int)
    requires forall k :: 0 <= k < |s| ==> IsSpace(s[k])
    requires 0 <= i <= |s| - |r| && r == s[i..i + |r|]
    ensures forall k :: 0 <= k < |r| ==> IsSpace(r[k])
  {
    assert forall k :: 0 <= k < |r| ==> r[k] == s[i + k];
  }

  // ---------------------------------------------------------------------------
  // Decimal digits
  // ---------------------------------------------------------------------------

  predicate IsDigit(c: char)
  {
    '0' <= c <= '9'
  }

  predicate AllDigits(s: string)
  {
    forall k :: 0 <= k < |s| ==> IsDigit(s[k])
  }

  function DigitValue(c: char): (n: nat)
    requires IsDigit(c)
    ensures n < 10
  {
    c as int - '0' as int
  }

  function DigitChar(n: int): (c: char)
    requires 0 <= n < 10
    ensures IsDigit(c) && DigitValue(c) == n
  {
    ('0' as int + n) as char
  }

  function Pow10(n: nat): (p: nat)
    ensures p >= 1
  {
    if n == 0 then 1 else 10 * Pow10(n - 1)
  }

  /** Python's `int()` of a string of ASCII digits; `n` digits hold a value below 10^n. */
  function NumberValue(s: string): (v: nat)
    requires AllDigits(s)
    ensures v < Pow10(|s|)
  {
    if s == [] then 0 else NumberValue(s[..|s| - 1]) * 10 + DigitValue(s[|s| - 1])
  }

  /** Python's `f"{n:02d}"` for 0 <= n < 100. */
  function Pad2(n: int): (r: string)
    requires 0 <= n < 100
    ensures |r| == 2 && AllDigits(r) && NumberValue(r) == n
    ensures r[0] == DigitChar(n / 10) && r[1] == DigitChar(n % 10)
  {
    var r := [DigitChar(n / 10), DigitChar(n % 10)];
    assert r[..1] == [r[0]] && r[..1][..0] == [];
    assert NumberValue(r[..1]) == n / 10;
    r
  }

  /** A year written with four digits, as `date.isoformat()` does for 1 <= n <= 9999. */
  function Pad4(n: int): (r: string)
    requires 0 <= n < 10000
    ensures |r| == 4 && AllDigits(r) && NumberValue(r) == n
  {
    var r := [DigitChar(n / 1000), DigitChar(n / 100 % 10), DigitChar(n / 10 % 10), DigitChar(n % 10)];
    assert r[..3][..2][..1] == [r[0]] && r[..3][..2][..1][..0] == [];
    assert NumberValue(r[..3][..2][..1]) == n / 1000;
    assert r[..3][..2] == [r[0], r[1]];
    assert NumberValue(r[..3][..2]) == n / 100;
    assert r[..3] == [r[0], r[1], r[2]];
    assert NumberValue(r[..3]) == n / 10;
    r
  }

  // ---------------------------------------------------------------------------
  // SQLite text ordering
  // ---------------------------------------------------------------------------

  /** `a <= b` under SQLite's default BINARY collation. Stored text is UTF-8, whose byte
      order agrees with code-point order, so this is the lexicographic order on
      characters. */
  predicate LexLe(a: string, b: string)
  {
    a == [] || (b != [] && (a[0] < b[0] || (a[0] == b[0] && LexLe(a[1..], b[1..]))))
  }

  lemma {:induction false} LexLeReflexive(a: string)
    ensures LexLe(a, a)
  {
    if a != [] { LexLeReflexive(a[1..]); }
  }

  lemma {:induction false} LexLeTotal(a: string, b: string)
    ensures LexLe(a, b) || LexLe(b, a)
  {
    if a != [] && b != [] && a[0] == b[0] { LexLeTotal(a[1..], b[1..]); }
  }

  lemma {:induction false} LexLeAntisymmetric(a: string, b: string)
    requires LexLe(a, b) && LexLe(b, a)
    ensures a == b
  {
    if a != [] && b != [] {
      LexLeAntisymmetric(a[1..], b[1..]);
      assert a == [a[0]] + a[1..] && b == [b[0]] + b[1..];
    }
  }

  lemma {:induction false} LexLeTransitive(a: string, b: string, c: string)
    requires LexLe(a, b) && LexLe(b, c)
    ensures LexLe(a, c)
  {
    if a != [] && b != [] && c != [] && a[0] == b[0] && b[0] == c[0] {
      LexLeTransitive(a[1..], b[1..], c[1..]);
    }
  }

  /** Two texts that start with equal-length parts compare as those parts do, or, when
      the parts are the same, as what follows them. */
  lemma {:induction false} LexLeAppend(a: string, b: string, x: string, y: string)
    requires |a| == |b|
    ensures a == b ==> (LexLe(a + x, b + y) <==> LexLe(x, y))
    ensures a != b && LexLe(a, b) ==> LexLe(a + x, b + y)
  {
    if a != [] {
      assert (a + x)[1..] == a[1..] + x && (b + y)[1..] == b[1..] + y;
      LexLeAppend(a[1..], b[1..], x, y);
      if a[0] == b[0] && a[1..] == b[1..] {
        assert a == [a[0]] + a[1..] && b == [b[0]] + b[1..];
      }
    } else {
      assert a + x == x && b + y == y;
    }
  }

  /** For digit strings of one length, text order is numeric order, and equal values
      are written the same way. */
  lemma {:induction false} DigitsLexLe(a: string, b: string)
    requires |a| == |b| && AllDigits(a) && AllDigits(b)
    ensures NumberValue(a) <= NumberValue(b) ==> LexLe(a, b)
    ensures NumberValue(a) == NumberValue(b) ==> a == b
  {
    if a != [] {
      var ia, ib := a[..|a| - 1], b[..|b| - 1];
      var la, lb := a[|a| - 1], b[|b| - 1];
      assert AllDigits(ia) && AllDigits(ib);
      DigitsLexLe(ia, ib);
      assert a == ia + [la] && b == ib + [lb];
      LexLeAppend(ia, ib, [la], [lb]);
      assert NumberValue(a) == NumberValue(ia) * 10 + DigitValue(la);
      assert NumberValue(b) == NumberValue(ib) * 10 + DigitValue(lb);
      PlaceValue(NumberValue(ia), NumberValue(ib), DigitValue(la), DigitValue(lb));
      assert LexLe([la], [lb]) <== la <= lb;
    }
  }

  /** The last digit decides between numbers only when the digits before it agree. */
  lemma PlaceValue(x: int, y: int, d: int, e: int)
    requires 0 <= d < 10 && 0 <= e < 10
    ensures x * 10 + d <= y * 10 + e ==> x < y || (x == y && d <= e)
    ensures x * 10 + d == y * 10 + e ==> x == y && d == e
  {
  }

  // ---------------------------------------------------------------------------
  // Case-insensitive LIKE, as SQLAlchemy's `ilike` compiles on SQLite
  // ---------------------------------------------------------------------------

  /** SQLite's `lower()` without the ICU extension: folds ASCII letters only. */
  function LowerAscii(c: char): char
  {
    if 'A' <= c <= 'Z' then (c as int + 32) as char else c
  }

  function Lower(s: string): (r: string)
    ensures |r| == |s| && forall k :: 0 <= k < |s| ==> r[k] == LowerAscii(s[k])
  {
    seq(|s|, k requires 0 <= k < |s| => LowerAscii(s[k]))
  }

  /** SQLite's LIKE on already-folded text with no ESCAPE clause: `%` matches any run
      of characters, `_` matches exactly one character, anything else matches itself. */
  predicate Like(t: string, p: string)
    decreases |t| + |p|
  {
    if p == [] then t == []
    else if p[0] == '%' then Like(t, p[1..]) || (t != [] && Like(t[1..], p))
    else t != [] && (p[0] == '_' || p[0] == t[0]) && Like(t[1..], p[1..])
  }

  /** `value ILIKE pattern`, compiled by SQLAlchemy for SQLite as
      `lower(value) LIKE lower(pattern)`. */
  predicate ILike(value: string, pattern: string)
  {
    Like(Lower(value), Lower(pattern))
  }

  /** The pattern `%term%` that the report queries build from user input. */
  function Contains(term: string): string
  {
    ['%'] + term + ['%']
  }

  predicate HasWildcard(s: string)
  {
    '%' in s || '_' in s
  }

  /** `needle` occurs as a contiguous run inside `hay`. */
  ghost predicate IsInfix(needle: string, hay: string)
  {
    exists i :: InfixAt(needle, hay, i)
  }

  predicate InfixAt(needle: string, hay: string, i: int)
  {
    0 <= i <= |hay| - |needle| && hay[i..i + |needle|] == needle
  }

  lemma {:induction false} LikeTrailingPercent(t: string)
    ensures Like(t, ['%'])
  {
    assert ['%'][1..] == [];
    if t != [] { LikeTrailingPercent(t[1..]); }
  }

  /** For a pattern free of wildcards, `p%` matches exactly the texts that start with `p`. */
  lemma {:induction false} LikePrefix(t: string, p: string)
    requires !HasWildcard(p)
    ensures Like(t, p + ['%']) <==> (|p| <= |t| && t[..|p|] == p)
  {
    if p == [] {
      assert p + ['%'] == ['%'];
      LikeTrailingPercent(t);
    } else {
      assert (p + ['%'])[1..] == p[1..] + ['%'];
      assert !HasWildcard(p[1..]) by {
        assert forall c :: c in p[1..] ==> c in p;
      }
      if t != [] {
        LikePrefix(t[1..], p[1..]);
        if |p| <= |t| {
          assert t[..|p|] == [t[0]] + t[1..][..|p| - 1];
          assert p == [p[0]] + p[1..];
        }
      }
    }
  }

  /** A leading `%` lets the rest of the pattern match any suffix of the text. */
  lemma {:induction false} LikeLeadingPercent(t: string, q: string)
    ensures Like(t, ['%'] + q) <==> exists i :: 0 <= i <= |t| && Like(t[i..], q)
  {
    assert (['%'] + q)[1..] == q;
    assert t[0..] == t;
    if t != [] {
      LikeLeadingPercent(t[1..], q);
      if exists i :: 0 <= i <= |t| && Like(t[i..], q) {
        var i :| 0 <= i <= |t| && Like(t[i..], q);
        if i > 0 { assert t[1..][i - 1..] == t[i..]; }
      }
      if exists j :: 0 <= j <= |t| - 1 && Like(t[1..][j..], q) {
        var j :| 0 <= j <= |t| - 1 && Like(t[1..][j..], q);
        assert t[1..][j..] == t[j + 1..];
      }
    }
  }

  /** The project and keyword filters: for a search term without `%` or `_`, matching
      `%term%` case-insensitively is the same as the folded term occurring in the folded
      value. A term holding `%` or `_` keeps their wildcard meaning and is not covered. */
  lemma ContainsIsInfix(value: string, term: string)
    requires !HasWildcard(term)
    ensures ILike(value, Contains(term)) <==> IsInfix(Lower(term), Lower(value))
  {
    var t, p := Lower(value), Lower(term);
    assert Lower(Contains(term)) == ['%'] + (p + ['%']);
    assert !HasWildcard(p) by {
      forall k | 0 <= k < |p| ensures p[k] != '%' && p[k] != '_' {
        assert term[k] in term;
      }
    }
    LikeLeadingPercent(t, p + ['%']);
    if ILike(value, Contains(term)) {
      var i :| 0 <= i <= |t| && Like(t[i..], p + ['%']);
      LikePrefix(t[i..], p);
      assert t[i..][..|p|] == t[i..i + |p|];
      assert InfixAt(p, t, i);
    }
    if IsInfix(p, t) {
      var i :| InfixAt(p, t, i);
      LikePrefix(t[i..], p);
      assert t[i..][..|p|] == t[i..i + |p|];
    }
  }
}
