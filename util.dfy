/** Helpers shared by the model: optional request values, the JavaScript string and
    number conversions the handlers rely on (restricted to ASCII text and decimal
    integers), row filtering, ordering, LIMIT/OFFSET windows and page slices. */
module Util {

  datatype Option<+T> = None | Some(value: T)

  // ------------------------------------------------------------------
  // Truthiness of request-body fields
  // ------------------------------------------------------------------

  /** `!x` for a numeric body field: absent, null and 0 are falsy. */
  predicate FalsyInt(x: Option<int>) { x.None? || x.value == 0 }

  /** `!x` for a string body field: absent, null and "" are falsy. */
  predicate FalsyStr(x: Option<string>) { x.None? || x.value == "" }

  // ------------------------------------------------------------------
  // Characters, case and substrings
  // ------------------------------------------------------------------

  predicate IsUpper(c: char) { 'A' <= c <= 'Z' }

  predicate IsDigit(c: char) { '0' <= c <= '9' }

  /** White space removed by `String.prototype.trim` (the ASCII part of it). */
  predicate IsSpace(c: char)
  {
    c == ' ' || c == '\t' || c == '\n' || c == '\r' || c as int == 0x0B || c as int == 0x0C
  }

  function LowerChar(c: char): (r: char)
    ensures !IsUpper(r)
    ensures !IsUpper(c) ==> r == c
  {
    if IsUpper(c) then (c as int + 32) as char else c
  }

  /** `s.toLowerCase()` on ASCII letters. */
  function Lower(s: string): (r: string)
    ensures |r| == |s|
    ensures forall i :: 0 <= i < |r| ==> !IsUpper(r[i])
  {
    seq(|s|, i requires 0 <= i < |s| => LowerChar(s[i]))
  }

  lemma LowerIdempotent(s: string)
    ensures Lower(Lower(s)) == Lower(s)
  {
    var l := Lower(s);
    assert forall i :: 0 <= i < |l| ==> LowerChar(l[i]) == l[i];
  }

  /** `needle` occurs in `hay` starting at index `i`. */
  predicate MatchAt(hay: string, needle: string, i: int)
  {
    0 <= i && i + |needle| <= |hay| && hay[i..i + |needle|] == needle
  }

  /** `hay.includes(needle)`. */
  predicate Contains(hay: string, needle: string)
  {
    exists i | 0 <= i <= |hay| - |needle| :: MatchAt(hay, needle, i)
  }

  /** `hay.toLowerCase().includes(term.toLowerCase())`. */
  predicate ContainsIgnoringCase(hay: string, term: string)
  {
    Contains(Lower(hay), Lower(term))
  }

  /** The empty search term occurs in every text. */
  lemma ContainsEmpty(hay: string)
    ensures Contains(hay, "")
    ensures ContainsIgnoringCase(hay, "")
  {
    assert MatchAt(hay, "", 0);
    assert Lower("") == "";
    assert MatchAt(Lower(hay), "", 0);
  }

  /** A text contains whatever stands between its prefix `a` and suffix `c`. */
  /** Text put in front keeps an occurrence. */
  lemma ContainsAfter(x: string, y: string, needle: string)
    requires Contains(y, needle)
    ensures Contains(x + y, needle)
  {
    var i :| 0 <= i <= |y| - |needle| && MatchAt(y, needle, i);
    assert MatchAt(x + y, needle, |x| + i);
  }

  lemma ContainsInfix(a: string, b: string, c: string)
    ensures Contains(a + b + c, b)
  {
    var s := a + b + c;
    assert s[|a|..|a| + |b|] == b;
    assert MatchAt(s, b, |a|);
  }

  /** Texts are compared case-insensitively: changing the case of either side changes nothing. */
  lemma ContainsIgnoringCaseOfLower(hay: string, term: string)
    ensures ContainsIgnoringCase(Lower(hay), term) == ContainsIgnoringCase(hay, term)
    ensures ContainsIgnoringCase(hay, Lower(term)) == ContainsIgnoringCase(hay, term)
  {
    LowerIdempotent(hay);
    LowerIdempotent(term);
  }

  // ------------------------------------------------------------------
  // trim() and split(sep)[0]
  // ------------------------------------------------------------------

  function TrimStart(s: string): (r: string)
    ensures |r| <= |s| && r == s[|s| - |r|..]
    ensures r == [] || !IsSpace(r[0])
    ensures forall i :: 0 <= i < |s| - |r| ==> IsSpace(s[i])
  {
    if s != [] && IsSpace(s[0]) then TrimStart(s[1..]) else s
  }

  function TrimEnd(s: string): (r: string)
    ensures |r| <= |s| && r == s[..|r|]
    ensures r == [] || !IsSpace(r[|r| - 1])
    ensures forall i :: |r| <= i < |s| ==> IsSpace(s[i])
  {
    if s != [] && IsSpace(s[|s| - 1]) then TrimEnd(s[..|s| - 1]) else s
  }

  /** `s.trim()`: the longest infix of `s` that starts and ends with a non-space. */
  function Trim(s: string): string
  {
    TrimEnd(TrimStart(s))
  }

  /** `s.trim()` is empty exactly when `s` consists of white space only. */
  lemma TrimEmptyIff(s: string)
    ensures Trim(s) == "" <==> forall i :: 0 <= i < |s| ==> IsSpace(s[i])
  {
  }

  /** The trimmed text is an infix of the input with no white space at either end. */
  lemma {:induction false} TrimShape(s: string)
    ensures Trim(s) == s[|s| - |TrimStart(s)|..][..|Trim(s)|]
    ensures Trim(s) == [] || (!IsSpace(Trim(s)[0]) && !IsSpace(Trim(s)[|Trim(s)| - 1]))
  {
    var t := TrimStart(s);
    var r := TrimEnd(t);
    assert Trim(s) == r;
    TrimEndKeepsStart(t);
  }

  lemma {:induction false} TrimEndKeepsStart(t: string)
    requires t == [] || !IsSpace(t[0])
    ensures TrimEnd(t) == [] || !IsSpace(TrimEnd(t)[0])
  {
    var r := TrimEnd(t);
    if r != [] {
      assert r[0] == t[0];
    }
  }

  /** Text with no white space at either end is left alone by trim(). */
  lemma {:induction false} TrimOfTrimmed(s: string)
    requires s == [] || (!IsSpace(s[0]) && !IsSpace(s[|s| - 1]))
    ensures Trim(s) == s
  {
    assert TrimStart(s) == s;
  }

  /** A numeral has no white space to trim. */
  lemma {:induction false} DigitsAreTrimmed(s: string)
    requires s != [] && AllDigits(s)
    ensures Trim(s) == s
  {
    assert IsDigit(s[0]) && IsDigit(s[|s| - 1]);
    TrimOfTrimmed(s);
  }

  function BeforeFirstFrom(s: string, sep: string, i: nat): (r: string)
    requires sep != [] && i <= |s|
    requires forall k :: 0 <= k < i ==> !MatchAt(s, sep, k)
    ensures i <= |r| <= |s| && r == s[..|r|]
    ensures forall k :: 0 <= k < |r| ==> !MatchAt(s, sep, k)
    ensures |r| == |s| || MatchAt(s, sep, |r|)
    decreases |s| - i
  {
    if i + |sep| > |s| then s
    else if MatchAt(s, sep, i) then s[..i]
    else BeforeFirstFrom(s, sep, i + 1)
  }

  /** `s.split(sep)[0]`: the text before the first occurrence of `sep`, or all of `s`. */
  function BeforeFirst(s: string, sep: string): (r: string)
    requires sep != []
    ensures |r| <= |s| && r == s[..|r|]
    ensures forall k :: 0 <= k < |r| ==> !MatchAt(s, sep, k)
    ensures |r| == |s| || MatchAt(s, sep, |r|)
  {
    BeforeFirstFrom(s, sep, 0)
  }

  // ------------------------------------------------------------------
  // Decimal numerals: String(n), parseInt and Number
  // ------------------------------------------------------------------

  predicate AllDigits(s: string) { forall i :: 0 <= i < |s| ==> IsDigit(s[i]) }

  function DigitChar(d: nat): (c: char)
    requires d < 10
    ensures IsDigit(c)
  {
    "0123456789"[d]
  }

  function DigitValue(c: char): nat
    requires IsDigit(c)
  {
    c as int - '0' as int
  }

  /** `String(n)` for a natural number. */
  function NatToString(n: nat): (r: string)
    ensures |r| >= 1 && AllDigits(r)
  {
    if n < 10 then [DigitChar(n)] else NatToString(n / 10) + [DigitChar(n % 10)]
  }

  /** `String(i)` for an integer. */
  function IntToString(i: int): string
  {
    if i < 0 then "-" + NatToString(-i) else NatToString(i)
  }

  /** The number an all-digit numeral denotes. */
  function DigitsValue(s: string): nat
    requires AllDigits(s)
  {
    if s == [] then 0 else DigitsValue(s[..|s| - 1]) * 10 + DigitValue(s[|s| - 1])
  }

  lemma {:induction false} DigitsValueOfNatToString(n: nat)
    ensures DigitsValue(NatToString(n)) == n
  {
    var r := NatToString(n);
    if n < 10 {
      assert DigitValue(DigitChar(n)) == n;
      assert r[..|r| - 1] == [];
    } else {
      DigitsValueOfNatToString(n / 10);
      assert r[..|r| - 1] == NatToString(n / 10);
      assert DigitValue(DigitChar(n % 10)) == n % 10;
    }
  }

  function LeadingDigits(s: string): (r: string)
    ensures |r| <= |s| && r == s[..|r|] && AllDigits(r)
    ensures |r| == |s| || !IsDigit(s[|r|])
  {
    if s != [] && IsDigit(s[0]) then
      var rest := LeadingDigits(s[1..]);
      assert s[..1 + |rest|] == [s[0]] + s[1..][..|rest|];
      [s[0]] + rest
    else []
  }

  /** `parseInt(s)` in base 10: leading white space, an optional sign, then the longest run
      of digits; None stands for NaN (no digit after the sign). */
  function ParseInt(s: string): (r: Option<int>)
    ensures r.None? <==> LeadingDigits(SignFree(TrimStart(s))) == []
  {
    var t := TrimStart(s);
    var d := LeadingDigits(SignFree(t));
    if d == [] then None
    else if t[0] == '-' then Some(-(DigitsValue(d) as int))
    else Some(DigitsValue(d))
  }

  /** The text after an optional leading sign. */
  function SignFree(t: string): string
  {
    if t != [] && (t[0] == '-' || t[0] == '+') then t[1..] else t
  }

  /** `Number(s)` for decimal integers: white space around an optional sign and digits;
      blank text is 0; any other text is NaN (None). */
  function ToNumber(s: string): (r: Option<int>)
    ensures Trim(s) == "" ==> r == Some(0)
  {
    var t := Trim(s);
    if t == "" then Some(0)
    else if (t[0] == '-' || t[0] == '+') && |t| > 1 && AllDigits(t[1..]) then
      Some(if t[0] == '-' then -(DigitsValue(t[1..]) as int) else DigitsValue(t[1..]))
    else if AllDigits(t) then Some(DigitsValue(t))
    else None
  }

  lemma LeadingDigitsOfNumeral(s: string)
    requires AllDigits(s)
    ensures LeadingDigits(s) == s
  {
    var r := LeadingDigits(s);
    assert |r| == |s|;
  }

  /** Printing a number and reading it back with parseInt gives the number. */
  lemma ParseIntOfNatToString(n: nat)
    ensures ParseInt(NatToString(n)) == Some(n)
  {
    var r := NatToString(n);
    assert TrimStart(r) == r;
    assert SignFree(r) == r;
    LeadingDigitsOfNumeral(r);
    DigitsValueOfNatToString(n);
  }

  lemma {:induction false} LeadingDigitsOfNumeralThen(d: string, rest: string)
    requires AllDigits(d) && (rest == [] || !IsDigit(rest[0]))
    ensures LeadingDigits(d + rest) == d
  {
    if d != [] {
      assert (d + rest)[1..] == d[1..] + rest;
      LeadingDigitsOfNumeralThen(d[1..], rest);
      assert d == [d[0]] + d[1..];
    }
  }

  /** Trimming twice is trimming once. */
  lemma TrimIdempotent(s: string)
    ensures Trim(Trim(s)) == Trim(s)
  {
    TrimShape(s);
    TrimOfTrimmed(Trim(s));
  }

  lemma TrimStartNoSpace(s: string)
    requires s != [] && !IsSpace(s[0])
    ensures TrimStart(s) == s
  {
  }

  lemma ParseIntNegative(s: string, d: string)
    requires s != [] && s[0] == '-' && d != [] && LeadingDigits(s[1..]) == d
    ensures ParseInt(s) == Some(-(DigitsValue(d) as int))
  {
    TrimStartNoSpace(s);
    assert SignFree(s) == s[1..];
  }

  lemma ParseIntNonNegative(s: string, d: string)
    requires s != [] && IsDigit(s[0]) && LeadingDigits(s) == d
    ensures ParseInt(s) == Some(DigitsValue(d))
  {
    TrimStartNoSpace(s);
    assert SignFree(s) == s;
  }

  /** parseInt reads back a printed integer from the front of a text, whatever non-digit
      text follows it. */
  lemma ParseIntOfIntToStringThen(i: int, rest: string)
    requires rest == [] || !IsDigit(rest[0])
    ensures ParseInt(IntToString(i) + rest) == Some(i)
  {
    if i < 0 {
      ParseIntOfNegativeThen(i, rest);
    } else {
      ParseIntOfNatToStringThen(i, rest);
    }
  }

  lemma ParseIntOfNatToStringThen(m: nat, rest: string)
    requires rest == [] || !IsDigit(rest[0])
    ensures ParseInt(IntToString(m) + rest) == Some(m)
  {
    var d := NatToString(m);
    assert IntToString(m) == d;
    DigitsValueOfNatToString(m);
    LeadingDigitsOfNumeralThen(d, rest);
    assert IsDigit((d + rest)[0]);
    ParseIntNonNegative(d + rest, d);
  }

  lemma ParseIntOfNegativeThen(i: int, rest: string)
    requires i < 0 && (rest == [] || !IsDigit(rest[0]))
    ensures ParseInt(IntToString(i) + rest) == Some(i)
  {
    var s := IntToString(i) + rest;
    var m: nat := -i;
    NegativeText(i, rest);
    ParseIntNegativeOf(s, NatToString(m), rest);
    DigitsValueOfNatToString(m);
  }

  lemma NegativeText(i: int, rest: string)
    requires i < 0
    ensures var s := IntToString(i) + rest; s != [] && s[0] == '-' && s[1..] == NatToString(-i) + rest
  {
    var s := IntToString(i) + rest;
    assert s == ['-'] + (NatToString(-i) + rest);
  }

  lemma {:induction false} ParseIntNegativeOf(s: string, d: string, rest: string)
    requires AllDigits(d) && d != [] && (rest == [] || !IsDigit(rest[0]))
    requires s != [] && s[0] == '-' && s[1..] == d + rest
    ensures ParseInt(s) == Some(-(DigitsValue(d) as int))
  {
    LeadingDigitsOfNumeralThen(d, rest);
    ParseIntNegative(s, d);
  }

  /** Printing a number and reading it back with Number gives the number. */
  lemma ToNumberOfNatToString(n: nat)
    ensures ToNumber(NatToString(n)) == Some(n)
  {
    var r := NatToString(n);
    TrimOfTrimmed(r);
    DigitsValueOfNatToString(n);
  }

  // ------------------------------------------------------------------
  // Rows: first match, filter, count, sum
  // ------------------------------------------------------------------

  /** Index of the first element satisfying `p` (`rows[0]` of a SELECT ... WHERE p). */
  function FirstIndex<T>(s: seq<T>, p: T -> bool): (r: Option<nat>)
    ensures r.Some? ==> r.value < |s| && p(s[r.value]) && forall k :: 0 <= k < r.value ==> !p(s[k])
    ensures r.None? ==> forall k :: 0 <= k < |s| ==> !p(s[k])
  {
    if s == [] then None
    else if p(s[0]) then Some(0)
    else match FirstIndex(s[1..], p)
      case None => None
      case Some(k) => Some(k + 1)
  }

  /** Two conditions that agree on every element find the same first element. */
  lemma {:induction false} FirstIndexSame<T>(s: seq<T>, p: T -> bool, q: T -> bool)
    requires forall x :: p(x) == q(x)
    ensures FirstIndex(s, p) == FirstIndex(s, q)
  {
    if s != [] {
      FirstIndexSame(s[1..], p, q);
    }
  }

  /** The elements satisfying `p`, in their original order (a WHERE clause). */
  function Filter<T>(s: seq<T>, p: T -> bool): (r: seq<T>)
    ensures |r| <= |s|
    ensures forall k :: 0 <= k < |r| ==> r[k] in s && p(r[k])
    ensures forall k :: 0 <= k < |s| && p(s[k]) ==> s[k] in r
    ensures multiset(r) <= multiset(s)
  {
    if s == [] then []
    else
      assert s == [s[0]] + s[1..];
      (if p(s[0]) then [s[0]] else []) + Filter(s[1..], p)
  }

  lemma FilterAll<T>(s: seq<T>, p: T -> bool)
    requires forall k :: 0 <= k < |s| ==> p(s[k])
    ensures Filter(s, p) == s
  {
    if s != [] {
      FilterAll(s[1..], p);
    }
  }

  lemma FilterConcat<T>(a: seq<T>, b: seq<T>, p: T -> bool)
    ensures Filter(a + b, p) == Filter(a, p) + Filter(b, p)
  {
    if a == [] {
      assert a + b == b;
    } else {
      assert (a + b)[1..] == a[1..] + b;
      FilterConcat(a[1..], b, p);
    }
  }

  /** A WHERE clause over a table, split around one of its rows. */
  lemma {:induction false} FilterAround<T>(s: seq<T>, k: nat, p: T -> bool)
    requires k < |s|
    ensures Filter(s, p) == Filter(s[..k], p) + Filter([s[k]], p) + Filter(s[k + 1..], p)
  {
    assert s == s[..k] + [s[k]] + s[k + 1..];
    FilterConcat3(s[..k], [s[k]], s[k + 1..], p);
  }

  lemma {:induction false} FilterConcat3<T>(a: seq<T>, b: seq<T>, c: seq<T>, p: T -> bool)
    ensures Filter(a + b + c, p) == Filter(a, p) + Filter(b, p) + Filter(c, p)
  {
    FilterConcat(a + b, c, p);
    FilterConcat(a, b, p);
  }

  /** A narrower WHERE clause never counts more rows. */
  lemma {:induction false} FilterNarrower<T>(s: seq<T>, p: T -> bool, q: T -> bool)
    requires forall x :: q(x) ==> p(x)
    ensures |Filter(s, q)| <= |Filter(s, p)|
  {
    if s != [] {
      FilterNarrower(s[1..], p, q);
    }
  }

  /** A WHERE clause and its negation split the rows between them. */
  lemma {:induction false} FilterPartition<T>(s: seq<T>, p: T -> bool, q: T -> bool)
    requires forall x :: q(x) <==> !p(x)
    ensures multiset(Filter(s, p)) + multiset(Filter(s, q)) == multiset(s)
  {
    if s != [] {
      FilterPartition(s[1..], p, q);
      FilterHead(s, p, q);
    }
  }

  /** The head of the rows goes to exactly one side of a partition. */
  lemma FilterHead<T>(s: seq<T>, p: T -> bool, q: T -> bool)
    requires s != [] && (q(s[0]) <==> !p(s[0]))
    ensures multiset(Filter(s, p)) + multiset(Filter(s, q))
         == multiset{s[0]} + multiset(Filter(s[1..], p)) + multiset(Filter(s[1..], q))
    ensures multiset(s) == multiset{s[0]} + multiset(s[1..])
  {
    assert s == [s[0]] + s[1..];
    var a := Filter(s[1..], p);
    var b := Filter(s[1..], q);
    if p(s[0]) {
      assert Filter(s, p) == [s[0]] + a;
      assert Filter(s, q) == b;
    } else {
      assert Filter(s, q) == [s[0]] + b;
      assert Filter(s, p) == a;
    }
  }

  /** Two WHERE clauses that agree on every row select the same rows. */
  lemma {:induction false} FilterSame<T>(s: seq<T>, p: T -> bool, q: T -> bool)
    requires forall k :: 0 <= k < |s| ==> (p(s[k]) <==> q(s[k]))
    ensures Filter(s, p) == Filter(s, q)
  {
    if s != [] {
      assert forall k :: 1 <= k < |s| ==> s[1..][k - 1] == s[k];
      FilterSame(s[1..], p, q);
    }
  }

  /** The SELECT list: `f` applied to every row, in order. */
  function Project<T, U>(s: seq<T>, f: T -> U): (r: seq<U>)
    ensures |r| == |s|
    ensures forall k :: 0 <= k < |s| ==> r[k] == f(s[k])
  {
    seq(|s|, k requires 0 <= k < |s| => f(s[k]))
  }

  /** `SUM(f(x))` over the rows, 0 for no rows (`COALESCE(SUM(...), 0)`). */
  function Sum<T>(s: seq<T>, f: T -> int): int
  {
    if s == [] then 0 else f(s[0]) + Sum(s[1..], f)
  }

  lemma {:induction false} SumNonNegative<T>(s: seq<T>, f: T -> int)
    requires forall k :: 0 <= k < |s| ==> f(s[k]) >= 0
    ensures Sum(s, f) >= 0
  {
    if s != [] {
      SumNonNegative(s[1..], f);
    }
  }

  lemma {:induction false} SumConcat<T>(a: seq<T>, b: seq<T>, f: T -> int)
    ensures Sum(a + b, f) == Sum(a, f) + Sum(b, f)
  {
    if a == [] {
      assert a + b == b;
    } else {
      assert (a + b)[1..] == a[1..] + b;
      SumConcat(a[1..], b, f);
    }
  }

  /** Where `f` is not negative on the rows `p` keeps, a narrower WHERE clause never sums to more. */
  lemma {:induction false} SumNarrower<T>(s: seq<T>, p: T -> bool, q: T -> bool, f: T -> int)
    requires forall x :: q(x) ==> p(x)
    requires forall k :: 0 <= k < |s| && p(s[k]) ==> f(s[k]) >= 0
    ensures Sum(Filter(s, q), f) <= Sum(Filter(s, p), f)
  {
    if s != [] {
      assert forall k :: 1 <= k < |s| ==> s[1..][k - 1] == s[k];
      SumNarrower(s[1..], p, q, f);
      SumConcat(if p(s[0]) then [s[0]] else [], Filter(s[1..], p), f);
      SumConcat(if q(s[0]) then [s[0]] else [], Filter(s[1..], q), f);
    }
  }

  // ------------------------------------------------------------------
  // Ordering, LIMIT/OFFSET windows and page slices
  // ------------------------------------------------------------------

  /** `ORDER BY key DESC` holds of `s`. */
  ghost predicate SortedDesc<T>(s: seq<T>, key: T -> int)
  {
    forall i, j :: 0 <= i < j < |s| ==> key(s[i]) >= key(s[j])
  }

  function InsertDesc<T>(x: T, s: seq<T>, key: T -> int): (r: seq<T>)
    requires SortedDesc(s, key)
    ensures |r| == |s| + 1
    ensures multiset(r) == multiset(s) + multiset{x}
    ensures SortedDesc(r, key)
  {
    if s == [] || key(x) >= key(s[0]) then
      InsertFront(x, s, key);
      [x] + s
    else
      TailSorted(s, key);
      var tail := InsertDesc(x, s[1..], key);
      InsertBehind(x, s, tail, key);
      [s[0]] + tail
  }

  lemma InsertFront<T>(x: T, s: seq<T>, key: T -> int)
    requires SortedDesc(s, key) && (s == [] || key(x) >= key(s[0]))
    ensures SortedDesc([x] + s, key)
  {
    var r := [x] + s;
    forall i, j | 0 <= i < j < |r| ensures key(r[i]) >= key(r[j]) {
      if i == 0 {
        assert key(s[0]) >= key(s[j - 1]);
      }
    }
  }

  lemma TailSorted<T>(s: seq<T>, key: T -> int)
    requires s != [] && SortedDesc(s, key)
    ensures SortedDesc(s[1..], key)
  {
    forall i, j | 0 <= i < j < |s[1..]| ensures key(s[1..][i]) >= key(s[1..][j]) {
      assert s[1..][i] == s[i + 1] && s[1..][j] == s[j + 1];
    }
  }

  /** The step of `InsertDesc` that keeps the head in front of the inserted tail. */
  lemma InsertBehind<T>(x: T, s: seq<T>, tail: seq<T>, key: T -> int)
    requires s != [] && SortedDesc(s, key) && key(x) < key(s[0])
    requires SortedDesc(tail, key) && multiset(tail) == multiset(s[1..]) + multiset{x}
    ensures SortedDesc([s[0]] + tail, key)
    ensures multiset([s[0]] + tail) == multiset(s) + multiset{x}
  {
    forall k | 0 <= k < |tail| ensures key(tail[k]) <= key(s[0]) {
      assert tail[k] in multiset(tail);
      if tail[k] != x {
        assert tail[k] in multiset(s[1..]);
        var j :| 0 <= j < |s[1..]| && s[1..][j] == tail[k];
        assert s[j + 1] == tail[k];
      }
    }
    var r := [s[0]] + tail;
    forall i, j | 0 <= i < j < |r| ensures key(r[i]) >= key(r[j]) {
      if i == 0 {
        assert r[j] == tail[j - 1];
      } else {
        assert r[i] == tail[i - 1] && r[j] == tail[j - 1];
      }
    }
    assert s == [s[0]] + s[1..];
  }

  /** Rows ordered by `key` descending, as `ORDER BY key DESC` returns them (ties in input order). */
  function SortDesc<T>(s: seq<T>, key: T -> int): (r: seq<T>)
    ensures |r| == |s|
    ensures multiset(r) == multiset(s)
    ensures SortedDesc(r, key)
  {
    if s == [] then []
    else
      assert s == [s[0]] + s[1..];
      InsertDesc(s[0], SortDesc(s[1..], key), key)
  }

  /** Two orderings of the same rows hold the same rows. */
  lemma SameElements<T>(a: seq<T>, b: seq<T>)
    requires multiset(a) == multiset(b)
    ensures forall k :: 0 <= k < |a| ==> a[k] in b
    ensures forall k :: 0 <= k < |b| ==> b[k] in a
  {
    forall k | 0 <= k < |a| ensures a[k] in b {
      assert a[k] in multiset(a);
    }
    forall k | 0 <= k < |b| ensures b[k] in a {
      assert b[k] in multiset(b);
    }
  }

  /** `SELECT ... WHERE p ORDER BY key DESC`: exactly the rows satisfying `p`, newest (largest
      key) first. */
  function SelectDesc<T>(s: seq<T>, p: T -> bool, key: T -> int): (r: seq<T>)
    ensures |r| == |Filter(s, p)| <= |s|
    ensures SortedDesc(r, key)
    ensures forall k :: 0 <= k < |r| ==> r[k] in s && p(r[k])
    ensures forall j :: 0 <= j < |s| && p(s[j]) ==> s[j] in r
  {
    var f := Filter(s, p);
    var r := SortDesc(f, key);
    SameElements(r, f);
    r
  }

  /** A reordering `b` of `a` holds the same rows, and a property of every row of `a` holds of
      every row of `b`. */
  lemma Reordered<T>(a: seq<T>, b: seq<T>, P: T -> bool)
    requires multiset(a) == multiset(b)
    requires forall k :: 0 <= k < |a| ==> P(a[k])
    ensures forall k :: 0 <= k < |b| ==> P(b[k])
    ensures forall x :: x in a <==> x in b
  {
    forall k | 0 <= k < |b| ensures P(b[k]) {
      assert b[k] in multiset(a);
      var i :| 0 <= i < |a| && a[i] == b[k];
    }
    forall x ensures x in a <==> x in b {
      assert x in a <==> x in multiset(a);
    }
  }

  /** A property every row of `a` has is had by every row of `b` drawn from `a`. */
  lemma Inherits<T>(a: seq<T>, b: seq<T>, P: T -> bool)
    requires forall k :: 0 <= k < |b| ==> b[k] in a
    requires forall k :: 0 <= k < |a| ==> P(a[k])
    ensures forall k :: 0 <= k < |b| ==> P(b[k])
  {
    forall k | 0 <= k < |b| ensures P(b[k]) {
      var i :| 0 <= i < |a| && a[i] == b[k];
    }
  }

  /** A property every row of two lists has is had by every row of their concatenation. */
  lemma BothInherit<T>(a: seq<T>, b: seq<T>, P: T -> bool)
    requires forall k :: 0 <= k < |a| ==> P(a[k])
    requires forall k :: 0 <= k < |b| ==> P(b[k])
    ensures forall k :: 0 <= k < |a + b| ==> P((a + b)[k])
  {
    forall k | 0 <= k < |a + b| ensures P((a + b)[k]) {
      if k < |a| { assert (a + b)[k] == a[k]; } else { assert (a + b)[k] == b[k - |a|]; }
    }
  }

  /** `LIMIT n`. */
  function Take<T>(s: seq<T>, n: nat): (r: seq<T>)
    ensures |r| == if n < |s| then n else |s|
    ensures r == s[..|r|]
  {
    if n < |s| then s[..n] else s
  }

  /** Cutting a list sorted largest first keeps the largest elements: whatever is cut off is
      no larger than the last element kept. */
  lemma TakeKeepsLargest<T>(s: seq<T>, n: nat, key: T -> int)
    requires SortedDesc(s, key)
    ensures var r := Take(s, n);
      |r| > 0 ==> forall x :: x in s && x !in r ==> key(x) <= key(r[|r| - 1])
  {
    var r := Take(s, n);
    forall x | x in s && x !in r && |r| > 0
      ensures key(x) <= key(r[|r| - 1])
    {
      var j :| 0 <= j < |s| && s[j] == x;
      assert j >= |r|;
    }
  }

  /** How many of `count` rows `LIMIT limit OFFSET offset` returns. */
  function WindowLength(count: nat, offset: nat, limit: nat): nat
  {
    if offset >= count then 0 else if offset + limit < count then limit else count - offset
  }

  /** `LIMIT limit OFFSET offset`. */
  function Window<T>(s: seq<T>, offset: nat, limit: nat): (r: seq<T>)
    ensures |r| <= limit
    ensures |r| == WindowLength(|s|, offset, limit)
    ensures forall k :: 0 <= k < |r| ==> offset + k < |s| && r[k] == s[offset + k]
  {
    if offset >= |s| then [] else Take(s[offset..], limit)
  }

  /** The index `Array.prototype.slice` uses for an argument `i` on a list of length `len`. */
  function SliceIndex(i: int, len: nat): (r: nat)
    ensures r <= len
  {
    if i < 0 then (if len + i < 0 then 0 else len + i) else if i > len then len else i
  }

  /** `s.slice(start, end)`. */
  function JsSlice<T>(s: seq<T>, start: int, end: int): seq<T>
  {
    var a := SliceIndex(start, |s|);
    var b := SliceIndex(end, |s|);
    if a < b then s[a..b] else []
  }

  /** Math.ceil(n / d) for a natural n and a positive d. */
  function CeilDiv(n: nat, d: nat): (r: nat)
    requires d > 0
    ensures r * d >= n
    ensures r == 0 || (r - 1) * d < n
  {
    if n == 0 then 0 else 1 + CeilDiv(if n < d then 0 else n - d, d)
  }

  /** `items.slice((page - 1) * per, (page - 1) * per + per)`: the rows shown on a page. */
  function PageSlice<T>(s: seq<T>, page: int, per: nat): seq<T>
  {
    JsSlice(s, (page - 1) * per, (page - 1) * per + per)
  }

  /** `Math.ceil(items.length / per)`. */
  function TotalPages<T>(s: seq<T>, per: nat): nat
    requires per > 0
  {
    CeilDiv(|s|, per)
  }

  /** Each page from 1 to totalPages shows between 1 and `per` rows, namely the rows from
      (page - 1) * per on. */
  lemma PageSliceShape<T>(s: seq<T>, page: int, per: nat)
    requires per > 0 && 1 <= page <= TotalPages(s, per)
    ensures 1 <= |PageSlice(s, page, per)| <= per
    ensures var start := (page - 1) * per;
      && 0 <= start && start + |PageSlice(s, page, per)| <= |s|
      && PageSlice(s, page, per) == s[start..start + |PageSlice(s, page, per)|]
  {
    var n := TotalPages(s, per);
    var start := (page - 1) * per;
    MulMono(page - 1, n - 1, per);
    assert start < |s|;
    assert SliceIndex(start, |s|) == start;
    assert PageSlice(s, page, per) == JsSlice(s, start, start + per);
  }

  /** Row `k` of a page is row `start + k` of the list, where `start` is where the page begins. */
  lemma PageSliceAt<T>(s: seq<T>, page: int, per: nat, k: nat)
    requires k < |PageSlice(s, page, per)|
    ensures var a := SliceIndex((page - 1) * per, |s|); a + k < |s| && PageSlice(s, page, per)[k] == s[a + k]
  {
    var a := SliceIndex((page - 1) * per, |s|);
    var b := SliceIndex((page - 1) * per + per, |s|);
    assert PageSlice(s, page, per) == if a < b then s[a..b] else [];
  }

  lemma MulMono(a: nat, b: nat, per: nat)
    requires a <= b
    ensures a * per <= b * per
  {
  }

  /** Showing pages 1 .. totalPages one after the other shows every row exactly once, in order. */
  lemma {:induction false} PagesCoverAll<T>(s: seq<T>, per: nat)
    requires per > 0
    ensures Pages(s, per, TotalPages(s, per)) == s
  {
    PagesPrefix(s, per, TotalPages(s, per), TotalPages(s, per) * per);
    var n := TotalPages(s, per);
    if n > 0 {
      assert (n - 1) * per < |s|;
    }
  }

  /** Pages 1 .. n, concatenated. */
  function Pages<T>(s: seq<T>, per: nat, n: nat): seq<T>
  {
    if n == 0 then [] else Pages(s, per, n - 1) + PageSlice(s, n, per)
  }

  lemma NextMultiple(n: nat, per: nat)
    requires n > 0
    ensures n * per == (n - 1) * per + per
    ensures (n - 1) * per >= 0
  {
  }

  lemma {:induction false} PagesPrefix<T>(s: seq<T>, per: nat, n: nat, shown: nat)
    requires per > 0 && shown == n * per
    ensures Pages(s, per, n) == s[..if shown < |s| then shown else |s|]
  {
    if n > 0 {
      NextMultiple(n, per);
      var a := shown - per;
      PagesPrefix(s, per, n - 1, a);
      var lo := if a < |s| then a else |s|;
      var hi := if shown < |s| then shown else |s|;
      assert PageSlice(s, n, per) == JsSlice(s, a, shown);
      assert SliceIndex(a, |s|) == lo && SliceIndex(shown, |s|) == hi;
      assert s[..lo] + s[lo..hi] == s[..hi];
    }
  }
}
