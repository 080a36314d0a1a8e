/** `clean_amount` (app.py:80-100): a raw amount cell becomes a canonical
    numeric string, or "" when no number can be recovered. */
module Amount {
  import opened Wrappers
  import opened Text

  /** One match of `(?i)\bUSD\b` at `i`: "usd" in any case with a word boundary on each side. */
  predicate UsdAt(s: string, i: nat) {
    i + 3 <= |s| && Lower(s[i..i + 3]) == "usd"
    && (i == 0 || !IsWordChar(s[i - 1]))
    && (i + 3 == |s| || !IsWordChar(s[i + 3]))
  }

  /** `re.sub(r"(?i)\bUSD\b", "", s)` applied to `s[i..]`, scanning left to right as re.sub does. */
  function RemoveUsdFrom(s: string, i: nat): (r: string)
    requires i <= |s|
    ensures |r| <= |s| - i
    decreases |s| - i
  {
    if i == |s| then []
    else if UsdAt(s, i) then RemoveUsdFrom(s, i + 3)
    else [s[i]] + RemoveUsdFrom(s, i + 1)
  }

  /** `s.replace("\u00A0", " ")`: a non-breaking space becomes a blank. */
  function ReplaceNbsp(s: string): (r: string)
    ensures |r| == |s|
    ensures forall k :: 0 <= k < |s| ==> r[k] == if s[k] == '\U{A0}' then ' ' else s[k]
    decreases |s|
  {
    if s == [] then []
    else
      var r := [if s[0] == '\U{A0}' then ' ' else s[0]] + ReplaceNbsp(s[1..]);
      assert forall k :: 1 <= k < |s| ==> r[k] == ReplaceNbsp(s[1..])[k - 1] && s[1..][k - 1] == s[k];
      r
  }

  /** `s.replace("$", "").replace(",", "")`. */
  function DropCurrencyMarks(s: string): (r: string)
    ensures |r| <= |s|
    ensures forall k :: 0 <= k < |r| ==> r[k] != '$' && r[k] != ','
    decreases |s|
  {
    if s == [] then [] else (if s[0] == '$' || s[0] == ',' then [] else [s[0]]) + DropCurrencyMarks(s[1..])
  }

  /** The text left for the number search and whether it stood in parentheses. */
  datatype Prepared = Prepared(negative: bool, body: string)

  /** app.py:86-89: a value wrapped in parentheses is negative; the parentheses go. */
  function Unwrap(s: string): (r: Prepared)
    ensures r.negative ==> |r.body| + 2 <= |s| && NoOuterSpace(r.body)
    ensures !r.negative ==> r.body == s
  {
    if |s| > 0 && s[0] == '(' && s[|s| - 1] == ')' then Prepared(true, Strip(s[1..|s| - 1]))
    else Prepared(false, s)
  }

  /** app.py:81-89: strip, NBSP to blank, drop "USD", "$" and ",", strip, then unwrap "( … )". */
  function Prepare(raw: string): (r: Prepared)
    ensures NoOuterSpace(r.body) && |r.body| <= |raw|
  {
    Unwrap(Strip(DropCurrencyMarks(RemoveUsdFrom(ReplaceNbsp(Strip(raw)), 0))))
  }

  /** The whole string is `\d+(?:\.\d+)?`. */
  predicate IsUnsignedNumeral(u: string) {
    var n := DigitRun(u, 0);
    0 < n && (n == |u| || (u[n] == '.' && n + 1 < |u| && AllDigits(u[n + 1..])))
  }

  /** The whole string is `-?\d+(?:\.\d+)?`. */
  predicate IsNumeral(t: string) {
    |t| > 0 && if t[0] == '-' then IsUnsignedNumeral(t[1..]) else IsUnsignedNumeral(t)
  }

  /** `re.match(r"^-?\d+\.0+$", t)`: an integer value written with a fraction of zeros. */
  predicate ZeroFraction(t: string) {
    var u := if |t| > 0 && t[0] == '-' then t[1..] else t;
    var n := DigitRun(u, 0);
    0 < n && n + 1 < |u| && u[n] == '.' && ZerosAfter(u, n)
  }

  /** Every character of `u` after position `n` is '0'. */
  predicate ZerosAfter(u: string, n: nat) {
    forall k :: n < k < |u| ==> u[k] == '0'
  }

  /** The end of `\d+(?:\.\d+)?` matched greedily from the digit at `i`. */
  function NumberEnd(s: string, i: nat): (e: nat)
    requires i < |s| && IsDigit(s[i])
    ensures i < e <= |s|
  {
    var e1 := i + DigitRun(s, i);
    if e1 + 1 < |s| && s[e1] == '.' && IsDigit(s[e1 + 1]) then e1 + 1 + DigitRun(s, e1 + 1) else e1
  }

  /** A match of `-?\d+(?:\.\d+)?` starting exactly at `i`; `-?` gives way when no digit follows it. */
  function NumberAt(s: string, i: nat): (r: Option<string>)
    requires i <= |s|
    ensures r.Some? ==> r.value != [] && i + |r.value| <= |s| && r.value == s[i..i + |r.value|]
  {
    if i < |s| && IsDigit(s[i]) then Some(s[i..NumberEnd(s, i)])
    else if i + 1 < |s| && s[i] == '-' && IsDigit(s[i + 1]) then Some(s[i..NumberEnd(s, i + 1)])
    else None
  }

  /** `re.search(r"-?\d+(?:\.\d+)?", s[i..])`: the match that starts at the first position
      where one starts; there is one exactly when a digit is left, and it is a numeral. */
  function FirstNumber(s: string, i: nat): (r: Option<string>)
    requires i <= |s|
    ensures r.None? <==> DigitsOf(s[i..]) == []
    ensures r.None? ==> forall k :: i <= k < |s| ==> NumberAt(s, k).None?
    ensures r.Some? ==> exists j :: i <= j < |s| && NumberAt(s, j) == r && NoNumberBetween(s, i, j)
    ensures r.Some? ==> IsNumeral(r.value)
    decreases |s| - i
  {
    if i == |s| then None
    else
      DigitsOfFrom(s, i);
      match NumberAt(s, i)
      case Some(m) =>
        NumberAtIsNumeral(s, i);
        NumberAtHasDigit(s, i);
        Some(m)
      case None => FirstNumber(s, i + 1)
  }

  /** No match of the number pattern starts in `s[i..j]`. */
  predicate NoNumberBetween(s: string, i: nat, j: nat)
    requires j <= |s|
  {
    forall k :: i <= k < j ==> NumberAt(s, k).None?
  }

  /** `re.search` on `s` finds its match at `j`: one starts there and none starts earlier. */
  predicate LeftmostNumber(s: string, j: nat) {
    j < |s| && NumberAt(s, j).Some? && NoNumberBetween(s, 0, j)
  }

  /** `r` is what app.py:91-100 makes of a match found at `j` in the prepared text `p`. */
  predicate FinishedAt(p: Prepared, j: nat, r: string) {
    LeftmostNumber(p.body, j) && r == Collapse(Signed(p.negative, NumberAt(p.body, j).value))
  }

  function DigitValue(c: char): nat
    requires IsDigit(c)
  {
    c as int - '0' as int
  }

  /** The value of a string of decimal digits. */
  function ValueOf(d: string): nat
    requires AllDigits(d)
    decreases |d|
  {
    if d == [] then 0 else ValueOf(d[..|d| - 1]) * 10 + DigitValue(d[|d| - 1])
  }

  /** `str(n)`: the decimal digits of `n`, with no leading zero. */
  function DecimalOf(n: nat): (r: string)
    ensures |r| > 0 && AllDigits(r) && ValueOf(r) == n
    ensures r[0] == '0' <==> n == 0
    ensures n == 0 ==> r == "0"
    decreases n
  {
    if n < 10 then [('0' as int + n) as char]
    else
      var r := DecimalOf(n / 10) + [('0' as int + n % 10) as char];
      assert r[..|r| - 1] == DecimalOf(n / 10);
      r
  }

  /** `str(int(float(t)))` for a `t` with an all-zero fraction, computed exactly
      (the sign of a zero is dropped). */
  function IntegerString(t: string): (r: string)
    requires ZeroFraction(t)
  {
    var neg := t[0] == '-';
    var u := if neg then t[1..] else t;
    var v := ValueOf(u[..DigitRun(u, 0)]);
    if neg && v != 0 then "-" + DecimalOf(v) else DecimalOf(v)
  }

  /** app.py:96-97: a parenthesised value gets a minus sign unless it already has one. */
  function Signed(negative: bool, num: string): (r: string)
    requires |num| > 0
    ensures r == num || r == "-" + num
    ensures r[0] == '-' <==> negative || num[0] == '-'
  {
    if negative && num[0] != '-' then "-" + num else num
  }

  /** app.py:98-99: an all-zero fraction collapses to the integer. */
  function Collapse(num: string): (r: string)
    ensures !ZeroFraction(num) ==> r == num
    ensures IsNumeral(num) ==> IsNumeral(r) && !ZeroFraction(r)
  {
    if ZeroFraction(num) then
      IntegerStringCanonical(num);
      IntegerString(num)
    else num
  }

  /** app.py:91-100: the leftmost number of the prepared text, signed and collapsed; "" when
      there is none. A result is a whole numeral whose fraction, if any, is not all zeros. */
  function Finish(p: Prepared): (r: string)
    ensures r == "" <==> DigitsOf(p.body) == []
    ensures r == "" ==> NoNumberBetween(p.body, 0, |p.body|)
    ensures r != "" ==> exists j :: FinishedAt(p, j, r)
    ensures r != "" ==> IsNumeral(r) && !ZeroFraction(r)
  {
    assert p.body[0..] == p.body;
    match FirstNumber(p.body, 0)
    case None => ""
    case Some(num) =>
      FinishCanonical(p.negative, num);
      FinishedAtSearch(p, num);
      Collapse(Signed(p.negative, num))
  }

  /** Only one position is leftmost, so the contracts of `Finish` and `CleanAmount` fix the result. */
  lemma FinishedAtUnique(p: Prepared, j1: nat, r1: string, j2: nat, r2: string)
    requires FinishedAt(p, j1, r1) && FinishedAt(p, j2, r2)
    ensures j1 == j2 && r1 == r2
  {
  }

  /** The match `re.search` returns is the one at the leftmost position where a match starts. */
  lemma FinishedAtSearch(p: Prepared, num: string)
    requires FirstNumber(p.body, 0) == Some(num)
    ensures |num| > 0 && exists j :: FinishedAt(p, j, Collapse(Signed(p.negative, num)))
  {
    var j :| 0 <= j < |p.body| && NumberAt(p.body, j) == Some(num) && NoNumberBetween(p.body, 0, j);
    assert FinishedAt(p, j, Collapse(Signed(p.negative, num)));
  }

  /** `clean_amount`: None and "" give "", as does a cell with no digit in it; any other
      cell gives the leftmost number of the prepared text, signed when the cell stood in
      parentheses and collapsed when its fraction is all zeros, a canonical numeral. */
  function CleanAmount(x: Option<string>): (r: string)
    ensures r == "" <==> DigitsOf(x.GetOr("")) == []
    ensures r != "" ==> exists j :: FinishedAt(Prepare(x.GetOr("")), j, r)
    ensures r != "" ==> IsNumeral(r) && !ZeroFraction(r)
  {
    PrepareKeepsDigits(x.GetOr(""));
    Finish(Prepare(x.GetOr("")))
  }

  // ---------------------------------------------------------------------------
  // Digits survive every rewriting step

  lemma {:induction false} DigitsOfAppend(a: string, b: string)
    ensures DigitsOf(a + b) == DigitsOf(a) + DigitsOf(b)
    decreases |a|
  {
    if a == [] {
      assert a + b == b;
    } else {
      var h := if IsDigit(a[0]) then [a[0]] else [];
      assert (a + b)[1..] == a[1..] + b;
      assert DigitsOf(a + b) == h + DigitsOf(a[1..] + b);
      DigitsOfAppend(a[1..], b);
      assert h + (DigitsOf(a[1..]) + DigitsOf(b)) == (h + DigitsOf(a[1..])) + DigitsOf(b);
    }
  }

  lemma DigitsOfFrom(s: string, i: nat)
    requires i < |s|
    ensures DigitsOf(s[i..]) == (if IsDigit(s[i]) then [s[i]] else []) + DigitsOf(s[i + 1..])
  {
    assert s[i..][1..] == s[i + 1..];
  }

  lemma {:induction false} DigitsOfNone(s: string)
    requires forall k :: 0 <= k < |s| ==> !IsDigit(s[k])
    ensures DigitsOf(s) == []
    decreases |s|
  {
    if s != [] { DigitsOfNone(s[1..]); }
  }

  lemma DigitsOfAllSpace(s: string)
    requires AllSpace(s)
    ensures DigitsOf(s) == []
  {
    DigitsOfNone(s);
  }

  lemma DigitsOfStrip(s: string)
    ensures DigitsOf(Strip(s)) == DigitsOf(s)
  {
    var pre, post := StripSplit(s);
    DigitsOfAppend(pre + Strip(s), post);
    DigitsOfAppend(pre, Strip(s));
    DigitsOfAllSpace(pre);
    DigitsOfAllSpace(post);
  }

  lemma {:induction false} DigitsOfReplaceNbsp(s: string)
    ensures DigitsOf(ReplaceNbsp(s)) == DigitsOf(s)
    decreases |s|
  {
    if s != [] {
      DigitsOfReplaceNbsp(s[1..]);
      DigitsOfAppend([if s[0] == '\U{A0}' then ' ' else s[0]], ReplaceNbsp(s[1..]));
    }
  }

  lemma {:induction false} DigitsOfRemoveUsd(s: string, i: nat)
    requires i <= |s|
    ensures DigitsOf(RemoveUsdFrom(s, i)) == DigitsOf(s[i..])
    decreases |s| - i
  {
    if i < |s| {
      if UsdAt(s, i) {
        DigitsOfRemoveUsd(s, i + 3);
        assert s[i..] == s[i..i + 3] + s[i + 3..];
        DigitsOfAppend(s[i..i + 3], s[i + 3..]);
        var w := s[i..i + 3];
        forall k | 0 <= k < 3 ensures !IsDigit(w[k]) {
          assert Lower(w)[k] == ToLower(w[k]);
          assert Lower(w)[k] == "usd"[k];
        }
        DigitsOfNone(w);
      } else {
        DigitsOfRemoveUsd(s, i + 1);
        DigitsOfFrom(s, i);
        DigitsOfAppend([s[i]], RemoveUsdFrom(s, i + 1));
      }
    }
  }

  lemma {:induction false} DigitsOfDropCurrencyMarks(s: string)
    ensures DigitsOf(DropCurrencyMarks(s)) == DigitsOf(s)
    decreases |s|
  {
    if s != [] {
      DigitsOfDropCurrencyMarks(s[1..]);
      DigitsOfAppend(if s[0] == '$' || s[0] == ',' then [] else [s[0]], DropCurrencyMarks(s[1..]));
    }
  }

  lemma DigitsOfUnwrap(s: string)
    ensures DigitsOf(Unwrap(s).body) == DigitsOf(s)
  {
    if |s| > 0 && s[0] == '(' && s[|s| - 1] == ')' {
      var mid := s[1..|s| - 1];
      assert s == [s[0]] + mid + [s[|s| - 1]];
      DigitsOfAppend([s[0]] + mid, [s[|s| - 1]]);
      DigitsOfAppend([s[0]], mid);
      DigitsOfStrip(mid);
    }
  }

  /** Preparing the text for the number search removes no digit. */
  lemma PrepareKeepsDigits(raw: string)
    ensures DigitsOf(Prepare(raw).body) == DigitsOf(raw)
  {
    var s0 := Strip(raw);
    var s1 := ReplaceNbsp(s0);
    var s2 := RemoveUsdFrom(s1, 0);
    var s3 := DropCurrencyMarks(s2);
    var s4 := Strip(s3);
    DigitsOfStrip(raw);
    DigitsOfReplaceNbsp(s0);
    DigitsOfRemoveUsd(s1, 0);
    assert s1[0..] == s1;
    DigitsOfDropCurrencyMarks(s2);
    DigitsOfStrip(s3);
    DigitsOfUnwrap(s4);
  }

  // ---------------------------------------------------------------------------
  // The number search

  lemma {:induction false} DigitRunShift(s: string, j: nat, i: nat)
    requires j + i <= |s|
    ensures DigitRun(s[j..], i) == DigitRun(s, j + i)
    decreases |s| - (j + i)
  {
    if j + i < |s| && IsDigit(s[j + i]) { DigitRunShift(s, j, i + 1); }
  }

  lemma UnsignedAt(s: string, i: nat)
    requires i < |s| && IsDigit(s[i])
    ensures IsUnsignedNumeral(s[i..NumberEnd(s, i)])
  {
    var e := NumberEnd(s, i);
    var u := s[i..e];
    var d := DigitRun(s, i);
    assert forall k :: 0 <= k < d ==> u[k] == s[i + k];
    DigitRunIs(u, 0, d);
    if e > i + d {
      assert u[d] == s[i + d];
      assert u[d + 1..] == s[i + d + 1..e];
    }
  }

  lemma NumberAtHasDigit(s: string, i: nat)
    requires i <= |s| && NumberAt(s, i).Some?
    ensures DigitsOf(s[i..]) != []
  {
    DigitsOfFrom(s, i);
    if !IsDigit(s[i]) { DigitsOfFrom(s, i + 1); }
  }

  lemma NumberAtIsNumeral(s: string, i: nat)
    requires i <= |s|
    ensures NumberAt(s, i).Some? ==> IsNumeral(NumberAt(s, i).value)
  {
    if i < |s| && IsDigit(s[i]) {
      UnsignedAt(s, i);
    } else if i + 1 < |s| && s[i] == '-' && IsDigit(s[i + 1]) {
      UnsignedAt(s, i + 1);
      assert s[i..NumberEnd(s, i + 1)][1..] == s[i + 1..NumberEnd(s, i + 1)];
    }
  }

  // ---------------------------------------------------------------------------
  // Properties of clean_amount

  /** Signing and collapsing a numeral gives a numeral with no all-zero fraction. */
  lemma FinishCanonical(negative: bool, num: string)
    requires IsNumeral(num)
    ensures var r := Collapse(Signed(negative, num)); r != "" && IsNumeral(r) && !ZeroFraction(r)
  {
    var signed := Signed(negative, num);
    if negative && num[0] != '-' { NegatedNumeral(num); }
    if ZeroFraction(signed) { IntegerStringCanonical(signed); }
  }

  lemma DigitsAreNumeral(d: string)
    requires |d| > 0 && AllDigits(d)
    ensures IsUnsignedNumeral(d) && IsNumeral(d) && !ZeroFraction(d)
  {
    DigitRunIs(d, 0, |d|);
  }

  lemma NegatedNumeral(u: string)
    requires IsUnsignedNumeral(u)
    ensures IsNumeral("-" + u)
  {
    assert ("-" + u)[1..] == u;
  }

  lemma IntegerStringCanonical(t: string)
    requires ZeroFraction(t)
    ensures IsNumeral(IntegerString(t)) && !ZeroFraction(IntegerString(t))
  {
    var neg := t[0] == '-';
    var u := if neg then t[1..] else t;
    var v := ValueOf(u[..DigitRun(u, 0)]);
    var d := DecimalOf(v);
    DigitsAreNumeral(d);
    if neg && v != 0 {
      NegatedNumeral(d);
      assert ("-" + d)[1..] == d;
    }
  }

  /** Characters that every rewriting step before the number search leaves alone. */
  predicate Inert(s: string) {
    forall k :: 0 <= k < |s| ==> IsDigit(s[k]) || s[k] == '-' || s[k] == '.' || s[k] == '(' || s[k] == ')'
  }

  /** No non-breaking space in `s`. */
  predicate NoNbsp(s: string) {
    forall k :: 0 <= k < |s| ==> s[k] != '\U{A0}'
  }

  /** No "u" or "U" in `s`, so no "USD" either. */
  predicate NoLetterU(s: string) {
    forall k :: 0 <= k < |s| ==> ToLower(s[k]) != 'u'
  }

  lemma {:induction false} NoNbspReplace(s: string)
    requires NoNbsp(s)
    ensures ReplaceNbsp(s) == s
    decreases |s|
  {
    if s != [] { NoNbspReplace(s[1..]); }
  }

  lemma {:induction false} InertDropCurrencyMarks(s: string)
    requires Inert(s)
    ensures DropCurrencyMarks(s) == s
    decreases |s|
  {
    if s != [] { InertDropCurrencyMarks(s[1..]); }
  }

  lemma {:induction false} DropCurrencyMarksAppend(a: string, b: string)
    ensures DropCurrencyMarks(a + b) == DropCurrencyMarks(a) + DropCurrencyMarks(b)
    decreases |a|
  {
    if a == [] {
      assert a + b == b;
    } else {
      assert (a + b)[0] == a[0] && (a + b)[1..] == a[1..] + b;
      DropCurrencyMarksAppend(a[1..], b);
    }
  }

  lemma {:induction false} NoUsdRemove(s: string, i: nat)
    requires i <= |s| && forall k :: i <= k < |s| ==> ToLower(s[k]) != 'u'
    ensures RemoveUsdFrom(s, i) == s[i..]
    decreases |s| - i
  {
    if i < |s| {
      assert !UsdAt(s, i) by {
        if i + 3 <= |s| { assert Lower(s[i..i + 3])[0] == ToLower(s[i]); }
      }
      NoUsdRemove(s, i + 1);
      assert s[i..] == [s[i]] + s[i + 1..];
    }
  }

  /** Text made only of digits, signs, points and parentheses reaches the number search unchanged,
      except that an outer pair of parentheses is removed and marks the value negative. */
  lemma InertPrepare(s: string)
    requires Inert(s) && NoOuterSpace(s)
    ensures Prepare(s) == if |s| >= 2 && s[0] == '(' && s[|s| - 1] == ')' then Prepared(true, Strip(s[1..|s| - 1])) else Prepared(false, s)
  {
    NoNbspReplace(s);
    NoUsdRemove(s, 0);
    assert s[0..] == s;
    InertDropCurrencyMarks(s);
  }

  lemma NumeralIsInert(t: string)
    requires IsNumeral(t)
    ensures Inert(t) && NoOuterSpace(t)
  {
    var u := if t[0] == '-' then t[1..] else t;
    var n := DigitRun(u, 0);
    forall k | 0 <= k < |t| ensures IsDigit(t[k]) || t[k] == '-' || t[k] == '.' {
      if t[0] == '-' && k > 0 { assert t[k] == u[k - 1]; }
      if t[0] != '-' { assert t[k] == u[k]; }
      if n < |u| && (k - (if t[0] == '-' then 1 else 0)) > n {
        assert u[n + 1..][k - (if t[0] == '-' then 1 else 0) - n - 1] == u[k - (if t[0] == '-' then 1 else 0)];
      }
    }
    if n < |u| {
      assert u[n + 1..][|u| - n - 2] == u[|u| - 1];
    }
    assert t[|t| - 1] == u[|u| - 1];
  }

  lemma NumeralFound(t: string)
    requires IsNumeral(t)
    ensures FirstNumber(t, 0) == Some(t)
  {
    if t[0] == '-' {
      var u := t[1..];
      DigitRunShift(t, 1, 0);
      var n := DigitRun(u, 0);
      assert IsDigit(t[1]) by { assert t[1] == u[0]; }
      if n < |u| {
        assert t[1 + n] == u[n];
        var tail := u[n + 1..];
        assert forall k :: n + 2 <= k < |t| ==> t[k] == tail[k - n - 2];
        assert IsDigit(tail[0]);
        DigitRunIs(t, n + 2, |u| - n - 1);
      }
      assert NumberEnd(t, 1) == |t|;
      assert t[0..|t|] == t;
    } else {
      var n := DigitRun(t, 0);
      if n < |t| {
        var tail := t[n + 1..];
        assert forall k :: n + 1 <= k < |t| ==> t[k] == tail[k - n - 1];
        assert IsDigit(tail[0]);
        DigitRunIs(t, n + 1, |t| - n - 1);
      }
      assert NumberEnd(t, 0) == |t|;
      assert t[0..|t|] == t;
    }
  }

  /** A numeral is returned as it is, unless its fraction is all zeros, when it becomes the integer. */
  lemma NumeralFixpoint(t: string)
    requires IsNumeral(t)
    ensures CleanAmount(Some(t)) == if ZeroFraction(t) then IntegerString(t) else t
  {
    NumeralIsInert(t);
    InertPrepare(t);
    NumeralFound(t);
  }

  /** Cleaning a cleaned amount changes nothing. */
  lemma CleanAmountIdempotent(x: Option<string>)
    ensures CleanAmount(Some(CleanAmount(x))) == CleanAmount(x)
  {
    var r := CleanAmount(x);
    if r != "" {
      NumeralFixpoint(r);
    }
  }

  lemma ParenthesizedPrepare(t: string)
    requires |t| > 0 && AllDigits(t)
    ensures Prepare("(" + t + ")") == Prepared(true, t)
  {
    var s := "(" + t + ")";
    assert s[1..|s| - 1] == t;
    assert Inert(s) by {
      forall k | 0 <= k < |s| ensures IsDigit(s[k]) || s[k] == '(' || s[k] == ')' {
        if 0 < k < |s| - 1 { assert s[k] == t[k - 1]; }
      }
    }
    assert NoOuterSpace(s);
    InertPrepare(s);
    DigitsAreNumeral(t);
    NumeralIsInert(t);
    assert Strip(t) == t;
    assert s[0] == '(' && s[|s| - 1] == ')';
  }

  lemma FinishNegatedDigits(t: string)
    requires |t| > 0 && AllDigits(t)
    ensures Finish(Prepared(true, t)) == "-" + t
  {
    DigitsAreNumeral(t);
    NumeralFound(t);
    assert t[0..] == t;
    assert ("-" + t)[1..] == t;
    assert !ZeroFraction("-" + t);
  }

  /** A whole-cell "(digits)" is the negative of those digits. */
  lemma ParenthesizedDigits(t: string)
    requires |t| > 0 && AllDigits(t)
    ensures CleanAmount(Some("(" + t + ")")) == "-" + t
  {
    ParenthesizedPrepare(t);
    FinishNegatedDigits(t);
  }

  /** Cells in the shapes the extractor meets. */
  lemma CleanAmountExamples()
    ensures CleanAmount(None) == ""
    ensures CleanAmount(Some("n/a")) == ""
  {
    assert DigitsOf("n/a") == [] by {
      assert "n/a"[1..] == "/a" && "/a"[1..] == "a" && "a"[1..] == "";
    }
  }

  /** A numeral with its leading digit group split by a thousands comma and prefixed by "$":
      `s == "$" + p + "," + q`, with all its characters untouched by the blank and "USD" steps. */
  lemma CurrencyCellChars(p: string, q: string)
    requires |p| > 0 && AllDigits(p) && Inert(q)
    ensures var s := "$" + p + "," + q; NoNbsp(s) && NoLetterU(s)
  {
    var s := "$" + p + "," + q;
    forall k | 0 <= k < |s| ensures s[k] != '\U{A0}' && ToLower(s[k]) != 'u' {
      if 0 < k <= |p| { assert s[k] == p[k - 1]; }
      else if k > |p| + 1 { assert s[k] == q[k - |p| - 2]; }
    }
  }

  lemma DropMark(c: char)
    requires c == '$' || c == ','
    ensures DropCurrencyMarks([c]) == []
  {
    assert [c][1..] == [];
  }

  lemma DropMarksOfCurrencyCell(p: string, q: string)
    requires Inert(p) && Inert(q)
    ensures DropCurrencyMarks(['$'] + p + [','] + q) == p + q
  {
    var a := ['$'] + p;
    var b := a + [','];
    DropCurrencyMarksAppend(['$'], p);
    DropMark('$');
    InertDropCurrencyMarks(p);
    assert DropCurrencyMarks(a) == p;
    DropCurrencyMarksAppend(a, [',']);
    DropMark(',');
    assert DropCurrencyMarks(b) == p;
    DropCurrencyMarksAppend(b, q);
    InertDropCurrencyMarks(q);
  }

  /** The blank, "USD" and currency-mark steps turn "$" + p + "," + q into p + q. */
  lemma CurrencyCellCleanup(p: string, q: string)
    requires |p| > 0 && AllDigits(p) && Inert(q) && NoOuterSpace(q) && |q| > 0
    ensures var s := "$" + p + "," + q;
      DropCurrencyMarks(RemoveUsdFrom(ReplaceNbsp(Strip(s)), 0)) == p + q
  {
    var s := "$" + p + "," + q;
    CurrencyCellUntouched(p, q);
    assert Inert(p);
    assert s == ['$'] + p + [','] + q;
    DropMarksOfCurrencyCell(p, q);
  }

  /** The blank and "USD" steps leave "$" + p + "," + q as it is. */
  lemma CurrencyCellUntouched(p: string, q: string)
    requires |p| > 0 && AllDigits(p) && Inert(q) && NoOuterSpace(q) && |q| > 0
    ensures var s := "$" + p + "," + q; RemoveUsdFrom(ReplaceNbsp(Strip(s)), 0) == s
  {
    var s := "$" + p + "," + q;
    CurrencyCellChars(p, q);
    NoOuterSpaceCell(p, q);
    NoNbspReplace(s);
    NoUsdRemove(s, 0);
    assert s[0..] == s;
  }

  lemma NoOuterSpaceCell(p: string, q: string)
    requires |q| > 0 && NoOuterSpace(q)
    ensures var s := "$" + p + "," + q; Strip(s) == s
  {
    var s := "$" + p + "," + q;
    assert s[0] == '$' && s[|s| - 1] == q[|q| - 1];
  }

  lemma PrepareCurrencyCell(p: string, q: string)
    requires |p| > 0 && AllDigits(p) && IsUnsignedNumeral(q)
    ensures Prepare("$" + p + "," + q) == Prepared(false, p + q)
  {
    assert IsNumeral(q) by { assert IsDigit(q[0]); }
    NumeralIsInert(q);
    CurrencyCellCleanup(p, q);
    DigitsFrontUnwrap(p, q);
  }

  /** Digits in front of a stripped tail: stripping and unwrapping keep the text. */
  lemma DigitsFrontUnwrap(p: string, q: string)
    requires |p| > 0 && AllDigits(p) && |q| > 0 && NoOuterSpace(q)
    ensures Unwrap(Strip(p + q)) == Prepared(false, p + q)
  {
    var u := p + q;
    assert u[0] == p[0] && u[|u| - 1] == q[|q| - 1];
    assert NoOuterSpace(u);
  }

  lemma PrepareDigitsNumeral(p: string, q: string)
    requires |p| > 0 && AllDigits(p) && IsUnsignedNumeral(q)
    ensures Prepare(p + q) == Prepared(false, p + q)
  {
    var u := p + q;
    assert IsNumeral(q) by { assert IsDigit(q[0]); }
    NumeralIsInert(q);
    assert Inert(u) by {
      forall k | 0 <= k < |u| ensures IsDigit(u[k]) || u[k] == '-' || u[k] == '.' || u[k] == '(' || u[k] == ')' {
        if k < |p| { assert u[k] == p[k]; } else { assert u[k] == q[k - |p|]; }
      }
    }
    assert u[0] == p[0] && u[|u| - 1] == q[|q| - 1];
    InertPrepare(u);
  }

  /** "$" and "," are dropped before the number is parsed: "$1,234.50" reads as "1234.50". */
  lemma CurrencyMarksIgnored(p: string, q: string)
    requires |p| > 0 && AllDigits(p) && IsUnsignedNumeral(q)
    ensures CleanAmount(Some("$" + p + "," + q)) == CleanAmount(Some(p + q))
  {
    PrepareCurrencyCell(p, q);
    PrepareDigitsNumeral(p, q);
  }

  lemma IntegerString1234(t: string)
    requires t == "1234.00"
    ensures IsNumeral(t) && ZeroFraction(t) && IntegerString(t) == "1234"
  {
    DigitRunIs(t, 0, 4);
    assert t[5..] == "00";
    assert t[..4] == "1234";
    Value1234();
    Decimal1234();
  }

  lemma Value1234()
    ensures ValueOf("1234") == 1234
  {
    assert "1234"[..3] == "123" && "123"[..2] == "12" && "12"[..1] == "1" && "1"[..0] == "";
  }

  lemma Decimal1234()
    ensures DecimalOf(1234) == "1234"
  {
    assert DecimalOf(1) == "1";
    assert DecimalOf(12) == "1" + "2";
    assert DecimalOf(123) == "12" + "3";
    assert DecimalOf(1234) == "123" + "4";
  }

  /** The pieces of "$1,234.00": the digits before the comma and the numeral after it. */
  lemma DollarPieces(x: string, q: string)
    requires x == "$1,234.00" && q == "234.00"
    ensures x == "$" + "1" + "," + q
    ensures IsUnsignedNumeral(q)
  {
    DigitRunIs(q, 0, 3);
    assert q[4..] == "00";
  }

  /** The digit before the comma and the numeral after it, joined. */
  lemma JoinedDigits(q: string, t: string)
    requires q == "234.00" && t == "1234.00"
    ensures "1" + q == t
  {
  }

  /** "$1,234.00" gives "1234". */
  lemma DollarAmountExample(x: string)
    requires x == "$1,234.00"
    ensures CleanAmount(Some(x)) == "1234"
  {
    var q := "234.00";
    var t := "1234.00";
    DollarPieces(x, q);
    CurrencyMarksIgnored("1", q);
    JoinedDigits(q, t);
    IntegerString1234(t);
    NumeralFixpoint(t);
  }

  lemma IntegerString007(t: string)
    requires t == "007.00"
    ensures IsNumeral(t) && ZeroFraction(t) && IntegerString(t) == "7"
  {
    DigitRunIs(t, 0, 3);
    assert t[4..] == "00";
    assert t[..3] == "007";
    assert ValueOf("007") == 7 by {
      assert "007"[..2] == "00" && "00"[..1] == "0" && "0"[..0] == "";
    }
  }

  lemma IntegerStringNegZero(t: string)
    requires t == "-0.0"
    ensures IsNumeral(t) && ZeroFraction(t) && IntegerString(t) == "0"
  {
    var u := t[1..];
    assert u == "0.0";
    DigitRunIs(u, 0, 1);
    assert u[2..] == "0";
    assert u[..1] == "0";
    assert ValueOf("0") == 0 by { assert "0"[..0] == ""; }
  }

  lemma KeptFraction(t: string)
    requires t == "99.50"
    ensures IsNumeral(t) && !ZeroFraction(t)
  {
    KeptFractionNumeral(t);
    DigitRunIs(t, 0, 2);
    assert t[3] == '5';
  }

  lemma KeptFractionNumeral(t: string)
    requires t == "99.50"
    ensures IsNumeral(t)
  {
    DigitRunIs(t, 0, 2);
    assert t[0] == '9' && t[2] == '.';
    assert AllDigits(t[3..]) by { assert t[3..] == "50"; }
  }

  /** `\bUSD\b` matches at the start of "USD 99.50" and nowhere after it. */
  lemma UsdRemoved(s: string)
    requires s == "USD 99.50"
    ensures RemoveUsdFrom(s, 0) == " 99.50"
  {
    assert UsdAt(s, 0) by {
      assert Lower(s[0..3]) == [ToLower('U'), ToLower('S'), ToLower('D')];
    }
    NoUsdRemove(s, 3);
    assert s[3..] == " 99.50";
  }

  lemma UsdCellUntouched(x: string)
    requires x == "USD 99.50"
    ensures ReplaceNbsp(Strip(x)) == x
  {
    assert Strip(x) == x by { assert NoOuterSpace(x); }
    NoNbspReplace(x);
  }

  /** The blank and the numeral survive the removal of "$" and ",". */
  lemma BlankNumeralMarks(t: string, c: string)
    requires c == "99.50" && t == " " + c
    ensures DropCurrencyMarks(t) == t
  {
    DropCurrencyMarksAppend(" ", c);
    assert DropCurrencyMarks(" ") == " " by { assert " "[1..] == []; }
    KeptFractionNumeral(c);
    NumeralIsInert(c);
    InertDropCurrencyMarks(c);
  }

  lemma BlankNumeralStrip(t: string, c: string)
    requires c == "99.50" && t == " " + c
    ensures Strip(t) == c
  {
    SkipSpaceIs(t, 0, 1);
    assert t[1..] == c;
    assert NoOuterSpace(c);
  }

  /** The blank left where "USD" stood is stripped: "USD 99.50" prepares to "99.50". */
  lemma UsdPrepare(x: string)
    requires x == "USD 99.50"
    ensures Prepare(x) == Prepared(false, "99.50")
  {
    var c := "99.50";
    var t := " " + c;
    UsdCellUntouched(x);
    UsdRemoved(x);
    assert " 99.50" == t;
    BlankNumeralMarks(t, c);
    BlankNumeralStrip(t, c);
  }

  /** "USD 99.50" cleans to "99.50". */
  lemma UsdExample(x: string)
    requires x == "USD 99.50"
    ensures CleanAmount(Some(x)) == "99.50"
  {
    var c := "99.50";
    UsdPrepare(x);
    KeptFraction(c);
    NumeralFound(c);
  }

  /** "007.00" gives "7", "-0.0" gives "0" and "99.50" is kept as it is. */
  lemma FractionExamples(a: string, b: string, c: string)
    requires a == "007.00" && b == "-0.0" && c == "99.50"
    ensures CleanAmount(Some(a)) == "7"
    ensures CleanAmount(Some(b)) == "0"
    ensures CleanAmount(Some(c)) == "99.50"
  {
    IntegerString007(a);
    NumeralFixpoint(a);
    IntegerStringNegZero(b);
    NumeralFixpoint(b);
    KeptFraction(c);
    NumeralFixpoint(c);
  }
}
