/** Whitespace, case and substring helpers shared by every stage of the
    extractor: Python's `str.strip()`, `str.lower()`, `re.sub(r"\s+", " ", s)`,
    `p in s` and `s.startswith(p)`, and the two helpers `normalize_header`
    and `truncate` built from them (app.py:71-78). */
module Text {
  import opened Wrappers

  /** Python's `str.isspace()`; `\s` in a str pattern matches the same characters. */
  predicate IsSpace(c: char) {
    c == ' ' || ('\t' <= c <= '\r') || ('\U{1C}' <= c <= '\U{1F}')
    || c == '\U{85}' || c == '\U{A0}' || c == '\U{1680}'
    || ('\U{2000}' <= c <= '\U{200A}') || c == '\U{2028}' || c == '\U{2029}'
    || c == '\U{202F}' || c == '\U{205F}' || c == '\U{3000}'
  }

  predicate IsDigit(c: char) { '0' <= c <= '9' }

  predicate IsUpper(c: char) { 'A' <= c <= 'Z' }

  /** A character `\w` and `\b` treat as part of a word (ASCII letters, digits, underscore). */
  predicate IsWordChar(c: char) {
    ('a' <= c <= 'z') || IsUpper(c) || IsDigit(c) || c == '_'
  }

  function ToLower(c: char): char {
    if IsUpper(c) then (c as int - 'A' as int + 'a' as int) as char else c
  }

  /** `str.lower()` on ASCII letters. */
  function Lower(s: string): string {
    seq(|s|, i requires 0 <= i < |s| => ToLower(s[i]))
  }

  predicate AllSpace(s: string) { forall i :: 0 <= i < |s| ==> IsSpace(s[i]) }

  predicate AllDigits(s: string) { forall i :: 0 <= i < |s| ==> IsDigit(s[i]) }

  predicate NoOuterSpace(s: string) {
    s == [] || (!IsSpace(s[0]) && !IsSpace(s[|s| - 1]))
  }

  /** Every whitespace character is a blank and is not followed by another one. */
  predicate SingleSpaced(s: string) {
    (forall i :: 0 <= i < |s| && IsSpace(s[i]) ==> s[i] == ' ')
    && forall i, j :: 0 <= i < |s| && 0 <= j < |s| && j == i + 1 && IsSpace(s[i]) ==> !IsSpace(s[j])
  }

  predicate NoUpper(s: string) { forall i :: 0 <= i < |s| ==> !IsUpper(s[i]) }

  /** The shape `normalize_header` produces. */
  predicate Normalized(s: string) { NoOuterSpace(s) && SingleSpaced(s) && NoUpper(s) }

  /** The non-whitespace characters of `s`, in order. */
  function Squeeze(s: string): string
    decreases |s|
  {
    if s == [] then [] else (if IsSpace(s[0]) then [] else [s[0]]) + Squeeze(s[1..])
  }

  /** The characters of `s` that are ASCII digits, in order. */
  function DigitsOf(s: string): string
    decreases |s|
  {
    if s == [] then [] else (if IsDigit(s[0]) then [s[0]] else []) + DigitsOf(s[1..])
  }

  /** Where the whitespace run that starts at `i` ends, as a greedy `\s*` leaves it. */
  function SkipSpace(s: string, i: nat): (j: nat)
    requires i <= |s|
    ensures i <= j <= |s|
    ensures forall k :: i <= k < j ==> IsSpace(s[k])
    ensures j < |s| ==> !IsSpace(s[j])
    decreases |s| - i
  {
    if i < |s| && IsSpace(s[i]) then SkipSpace(s, i + 1) else i
  }

  /** Where the whitespace run that ends at `hi` starts, going no lower than `lo`. */
  function SpaceBefore(s: string, lo: nat, hi: nat): (j: nat)
    requires lo <= hi <= |s|
    ensures lo <= j <= hi
    ensures forall k :: j <= k < hi ==> IsSpace(s[k])
    ensures j > lo ==> !IsSpace(s[j - 1])
    decreases hi - lo
  {
    if lo < hi && IsSpace(s[hi - 1]) then SpaceBefore(s, lo, hi - 1) else hi
  }

  /** `str.strip()`: the slice between the leading and the trailing whitespace. */
  function Strip(s: string): (r: string)
    ensures NoOuterSpace(r) && |r| <= |s|
    ensures NoOuterSpace(s) ==> r == s
  {
    var a := SkipSpace(s, 0);
    var b := SpaceBefore(s, a, |s|);
    var r := s[a..b];
    assert r != [] ==> r[0] == s[a] && r[|r| - 1] == s[b - 1];
    r
  }

  /** `r` sits at `i` in `p` with only whitespace before and after it. */
  predicate TrimmedSliceAt(p: string, r: string, i: int) {
    0 <= i && i + |r| <= |p| && r == p[i..i + |r|] && AllSpace(p[..i]) && AllSpace(p[i + |r|..])
  }

  /** Stripping removes whitespace at the ends and nothing else. */
  lemma StripShape(s: string)
    ensures TrimmedSliceAt(s, Strip(s), SkipSpace(s, 0))
  {
    var a := SkipSpace(s, 0);
    var b := SpaceBefore(s, a, |s|);
    var pre := s[..a];
    var post := s[b..];
    assert forall k :: 0 <= k < |pre| ==> pre[k] == s[k];
    assert forall k :: 0 <= k < |post| ==> post[k] == s[b + k];
  }

  /** Stripping a blank string leaves nothing. */
  lemma StripAllSpace(s: string)
    requires AllSpace(s)
    ensures Strip(s) == ""
  {
    assert SkipSpace(s, 0) == |s|;
  }

  /** A string is its leading whitespace, its stripped middle and its trailing whitespace. */
  lemma StripSplit(s: string) returns (pre: string, post: string)
    ensures s == pre + Strip(s) + post && AllSpace(pre) && AllSpace(post)
  {
    StripShape(s);
    var a := SkipSpace(s, 0);
    pre, post := s[..a], s[a + |Strip(s)|..];
    assert s == pre + s[a..a + |Strip(s)|] + post;
  }

  /** `re.sub(r"\s+", " ", s)`: every maximal run of whitespace becomes one blank. */
  function CollapseSpace(s: string): (r: string)
    ensures SingleSpaced(r)
    ensures r == [] <==> s == []
    ensures s != [] ==> r[0] == (if IsSpace(s[0]) then ' ' else s[0])
    ensures SingleSpaced(s) ==> r == s
    decreases |s|
  {
    if s == [] then []
    else if IsSpace(s[0]) then
      var rest := s[SkipSpace(s, 1)..];
      var r := [' '] + CollapseSpace(rest);
      SingleSpacedCons(' ', CollapseSpace(rest));
      if SingleSpaced(s) then
        SliceSingleSpaced(s, 1, |s|);
        assert rest == s[1..];
        r
      else r
    else
      var r := [s[0]] + CollapseSpace(s[1..]);
      SingleSpacedCons(s[0], CollapseSpace(s[1..]));
      if SingleSpaced(s) then
        SliceSingleSpaced(s, 1, |s|);
        r
      else r
  }

  lemma SingleSpacedCons(c: char, t: string)
    requires SingleSpaced(t)
    requires IsSpace(c) ==> c == ' ' && (t == [] || !IsSpace(t[0]))
    ensures SingleSpaced([c] + t)
  {
    var u := [c] + t;
    forall k | 0 <= k < |u| && IsSpace(u[k]) ensures u[k] == ' ' {
      if k > 0 { assert u[k] == t[k - 1]; }
    }
    forall k, m | 0 <= k < m < |u| && m == k + 1 && IsSpace(u[k]) ensures !IsSpace(u[m]) {
      assert u[m] == t[k];
      if k > 0 { assert u[k] == t[k - 1]; }
    }
  }

  lemma {:induction false} SqueezeAppend(a: string, b: string)
    ensures Squeeze(a + b) == Squeeze(a) + Squeeze(b)
    decreases |a|
  {
    if a == [] {
      assert a + b == b;
    } else {
      assert (a + b)[1..] == a[1..] + b;
      SqueezeAppend(a[1..], b);
    }
  }

  lemma {:induction false} SqueezeAllSpace(s: string)
    requires AllSpace(s)
    ensures Squeeze(s) == []
    decreases |s|
  {
    if s != [] { SqueezeAllSpace(s[1..]); }
  }

  lemma SqueezeStrip(s: string)
    ensures Squeeze(Strip(s)) == Squeeze(s)
  {
    var pre, post := StripSplit(s);
    SqueezeAppend(pre + Strip(s), post);
    SqueezeAppend(pre, Strip(s));
    SqueezeAllSpace(pre);
    SqueezeAllSpace(post);
  }

  lemma SqueezeSkipSpace(s: string, i: nat)
    requires i <= |s|
    ensures Squeeze(s[SkipSpace(s, i)..]) == Squeeze(s[i..])
  {
    var j := SkipSpace(s, i);
    var run := s[i..j];
    assert s[i..] == run + s[j..];
    assert forall k :: 0 <= k < |run| ==> run[k] == s[i + k];
    SqueezeAppend(run, s[j..]);
    SqueezeAllSpace(run);
  }

  /** Collapsing whitespace keeps every other character, in order. */
  lemma {:induction false} CollapseKeepsText(s: string)
    ensures Squeeze(CollapseSpace(s)) == Squeeze(s)
    decreases |s|
  {
    if s != [] {
      if IsSpace(s[0]) {
        var rest := s[SkipSpace(s, 1)..];
        CollapseKeepsText(rest);
        SqueezeAppend([' '], CollapseSpace(rest));
        SqueezeSkipSpace(s, 1);
        assert s[1..] == s[1..][..];
        assert Squeeze(s) == Squeeze(s[1..]);
      } else {
        CollapseKeepsText(s[1..]);
        SqueezeAppend([s[0]], CollapseSpace(s[1..]));
      }
    }
  }

  lemma SliceSingleSpaced(s: string, i: nat, j: nat)
    requires i <= j <= |s| && SingleSpaced(s)
    ensures SingleSpaced(s[i..j])
  {
    var t := s[i..j];
    forall k | 0 <= k < |t| && IsSpace(t[k]) ensures t[k] == ' ' {
      assert t[k] == s[i + k];
    }
    forall k, m | 0 <= k < m < |t| && m == k + 1 && IsSpace(t[k]) ensures !IsSpace(t[m]) {
      assert t[k] == s[i + k];
      assert t[m] == s[i + k + 1];
    }
  }

  lemma LowerKeepsShape(s: string)
    ensures NoOuterSpace(s) ==> NoOuterSpace(Lower(s))
    ensures SingleSpaced(s) ==> SingleSpaced(Lower(s))
    ensures NoUpper(Lower(s))
    ensures NoUpper(s) ==> Lower(s) == s
  {
  }

  /** `re.sub(r"\s+", " ", text).strip()`: whitespace runs become one blank and the ends are trimmed. */
  function Tidy(text: string): (r: string)
    ensures NoOuterSpace(r) && SingleSpaced(r)
  {
    var c := CollapseSpace(text);
    var r := Strip(c);
    StripShape(c);
    SliceSingleSpaced(c, SkipSpace(c, 0), SkipSpace(c, 0) + |r|);
    r
  }

  /** Tidying only drops and merges whitespace. */
  lemma TidyKeepsText(t: string)
    ensures Squeeze(Tidy(t)) == Squeeze(t)
  {
    CollapseKeepsText(t);
    SqueezeStrip(CollapseSpace(t));
  }

  /** Tidy text is left as it is, so tidying twice is tidying once. */
  lemma TidyFixpoint(t: string)
    requires NoOuterSpace(t) && SingleSpaced(t)
    ensures Tidy(t) == t
  {
  }

  lemma TidyIdempotent(t: string)
    ensures Tidy(Tidy(t)) == Tidy(t)
  {
    TidyFixpoint(Tidy(t));
  }

  // ---------------------------------------------------------------------------
  // Words: the whitespace-separated pieces of a string

  /** A non-empty run of characters none of which is whitespace. */
  predicate IsWord(w: string) {
    w != [] && forall i :: 0 <= i < |w| ==> !IsSpace(w[i])
  }

  /** Where the run of non-whitespace characters that starts at `i` ends. */
  function WordEnd(s: string, i: nat): (j: nat)
    requires i <= |s|
    ensures i <= j <= |s|
    ensures forall k :: i <= k < j ==> !IsSpace(s[k])
    ensures j < |s| ==> IsSpace(s[j])
    decreases |s| - i
  {
    if i < |s| && !IsSpace(s[i]) then WordEnd(s, i + 1) else i
  }

  /** `s.split()`: the maximal runs of non-whitespace characters of `s`, in order. */
  function Words(s: string): (ws: seq<string>)
    ensures forall k :: 0 <= k < |ws| ==> IsWord(ws[k])
    decreases |s|
  {
    if s == [] then []
    else if IsSpace(s[0]) then Words(s[1..])
    else
      var e := WordEnd(s, 0);
      assert IsWord(s[..e]) by {
        forall i | 0 <= i < e ensures !IsSpace(s[..e][i]) { assert s[..e][i] == s[i]; }
      }
      [s[..e]] + Words(s[e..])
  }

  /** `" ".join(ws)`. */
  function JoinWords(ws: seq<string>): string
    decreases |ws|
  {
    if ws == [] then "" else if |ws| == 1 then ws[0] else ws[0] + " " + JoinWords(ws[1..])
  }

  lemma {:induction false} WordEndIs(s: string, i: nat, e: nat)
    requires i <= e <= |s|
    requires forall k :: i <= k < e ==> !IsSpace(s[k])
    requires e < |s| ==> IsSpace(s[e])
    ensures WordEnd(s, i) == e
    decreases e - i
  {
    if i < e { WordEndIs(s, i + 1, e); }
  }

  lemma {:induction false} SkipSpaceIs(s: string, i: nat, e: nat)
    requires i <= e <= |s|
    requires forall k :: i <= k < e ==> IsSpace(s[k])
    requires e < |s| ==> !IsSpace(s[e])
    ensures SkipSpace(s, i) == e
    decreases e - i
  {
    if i < e { SkipSpaceIs(s, i + 1, e); }
  }

  /** Leading whitespace contributes no word. */
  lemma {:induction false} WordsSpaceFront(p: string, q: string)
    requires AllSpace(p)
    ensures Words(p + q) == Words(q)
    decreases |p|
  {
    if p == [] {
      assert p + q == q;
    } else {
      assert (p + q)[0] == p[0] && (p + q)[1..] == p[1..] + q;
      WordsSpaceFront(p[1..], q);
    }
  }

  /** A word followed by whitespace or by nothing is the first word. */
  lemma WordsWordFront(w: string, q: string)
    requires IsWord(w) && (q == [] || IsSpace(q[0]))
    ensures Words(w + q) == [w] + Words(q)
  {
    var s := w + q;
    assert forall k :: 0 <= k < |w| ==> s[k] == w[k];
    assert |w| < |s| ==> s[|w|] == q[0];
    WordEndIs(s, 0, |w|);
    assert s[..|w|] == w && s[|w|..] == q;
  }

  /** A non-whitespace character in front either starts a new first word or joins the first one. */
  lemma WordsCons(c: char, x: string)
    requires !IsSpace(c)
    ensures x == [] || IsSpace(x[0]) ==> Words([c] + x) == [[c]] + Words(x)
    ensures x != [] && !IsSpace(x[0]) ==>
      Words(x) != [] && Words([c] + x) == [[c] + Words(x)[0]] + Words(x)[1..]
  {
    var s := [c] + x;
    assert forall k :: 1 <= k < |s| ==> s[k] == x[k - 1];
    if x == [] || IsSpace(x[0]) {
      WordEndIs(s, 0, 1);
      assert s[..1] == [c] && s[1..] == x;
    } else {
      var e := WordEnd(x, 0);
      WordEndIs(s, 0, e + 1);
      assert s[..e + 1] == [c] + x[..e] && s[e + 1..] == x[e..];
    }
  }

  /** Trailing whitespace contributes no word. */
  lemma {:induction false} WordsSpaceBack(m: string, post: string)
    requires AllSpace(post)
    ensures Words(m + post) == Words(m)
    decreases |m|
  {
    if m == [] {
      assert m + post == post + [];
      WordsSpaceFront(post, []);
    } else if IsSpace(m[0]) {
      assert (m + post)[0] == m[0] && (m + post)[1..] == m[1..] + post;
      WordsSpaceBack(m[1..], post);
    } else {
      var e := WordEnd(m, 0);
      var w, rest := m[..e], m[e..];
      assert m == w + rest;
      assert m + post == w + (rest + post);
      assert (rest + post) != [] ==> (rest + post)[0] == (if rest == [] then post[0] else rest[0]);
      WordsWordFront(w, rest);
      WordsWordFront(w, rest + post);
      WordsSpaceBack(rest, post);
    }
  }

  /** Stripping keeps the words. */
  lemma StripWords(s: string)
    ensures Words(Strip(s)) == Words(s)
  {
    var pre, post := StripSplit(s);
    assert s == pre + (Strip(s) + post);
    WordsSpaceFront(pre, Strip(s) + post);
    WordsSpaceBack(Strip(s), post);
  }

  lemma CollapseCons(c: char, x: string)
    requires !IsSpace(c)
    ensures CollapseSpace([c] + x) == [c] + CollapseSpace(x)
  {
    assert ([c] + x)[0] == c && ([c] + x)[1..] == x;
  }

  lemma CollapseSpaceFront(p: string, q: string)
    requires p != [] && AllSpace(p) && (q == [] || !IsSpace(q[0]))
    ensures CollapseSpace(p + q) == [' '] + CollapseSpace(q)
  {
    var s := p + q;
    assert forall k :: 0 <= k < |p| ==> s[k] == p[k];
    assert |p| < |s| ==> s[|p|] == q[0];
    SkipSpaceIs(s, 1, |p|);
    assert s[|p|..] == q;
  }

  /** Collapsing whitespace keeps the words: no two words merge and none is split. */
  lemma {:induction false} CollapseWords(s: string)
    ensures Words(CollapseSpace(s)) == Words(s)
    decreases |s|
  {
    if s != [] {
      if IsSpace(s[0]) {
        var j := SkipSpace(s, 0);
        var p, q := s[..j], s[j..];
        assert s == p + q;
        assert AllSpace(p) by {
          forall i | 0 <= i < |p| ensures IsSpace(p[i]) { assert p[i] == s[i]; }
        }
        CollapseSpaceFront(p, q);
        CollapseWords(q);
        WordsSpaceFront([' '], CollapseSpace(q));
        WordsSpaceFront(p, q);
      } else {
        var x := s[1..];
        assert s == [s[0]] + x;
        CollapseCons(s[0], x);
        CollapseWords(x);
        WordsCons(s[0], x);
        WordsCons(s[0], CollapseSpace(x));
      }
    }
  }

  /** In tidy text a blank follows a word only when another word follows the blank. */
  lemma GapAfterWord(r: string, e: nat)
    requires NoOuterSpace(r) && SingleSpaced(r) && e < |r| && IsSpace(r[e])
    ensures e + 1 < |r| && r[e] == ' ' && !IsSpace(r[e + 1])
    ensures NoOuterSpace(r[e + 1..]) && SingleSpaced(r[e + 1..])
  {
    assert e + 1 < |r|;
    SliceSingleSpaced(r, e + 1, |r|);
    assert r[e + 1..][0] == r[e + 1] && r[e + 1..][|r| - e - 2] == r[|r| - 1];
  }

  /** Text in tidy form is its own words joined by single blanks. */
  lemma {:induction false} JoinedNormalForm(r: string)
    requires NoOuterSpace(r) && SingleSpaced(r)
    ensures JoinWords(Words(r)) == r
    decreases |r|
  {
    if r != [] {
      var e := WordEnd(r, 0);
      var w := r[..e];
      if e == |r| {
        assert w == r && r[e..] == [];
      } else {
        GapAfterWord(r, e);
        var q := r[e + 1..];
        assert r[e..] == [' '] + q;
        WordsSpaceFront([' '], q);
        JoinedNormalForm(q);
        assert Words(q) != [] by { assert !IsSpace(q[0]); }
        assert r == w + " " + q;
      }
    }
  }

  /** `re.sub(r"\s+", " ", t).strip()` is `" ".join(t.split())`: the words of `t`, each
      separated from the next by exactly one blank. */
  lemma TidyWords(t: string)
    ensures Tidy(t) == JoinWords(Words(t))
  {
    CollapseWords(t);
    StripWords(CollapseSpace(t));
    JoinedNormalForm(Tidy(t));
  }

  /** Whitespace between two words separates them and belongs to neither. */
  lemma WordsOfPair(a: string, gap: string, b: string)
    requires IsWord(a) && gap != [] && AllSpace(gap) && IsWord(b)
    ensures Words(a + gap + b) == [a, b]
  {
    assert a + gap + b == a + (gap + b);
    WordsWordFront(a, gap + b);
    WordsSpaceFront(gap, b);
    assert b + "" == b;
    WordsWordFront(b, "");
  }

  lemma TwoWords(t: string)
    requires t == "plan  period"
    ensures Words(t) == ["plan", "period"]
  {
    var a, gap, b := "plan", "  ", "period";
    assert IsWord(a) && AllSpace(gap) && IsWord(b);
    assert a + gap + b == t;
    WordsOfPair(a, gap, b);
  }

  /** Tidying "plan  period" gives "plan period", not "planperiod". */
  lemma TidyTwoWords(t: string)
    requires t == "plan  period"
    ensures Tidy(t) == "plan period"
  {
    TwoWords(t);
    TidyWords(t);
    assert JoinWords(["plan", "period"]) == "plan" + " " + "period";
  }

  /** `normalize_header(t)` is `" ".join(t.split()).lower()`. */
  lemma NormalizeHeaderWords(t: string)
    ensures NormalizeHeader(t) == Lower(JoinWords(Words(t)))
  {
    TidyWords(t);
  }

  /** `normalize_header`: whitespace runs collapsed, outer whitespace stripped, ASCII lower-cased. */
  function NormalizeHeader(text: string): (r: string)
    ensures Normalized(r)
  {
    LowerKeepsShape(Tidy(text));
    Lower(Tidy(text))
  }

  /** A string already in normal form is left as it is. */
  lemma NormalizedFixpoint(t: string)
    requires Normalized(t)
    ensures NormalizeHeader(t) == t
  {
    LowerKeepsShape(t);
  }

  lemma NormalizeHeaderIdempotent(t: string)
    ensures NormalizeHeader(NormalizeHeader(t)) == NormalizeHeader(t)
  {
    NormalizedFixpoint(NormalizeHeader(t));
  }

  lemma {:induction false} SqueezeLower(s: string)
    ensures Squeeze(Lower(s)) == Lower(Squeeze(s))
    decreases |s|
  {
    if s != [] {
      assert Lower(s)[1..] == Lower(s[1..]);
      SqueezeLower(s[1..]);
      assert Lower(Squeeze(s)) == Lower(if IsSpace(s[0]) then [] else [s[0]]) + Lower(Squeeze(s[1..]));
    }
  }

  /** Normalising a header only drops and merges whitespace and lower-cases letters. */
  lemma NormalizeHeaderKeepsText(t: string)
    ensures Squeeze(NormalizeHeader(t)) == Lower(Squeeze(t))
  {
    TidyKeepsText(t);
    SqueezeLower(Tidy(t));
  }

  const DefaultTruncateLength: nat := 100

  function Min(a: int, b: int): int { if a <= b then a else b }

  /** `truncate`: None gives "", otherwise the first `length` characters with the
      whitespace at both ends trimmed. */
  function Truncate(text: Option<string>, length: nat): (r: string)
    ensures text.None? ==> r == ""
    ensures |r| <= length && NoOuterSpace(r)
    ensures text.Some? ==> exists i :: TrimmedSliceAt(text.value[..Min(length, |text.value|)], r, i)
  {
    match text
    case None => ""
    case Some(s) =>
      var p := s[..Min(length, |s|)];
      StripShape(p);
      Strip(p)
  }

  /** A cut that lands between two non-blank characters keeps exactly `length` characters. */
  lemma TruncateFullLength(s: string, length: nat)
    requires length <= |s| && NoOuterSpace(s[..length])
    ensures |Truncate(Some(s), length)| == length
  {
  }

  lemma TruncateLongWord()
    ensures |Truncate(Some(seq(150, _ => 'a')), DefaultTruncateLength)| == 100
  {
    TruncateFullLength(seq(150, _ => 'a'), DefaultTruncateLength);
  }

  predicate StartsWith(s: string, p: string) {
    |p| <= |s| && s[..|p|] == p
  }

  /** Python's `p in s`. */
  predicate Contains(s: string, p: string)
    decreases |s|
  {
    StartsWith(s, p) || (s != [] && Contains(s[1..], p))
  }

  /** The length of the run of ASCII digits that starts at `i`. */
  function DigitRun(s: string, i: nat): (n: nat)
    requires i <= |s|
    ensures i + n <= |s|
    ensures forall k :: i <= k < i + n ==> IsDigit(s[k])
    ensures i + n < |s| ==> !IsDigit(s[i + n])
    decreases |s| - i
  {
    if i < |s| && IsDigit(s[i]) then 1 + DigitRun(s, i + 1) else 0
  }

  lemma {:induction false} DigitRunIs(s: string, i: nat, n: nat)
    requires i + n <= |s|
    requires forall k :: i <= k < i + n ==> IsDigit(s[k])
    requires i + n == |s| || !IsDigit(s[i + n])
    ensures DigitRun(s, i) == n
    decreases n
  {
    if n > 0 { DigitRunIs(s, i + 1, n - 1); }
  }
}
