/** `_first_match` (app.py:39-44) with the header patterns it runs (app.py:19-37), and the
    field map `extract_headers` returns for a page text (app.py:51-55). */
module HeaderFields {
  import opened Wrappers
  import opened Text

  // ---------------------------------------------------------------------------
  // Ordered first match over abstract patterns

  /** A compiled pattern seen from outside: the first group of its leftmost match, if any. */
  type Matcher = string -> Option<string>

  /** The loop of `_first_match` from the pattern at index `i` on: the group of the first
      pattern that matches. */
  function FirstCapture(text: string, pats: seq<Matcher>, i: nat): (r: Option<string>)
    requires i <= |pats|
    decreases |pats| - i
  {
    if i == |pats| then None
    else if pats[i](text).Some? then pats[i](text)
    else FirstCapture(text, pats, i + 1)
  }

  /** `_first_match`: the patterns are tried in list order and the first one that matches
      anywhere in the text decides; its capture is tidied, and no match gives "". */
  function FirstMatch(text: string, pats: seq<Matcher>): (r: string)
    ensures NoOuterSpace(r) && SingleSpaced(r)
  {
    match FirstCapture(text, pats, 0)
    case None => ""
    case Some(c) => Tidy(c)
  }

  lemma {:induction false} FirstCaptureNone(text: string, pats: seq<Matcher>, k: nat)
    requires k <= |pats|
    ensures FirstCapture(text, pats, k).None? <==> forall j :: k <= j < |pats| ==> pats[j](text).None?
    decreases |pats| - k
  {
    if k < |pats| { FirstCaptureNone(text, pats, k + 1); }
  }

  lemma {:induction false} FirstCaptureEarliest(text: string, pats: seq<Matcher>, k: nat, i: nat)
    requires k <= i < |pats| && pats[i](text).Some?
    requires forall j :: k <= j < i ==> pats[j](text).None?
    ensures FirstCapture(text, pats, k) == pats[i](text)
    decreases i - k
  {
    if k < i { FirstCaptureEarliest(text, pats, k + 1, i); }
  }

  lemma {:induction false} FirstCaptureSource(text: string, pats: seq<Matcher>, k: nat)
    requires k <= |pats|
    ensures var r := FirstCapture(text, pats, k);
      r.Some? ==> exists i :: k <= i < |pats| && r == pats[i](text)
    decreases |pats| - k
  {
    if k < |pats| && pats[k](text).None? { FirstCaptureSource(text, pats, k + 1); }
  }

  /** When no pattern matches, the field is "". The converse does not hold: a match whose
      group is only whitespace gives "" as well. */
  lemma FirstMatchNone(text: string, pats: seq<Matcher>)
    ensures (forall i :: 0 <= i < |pats| ==> pats[i](text).None?) ==> FirstMatch(text, pats) == ""
  {
    FirstCaptureNone(text, pats, 0);
  }

  /** The earliest pattern in list order that matches decides, wherever in the text a later
      pattern would have matched. */
  lemma FirstMatchEarliest(text: string, pats: seq<Matcher>, i: nat)
    requires i < |pats| && pats[i](text).Some?
    requires forall j :: 0 <= j < i ==> pats[j](text).None?
    ensures FirstMatch(text, pats) == Tidy(pats[i](text).value)
  {
    FirstCaptureEarliest(text, pats, 0, i);
  }

  /** A non-empty field is the tidied group of some pattern. */
  lemma FirstMatchSource(text: string, pats: seq<Matcher>)
    ensures var r := FirstMatch(text, pats);
      r == "" || exists i :: 0 <= i < |pats| && pats[i](text).Some? && r == Tidy(pats[i](text).value)
  {
    FirstCaptureSource(text, pats, 0);
  }

  // ---------------------------------------------------------------------------
  // The header patterns as scanners

  /** A word after the first one, preceded by `\s*`; an optional word is `(?:word)?`. */
  datatype Term = Word(w: string) | OptionalWord(w: string)

  /** The group: `([^\n\r]+)` (rest of the line) or `([0-9\-]+)` (digits and hyphens). */
  datatype Capture = RestOfLine | DigitsAndHyphens

  /** `\b? first (\s* term)* \s* sep \s* (capture)`, matched ignoring case. The separator
      `[:\-]` is required, or optional (`[:\-]?`) when `optionalSep` holds. */
  datatype Pattern = Pattern(boundary: bool, first: string, rest: seq<Term>, optionalSep: bool, capture: Capture)

  predicate IsSepChar(c: char) { c == ':' || c == '-' }

  predicate IsPoChar(c: char) { IsDigit(c) || c == '-' }

  predicate IsLineBreak(c: char) { c == '\n' || c == '\r' }

  /** The lower-case word `w` occurs at `i`, ignoring ASCII case. */
  predicate WordAt(s: string, i: nat, w: string) {
    i + |w| <= |s| && Lower(s[i..i + |w|]) == w
  }

  /** `\b` before a word character at `i`. */
  predicate BoundaryBefore(s: string, i: nat)
    requires i <= |s|
  {
    i == 0 || !IsWordChar(s[i - 1])
  }

  /** The length of the run of digits and hyphens at `i`, as a greedy `[0-9\-]+` takes it. */
  function PoRun(s: string, i: nat): (n: nat)
    requires i <= |s|
    ensures i + n <= |s|
    ensures forall k :: i <= k < i + n ==> IsPoChar(s[k])
    ensures i + n < |s| ==> !IsPoChar(s[i + n])
    decreases |s| - i
  {
    if i < |s| && IsPoChar(s[i]) then 1 + PoRun(s, i + 1) else 0
  }

  /** The first line break at or after `i`, or the end of the text. */
  function LineEnd(s: string, i: nat): (j: nat)
    requires i <= |s|
    ensures i <= j <= |s|
    ensures forall k :: i <= k < j ==> !IsLineBreak(s[k])
    ensures j < |s| ==> IsLineBreak(s[j])
    decreases |s| - i
  {
    if i < |s| && !IsLineBreak(s[i]) then LineEnd(s, i + 1) else i
  }

  /** The last position in `[lo, hi)` that holds no line break. */
  function LastNonBreak(s: string, lo: nat, hi: nat): (r: Option<nat>)
    requires lo <= hi <= |s|
    ensures r.None? <==> forall k :: lo <= k < hi ==> IsLineBreak(s[k])
    ensures r.Some? ==> (lo <= r.value < hi && !IsLineBreak(s[r.value])
                         && forall k :: r.value < k < hi ==> IsLineBreak(s[k]))
    decreases hi - lo
  {
    if lo == hi then None
    else if !IsLineBreak(s[hi - 1]) then Some(hi - 1)
    else LastNonBreak(s, lo, hi - 1)
  }

  /** `(\s* term)*` from `i`: where the terms end, if they all match. */
  function MatchTerms(s: string, i: nat, terms: seq<Term>): (r: Option<nat>)
    requires i <= |s|
    ensures r.Some? ==> i <= r.value <= |s|
    decreases terms
  {
    if terms == [] then Some(i)
    else
      var k := SkipSpace(s, i);
      match terms[0]
      case Word(w) => if WordAt(s, k, w) then MatchTerms(s, k + |w|, terms[1..]) else None
      case OptionalWord(w) => if WordAt(s, k, w) then MatchTerms(s, k + |w|, terms[1..]) else MatchTerms(s, k, terms[1..])
  }

  /** `\s*(capture)` at `q`. For `[^\n\r]+` after whitespace that runs to the end of the text,
      the engine gives back whitespace until a character that is no line break is left;
      the group is then that one character. */
  function Grab(s: string, q: nat, cap: Capture): (r: Option<string>)
    requires q <= |s|
    ensures r.Some? ==> |r.value| > 0
    ensures r.Some? && cap == DigitsAndHyphens ==> forall k :: 0 <= k < |r.value| ==> IsPoChar(r.value[k])
    ensures r.Some? && cap == RestOfLine ==> forall k :: 0 <= k < |r.value| ==> !IsLineBreak(r.value[k])
  {
    var k := SkipSpace(s, q);
    match cap
    case DigitsAndHyphens =>
      var n := PoRun(s, k);
      if n > 0 then
        var g := s[k..k + n];
        assert forall j :: 0 <= j < |g| ==> g[j] == s[k + j];
        Some(g)
      else None
    case RestOfLine =>
      if k < |s| then
        var e := LineEnd(s, k);
        var g := s[k..e];
        assert forall j :: 0 <= j < |g| ==> g[j] == s[k + j];
        Some(g)
      else
        match LastNonBreak(s, q, |s|)
        case Some(j) => Some([s[j]])
        case None => None
  }

  /** `\s*[:\-]\s*(capture)` (or with `[:\-]?`) at `p`, right after the words. An optional
      separator is taken when the rest then matches; otherwise the group starts where the
      separator would have been, so "PO #-x" captures the hyphen alone. */
  function SepCapture(s: string, p: nat, optionalSep: bool, cap: Capture): (r: Option<string>)
    requires p <= |s|
    ensures r.Some? ==> |r.value| > 0
    ensures r.Some? && cap == DigitsAndHyphens ==> forall k :: 0 <= k < |r.value| ==> IsPoChar(r.value[k])
    ensures r.Some? && cap == RestOfLine ==> forall k :: 0 <= k < |r.value| ==> !IsLineBreak(r.value[k])
  {
    var k := SkipSpace(s, p);
    if k < |s| && IsSepChar(s[k]) && Grab(s, k + 1, cap).Some? then Grab(s, k + 1, cap)
    else if optionalSep then Grab(s, k, cap)
    else None
  }

  /** The group of a match of `pat` that starts exactly at `i`. */
  function MatchAt(s: string, i: nat, pat: Pattern): (r: Option<string>)
    requires i <= |s|
    ensures r.Some? ==> |r.value| > 0
    ensures r.Some? && pat.capture == DigitsAndHyphens ==> forall k :: 0 <= k < |r.value| ==> IsPoChar(r.value[k])
    ensures r.Some? && pat.capture == RestOfLine ==> forall k :: 0 <= k < |r.value| ==> !IsLineBreak(r.value[k])
  {
    if pat.boundary && !BoundaryBefore(s, i) then None
    else if !WordAt(s, i, pat.first) then None
    else
      match MatchTerms(s, i + |pat.first|, pat.rest)
      case None => None
      case Some(p) => SepCapture(s, p, pat.optionalSep, pat.capture)
  }

  /** The outcome of trying `pat` at each start `0..|s|` of `s`, in order. */
  function Attempts(s: string, pat: Pattern): (h: seq<Option<string>>)
    ensures |h| == |s| + 1
    ensures forall k :: 0 <= k <= |s| ==> h[k] == MatchAt(s, k, pat)
  {
    seq(|s| + 1, k requires 0 <= k <= |s| => MatchAt(s, k, pat))
  }

  /** `pattern.search`'s scan: the first attempt from `i` on that matched, if any. */
  function Leftmost(h: seq<Option<string>>, i: nat): (r: Option<nat>)
    requires i <= |h|
    ensures r.None? <==> forall k :: i <= k < |h| ==> h[k].None?
    ensures r.Some? ==> (i <= r.value < |h| && h[r.value].Some?
                         && forall k :: i <= k < r.value ==> h[k].None?)
    decreases |h| - i
  {
    if i == |h| then None
    else if h[i].Some? then Some(i)
    else Leftmost(h, i + 1)
  }

  /** The group of the leftmost match of `pat` in `s`. */
  function Search(s: string, pat: Pattern): (r: Option<string>)
    ensures r.Some? && pat.capture == DigitsAndHyphens ==> forall k :: 0 <= k < |r.value| ==> IsPoChar(r.value[k])
    ensures r.None? <==> forall k :: 0 <= k <= |s| ==> MatchAt(s, k, pat).None?
    ensures r.Some? ==> exists k :: (0 <= k <= |s| && r == MatchAt(s, k, pat)
                                   && forall j :: 0 <= j < k ==> MatchAt(s, j, pat).None?)
  {
    var h := Attempts(s, pat);
    match Leftmost(h, 0)
    case None => None
    case Some(k) => h[k]
  }

  /** The matchers for a list of patterns, in the same order. */
  function Matchers(ps: seq<Pattern>): (ms: seq<Matcher>)
    ensures |ms| == |ps|
    ensures forall i, t :: 0 <= i < |ps| ==> ms[i](t) == Search(t, ps[i])
  {
    seq(|ps|, i requires 0 <= i < |ps| => (t: string) => Search(t, ps[i]))
  }

  // ---------------------------------------------------------------------------
  // HEADER_PATTERNS (app.py:19-37)

  /** `Plan\s*Period`, `Period`, `Plan\s*Window`, each then `\s*[:\-]\s*([^\n\r]+)`. */
  const PlanPeriodPatterns: seq<Pattern> := [
    Pattern(false, "plan", [Word("period")], false, RestOfLine),
    Pattern(false, "period", [], false, RestOfLine),
    Pattern(false, "plan", [Word("window")], false, RestOfLine)
  ]

  /** `\bPO\s*Number\s*[:\-]`, `\bPO\s*#\s*[:\-]?`, `\bPurchase\s*Order\s*(?:Number)?\s*[:\-]`
      and `\bPO\s*[:\-]`, each then `\s*([0-9\-]+)`. */
  const PoNumberPatterns: seq<Pattern> := [
    Pattern(true, "po", [Word("number")], false, DigitsAndHyphens),
    Pattern(true, "po", [Word("#")], true, DigitsAndHyphens),
    Pattern(true, "purchase", [Word("order"), OptionalWord("number")], false, DigitsAndHyphens),
    Pattern(true, "po", [], false, DigitsAndHyphens)
  ]

  /** `Partner\s*Legal\s*Name`, `Partner\s*Name`, `Partner` and `Reseller`, each then
      `\s*[:\-]\s*([^\n\r]+)`. */
  const PartnerPatterns: seq<Pattern> := [
    Pattern(false, "partner", [Word("legal"), Word("name")], false, RestOfLine),
    Pattern(false, "partner", [Word("name")], false, RestOfLine),
    Pattern(false, "partner", [], false, RestOfLine),
    Pattern(false, "reseller", [], false, RestOfLine)
  ]

  /** HEADER_PATTERNS holds three plan-period, four PO-number and four partner patterns. Only
      the PO-number patterns start at a word boundary, and they capture digits and hyphens;
      the others capture the rest of the line. Only `PO #` may leave out its separator. */
  lemma HeaderPatternLists(i: nat)
    ensures |PlanPeriodPatterns| == 3 && |PoNumberPatterns| == 4 && |PartnerPatterns| == 4
    ensures i < 3 ==> var p := PlanPeriodPatterns[i]; !p.boundary && !p.optionalSep && p.capture == RestOfLine
    ensures i < 4 ==> var p := PoNumberPatterns[i]; p.boundary && (p.optionalSep <==> i == 1)
    ensures i < 4 ==> var p := PartnerPatterns[i]; !p.boundary && !p.optionalSep && p.capture == RestOfLine
  {
  }

  /** The map `extract_headers` builds from the text of the first two pages. */
  function ExtractHeaders(text: string): (h: map<string, string>)
    ensures h.Keys == {"Partner", "PO Number", "Plan Period"}
    ensures h["Partner"] == FirstMatch(text, Matchers(PartnerPatterns))
    ensures h["PO Number"] == FirstMatch(text, Matchers(PoNumberPatterns))
    ensures h["Plan Period"] == FirstMatch(text, Matchers(PlanPeriodPatterns))
  {
    map["Partner" := FirstMatch(text, Matchers(PartnerPatterns)),
        "PO Number" := FirstMatch(text, Matchers(PoNumberPatterns)),
        "Plan Period" := FirstMatch(text, Matchers(PlanPeriodPatterns))]
  }

  // ---------------------------------------------------------------------------
  // Properties of the header fields

  /** A string of digits and hyphens is already tidy. */
  lemma PoCharsTidy(c: string)
    requires forall k :: 0 <= k < |c| ==> IsPoChar(c[k])
    ensures Tidy(c) == c
  {
    assert forall k :: 0 <= k < |c| ==> !IsSpace(c[k]);
    TidyFixpoint(c);
  }

  lemma PoPatternsCaptureDigits(i: nat)
    requires i < |PoNumberPatterns|
    ensures PoNumberPatterns[i].capture == DigitsAndHyphens
  {
    assert i == 0 || i == 1 || i == 2 || i == 3;
  }

  /** The PO number is "" or the exact digit-and-hyphen group of a match, so it holds
      nothing but digits and hyphens. */
  lemma PoNumberShape(text: string)
    ensures var po := ExtractHeaders(text)["PO Number"];
      forall k :: 0 <= k < |po| ==> IsPoChar(po[k])
  {
    var ms := Matchers(PoNumberPatterns);
    FirstCaptureSource(text, ms, 0);
    match FirstCapture(text, ms, 0)
    case None =>
    case Some(c) =>
      var i :| 0 <= i < |ms| && Some(c) == ms[i](text);
      assert Some(c) == Search(text, PoNumberPatterns[i]);
      PoPatternsCaptureDigits(i);
      PoCharsTidy(c);
  }

  /** "PO Number: 12345-6" gives the PO number "12345-6". */
  lemma PoNumberExample(text: string)
    requires text == "PO Number: 12345-6"
    ensures ExtractHeaders(text)["PO Number"] == "12345-6"
  {
    PoNumberMatch(text);
    assert Search(text, PoNumberPatterns[0]) == Some("12345-6");
    var ms := Matchers(PoNumberPatterns);
    assert ms[0](text) == Some("12345-6");
    FirstMatchEarliest(text, ms, 0);
    PoCharsTidy("12345-6");
  }

  /** `PO\s*Number\s*[:\-]\s*([0-9\-]+)` matches that line at its start. */
  lemma PoNumberMatch(text: string)
    requires text == "PO Number: 12345-6"
    ensures MatchAt(text, 0, PoNumberPatterns[0]) == Some("12345-6")
  {
    var pat := PoNumberPatterns[0];
    assert pat == Pattern(true, "po", [Word("number")], false, DigitsAndHyphens);
    PoNumberWords(text);
    PoNumberCapture(text);
  }

  /** `\bPO\s*Number` matches the first nine characters of that line. */
  lemma PoNumberWords(text: string)
    requires text == "PO Number: 12345-6"
    ensures BoundaryBefore(text, 0) && WordAt(text, 0, "po")
    ensures MatchTerms(text, 2, [Word("number")]) == Some(9)
  {
    assert WordAt(text, 0, "po") by { assert text[0..2] == "PO"; }
    assert SkipSpace(text, 2) == 3;
    assert WordAt(text, 3, "number") by { assert text[3..9] == "Number"; }
  }

  /** `\s*[:\-]\s*([0-9\-]+)` after "PO Number" captures "12345-6". */
  lemma PoNumberCapture(text: string)
    requires text == "PO Number: 12345-6"
    ensures SepCapture(text, 9, false, DigitsAndHyphens) == Some("12345-6")
  {
    assert SkipSpace(text, 9) == 9;
    assert SkipSpace(text, 10) == 11;
    assert PoRun(text, 11) == 7;
    assert text[11..18] == "12345-6";
    assert Grab(text, 10, DigitsAndHyphens) == Some("12345-6");
  }
}
