/** `_pick_column_indices` (app.py:102-132): find the header row of a table grid, give the
    activity, description and amount roles to columns by synonym, and fall back to the
    column with the most currency-formatted cells when no amount column is named. */
module Columns {
  import opened Wrappers
  import opened Text

  /** A table as the PDF engine returns it: rows of cell strings. */
  type Grid = seq<seq<string>>

  datatype Role = Activity | Description | Amount

  /** The roles in the order `COL_SYNONYMS` lists them. */
  const AllRoles: seq<Role> := [Activity, Description, Amount]

  /** `col_map`: a column index per role, or None. */
  datatype ColumnMap = ColumnMap(activity: Option<nat>, description: Option<nat>, amount: Option<nat>) {
    function Get(role: Role): Option<nat> {
      match role
      case Activity => activity
      case Description => description
      case Amount => amount
    }

    function Set(role: Role, j: nat): (m: ColumnMap)
      ensures m.Get(role) == Some(j)
      ensures forall other :: other != role ==> m.Get(other) == Get(other)
    {
      match role
      case Activity => this.(activity := Some(j))
      case Description => this.(description := Some(j))
      case Amount => this.(amount := Some(j))
    }
  }

  const NoColumns := ColumnMap(None, None, None)

  /** `COL_SYNONYMS` (app.py:59-66). */
  function Synonyms(role: Role): seq<string> {
    match role
    case Activity => ["activity", "activitiy", "acti vity", "actvity"]
    case Description => ["description", "descr", "desription"]
    case Amount => ["up to amount (usd)", "up to amount", "amount (usd)", "amount",
                    "budget (usd)", "budget", "total amount (usd)", "max amount (usd)"]
  }

  /** `any(s in col_clean for s in synonyms)`. */
  predicate MatchesRole(col: string, role: Role) {
    exists k :: 0 <= k < |Synonyms(role)| && Contains(col, Synonyms(role)[k])
  }

  // ---------------------------------------------------------------------------
  // The header row (app.py:104-109)

  /** `" ".join(cells)`. */
  function JoinCells(cells: seq<string>): string
    decreases |cells|
  {
    if cells == [] then ""
    else if |cells| == 1 then cells[0]
    else cells[0] + " " + JoinCells(cells[1..])
  }

  /** `[str(x or "").strip() for x in row]`. */
  function StripCells(row: seq<string>): (r: seq<string>)
    ensures |r| == |row| && forall j :: 0 <= j < |row| ==> r[j] == Strip(row[j])
  {
    seq(|row|, j requires 0 <= j < |row| => Strip(row[j]))
  }

  /** The joined stripped cells mention both "activ" and "descr", ignoring case. */
  predicate IsHeaderRow(row: seq<string>) {
    var joined := Lower(JoinCells(StripCells(row)));
    Contains(joined, "activ") && Contains(joined, "descr")
  }

  /** For each row, whether it reads as a header row. */
  function HeaderFlags(rows: Grid): (f: seq<bool>)
    ensures |f| == |rows|
  {
    seq(|rows|, i requires 0 <= i < |rows| => IsHeaderRow(rows[i]))
  }

  /** The first of the first `n` flags that is set. */
  function FirstTrue(f: seq<bool>, n: nat): (r: Option<nat>)
    requires n <= |f|
    ensures r.None? <==> forall k :: 0 <= k < n ==> !f[k]
    ensures r.Some? ==> (r.value < n && f[r.value] && forall k :: 0 <= k < r.value ==> !f[k])
  {
    if n == 0 then None
    else
      var prev := FirstTrue(f, n - 1);
      if prev.Some? then prev
      else if f[n - 1] then Some(n - 1)
      else None
  }

  /** Once the first set flag is found, looking further does not change it. */
  lemma {:induction false} FirstTrueStable(f: seq<bool>, i: nat, n: nat)
    requires i < n <= |f| && f[i] && FirstTrue(f, i).None?
    ensures FirstTrue(f, n) == Some(i)
    decreases n
  {
    if n > i + 1 { FirstTrueStable(f, i, n - 1); }
  }

  /** Only the first 20 rows are searched for the header. */
  const HeaderSearchDepth: nat := 20

  /** `header_row_idx`: the first header row among the first 20, or row 0 when there is none. */
  function HeaderRowIndex(rows: Grid): (h: nat)
    ensures h < |rows| || h == 0
    ensures h < HeaderSearchDepth
    ensures var f := HeaderFlags(rows);
      (h < |rows| && f[h] && forall k :: 0 <= k < h ==> !f[k])
      || (h == 0 && forall k :: 0 <= k < Min(HeaderSearchDepth, |rows|) ==> !f[k])
  {
    match FirstTrue(HeaderFlags(rows), Min(HeaderSearchDepth, |rows|))
    case Some(i) => i
    case None => 0
  }

  /** The header-row loop with its `break`. */
  method FindHeaderRow(rows: Grid) returns (h: nat)
    ensures h == HeaderRowIndex(rows)
  {
    ghost var f := HeaderFlags(rows);
    h := 0;
    var limit := Min(HeaderSearchDepth, |rows|);
    var i := 0;
    while i < limit
      invariant 0 <= i <= limit
      invariant FirstTrue(f, i).None?
    {
      var isHeader := IsHeaderRow(rows[i]);
      assert f[i] == isHeader;
      if isHeader {
        FirstTrueStable(f, i, limit);
        h := i;
        break;
      }
      i := i + 1;
    }
    HeaderRowIndexIs(rows, f, limit);
  }

  /** `HeaderRowIndex` is what the first set flag among the first `limit` rows says. */
  lemma HeaderRowIndexIs(rows: Grid, f: seq<bool>, limit: nat)
    requires f == HeaderFlags(rows) && limit == Min(HeaderSearchDepth, |rows|)
    ensures HeaderRowIndex(rows) == match FirstTrue(f, limit) case Some(i) => i case None => 0
  {
  }

  // ---------------------------------------------------------------------------
  // Roles by synonym (app.py:111-120)

  /** `df.iloc[h].fillna("").astype(str).map(normalize_header).tolist()`. */
  function NormalizeCells(row: seq<string>): (r: seq<string>)
    ensures |r| == |row|
  {
    seq(|row|, j requires 0 <= j < |row| => NormalizeHeader(row[j]))
  }

  /** For each header cell, whether its normalised text names `role`. */
  function Names(header: seq<string>, role: Role): (f: seq<bool>)
    ensures |f| == |header|
  {
    seq(|header|, j requires 0 <= j < |header| => MatchesRole(NormalizeHeader(header[j]), role))
  }

  /** The first header cell that names `role`. */
  function RoleColumn(header: seq<string>, role: Role): (r: Option<nat>)
    ensures r.Some? ==> r.value < |header| && MatchesRole(NormalizeHeader(header[r.value]), role)
    ensures forall k :: 0 <= k < |header| && (r.None? || k < r.value) ==>
      !MatchesRole(NormalizeHeader(header[k]), role)
  {
    var f := Names(header, role);
    assert forall k :: 0 <= k < |header| ==> f[k] == MatchesRole(NormalizeHeader(header[k]), role);
    FirstTrue(f, |header|)
  }

  /** The roles the synonyms give, each independently of the others. */
  function RolesOf(header: seq<string>): (cm: ColumnMap)
    ensures cm.Get(Activity) == RoleColumn(header, Activity)
    ensures cm.Get(Description) == RoleColumn(header, Description)
    ensures cm.Get(Amount) == RoleColumn(header, Amount)
  {
    ColumnMap(RoleColumn(header, Activity), RoleColumn(header, Description), RoleColumn(header, Amount))
  }

  /** One role's update for the header cell at `idx`: it takes `idx` when the cell names it
      and it is still unset. */
  function UpdateRole(cm: ColumnMap, role: Role, colClean: string, idx: nat): (next: ColumnMap)
    ensures cm.Get(role).Some? || !MatchesRole(colClean, role) ==> next == cm
    ensures forall other :: other != role ==> next.Get(other) == cm.Get(other)
  {
    if MatchesRole(colClean, role) && cm.Get(role).None? then cm.Set(role, idx) else cm
  }

  /** The map after the first `k` roles of the inner loop have seen the cell at `idx`. */
  function RolesThrough(cm: ColumnMap, colClean: string, idx: nat, k: nat): ColumnMap
    requires k <= |AllRoles|
  {
    if k == 0 then cm else UpdateRole(RolesThrough(cm, colClean, idx, k - 1), AllRoles[k - 1], colClean, idx)
  }

  /** The map after the loops have seen the first `n` of the cleaned header cells. */
  function RolesUpTo(cleaned: seq<string>, n: nat): ColumnMap
    requires n <= |cleaned|
  {
    if n == 0 then NoColumns
    else RolesThrough(RolesUpTo(cleaned, n - 1), cleaned[n - 1], n - 1, |AllRoles|)
  }

  /** How one role is updated for the cell at `idx`: set when it names the role and the role
      is still unset; the other roles are left alone. */
  lemma RoleStep(header: seq<string>, role: Role, idx: nat, cm: ColumnMap)
    requires idx < |header| && cm.Get(role) == FirstTrue(Names(header, role), idx)
    ensures var next := UpdateRole(cm, role, NormalizeHeader(header[idx]), idx);
      next.Get(role) == FirstTrue(Names(header, role), idx + 1)
      && forall other :: other != role ==> next.Get(other) == cm.Get(other)
  {
    assert Names(header, role)[idx] == MatchesRole(NormalizeHeader(header[idx]), role);
  }

  /** After the first `n` header cells, each role is the first of them that names it. */
  lemma {:induction false} RolesUpToFirst(header: seq<string>, n: nat)
    requires n <= |header|
    ensures forall role :: RolesUpTo(NormalizeCells(header), n).Get(role) == FirstTrue(Names(header, role), n)
  {
    if n > 0 {
      var i := n - 1;
      var prev := RolesUpTo(NormalizeCells(header), i);
      var c := NormalizeHeader(header[i]);
      assert NormalizeCells(header)[i] == c;
      RolesUpToFirst(header, i);
      var a := UpdateRole(prev, Activity, c, i);
      var d := UpdateRole(a, Description, c, i);
      var m := UpdateRole(d, Amount, c, i);
      assert RolesThrough(prev, c, i, 1) == a;
      assert RolesThrough(prev, c, i, 2) == d;
      assert RolesUpTo(NormalizeCells(header), n) == m;
      RoleStep(header, Activity, i, prev);
      RoleStep(header, Description, i, a);
      RoleStep(header, Amount, i, d);
    }
  }

  /** After all header cells the roles are those of `RolesOf`. */
  lemma RolesUpToAll(header: seq<string>)
    ensures RolesUpTo(NormalizeCells(header), |header|) == RolesOf(header)
  {
    RolesUpToFirst(header, |header|);
    var cm := RolesUpTo(NormalizeCells(header), |header|);
    assert cm.activity == cm.Get(Activity) && cm.description == cm.Get(Description);
    assert cm.amount == cm.Get(Amount);
  }

  /** The inner loop over the roles for the cleaned header cell at `idx`: each role still
      unset takes `idx` when the cell names it. */
  method AssignCell(colClean: string, idx: nat, cm0: ColumnMap) returns (cm: ColumnMap)
    ensures cm == RolesThrough(cm0, colClean, idx, |AllRoles|)
  {
    cm := cm0;
    var k := 0;
    while k < |AllRoles|
      invariant k <= |AllRoles|
      invariant cm == RolesThrough(cm0, colClean, idx, k)
    {
      var role := AllRoles[k];
      if MatchesRole(colClean, role) && cm.Get(role).None? {
        cm := cm.Set(role, idx);
      }
      k := k + 1;
    }
  }

  /** The outer loop over the cleaned header cells. */
  method AssignCleaned(cleaned: seq<string>) returns (cm: ColumnMap)
    ensures cm == RolesUpTo(cleaned, |cleaned|)
  {
    cm := NoColumns;
    var idx := 0;
    while idx < |cleaned|
      invariant idx <= |cleaned|
      invariant cm == RolesUpTo(cleaned, idx)
    {
      cm := AssignCell(cleaned[idx], idx, cm);
      idx := idx + 1;
    }
  }

  /** The nested loop over header cells and roles; a role keeps the first column that names
      it. `normalize_header` is pure, so the cells are cleaned before the loop rather than
      one at a time inside it. */
  method AssignRoles(header: seq<string>) returns (cm: ColumnMap)
    ensures cm == RolesOf(header)
  {
    var cleaned := NormalizeCells(header);
    cm := AssignCleaned(cleaned);
    RolesUpToAll(header);
  }

  // ---------------------------------------------------------------------------
  // The amount fallback (app.py:122-131)

  /** A cell of a row, "" past its end. */
  function Cell(row: seq<string>, j: nat): string {
    if j < |row| then row[j] else ""
  }

  /** `\$\d{1,3}(?:,\d{3})+` starts at `i`: a dollar sign, one to three digits, a comma and
      three digits. */
  predicate CurrencyAt(s: string, i: nat) {
    i < |s| && s[i] == '$' &&
    var n := DigitRun(s, i + 1);
    1 <= n <= 3 && i + n + 5 <= |s| && s[i + 1 + n] == ',' &&
    IsDigit(s[i + n + 2]) && IsDigit(s[i + n + 3]) && IsDigit(s[i + n + 4])
  }

  /** `series.str.contains(r"\$\d{1,3}(?:,\d{3})+(?:\.\d+)?")` for one cell. */
  predicate HasCurrency(s: string) {
    exists i :: 0 <= i < |s| && CurrencyAt(s, i)
  }

  /** For each data row, whether its cell `j` holds a currency amount. */
  function CurrencyFlags(data: Grid, j: nat): (f: seq<bool>)
    ensures |f| == |data|
  {
    seq(|data|, r requires 0 <= r < |data| => HasCurrency(Cell(data[r], j)))
  }

  /** The number of set flags among the first `n`. */
  function Count(f: seq<bool>, n: nat): (c: nat)
    requires n <= |f|
    ensures c <= n
  {
    if n == 0 then 0 else Count(f, n - 1) + (if f[n - 1] then 1 else 0)
  }

  lemma {:induction false} CountZero(f: seq<bool>, n: nat)
    requires n <= |f|
    ensures Count(f, n) == 0 <==> forall k :: 0 <= k < n ==> !f[k]
    decreases n
  {
    if n > 0 { CountZero(f, n - 1); }
  }

  /** `score` of column `j`: how many data rows hold a currency amount there. */
  function Score(data: Grid, j: nat): (n: nat)
    ensures n <= |data|
  {
    Count(CurrencyFlags(data, j), |data|)
  }

  /** A column scores 0 exactly when none of its data cells holds a currency amount. */
  lemma ScoreZero(data: Grid, j: nat)
    ensures Score(data, j) == 0 <==> forall r :: 0 <= r < |data| ==> !HasCurrency(Cell(data[r], j))
  {
    var f := CurrencyFlags(data, j);
    CountZero(f, |data|);
    assert forall r :: 0 <= r < |data| ==> f[r] == HasCurrency(Cell(data[r], j));
  }

  /** The scores of the first `w` columns. */
  function Scores(data: Grid, w: nat): (s: seq<nat>)
    ensures |s| == w
  {
    seq(w, j requires 0 <= j < w => Score(data, j))
  }

  /** The head of `cand_scores` sorted in descending `(score, j)` order among the first `w`
      entries: the highest score, and the highest index among the entries that share it. */
  function BestColumn(s: seq<nat>, w: nat): (b: nat)
    requires 0 < w <= |s|
    ensures b < w
    ensures forall k :: 0 <= k < w ==> s[k] <= s[b]
    ensures forall k :: b < k < w ==> s[k] < s[b]
  {
    if w == 1 then 0
    else
      var b := BestColumn(s, w - 1);
      if s[w - 1] >= s[b] then w - 1 else b
  }

  /** The amount column chosen by content when no header names one: the best-scoring of
      the `w` columns, provided at least one of its cells holds a currency amount. */
  function AmountFallback(data: Grid, w: nat): (r: Option<nat>)
    ensures var s := Scores(data, w);
      (r.None? <==> forall k :: 0 <= k < w ==> s[k] == 0)
      && (r.Some? ==> (r.value < w && s[r.value] > 0
                       && (forall k :: 0 <= k < w ==> s[k] <= s[r.value])
                       && forall k :: r.value < k < w ==> s[k] < s[r.value]))
  {
    if w == 0 then None
    else
      var s := Scores(data, w);
      var b := BestColumn(s, w);
      if s[b] > 0 then Some(b) else None
  }

  /** `(score, j)` comes before `(best, bj)` in a descending sort. */
  predicate SortsBefore(a: (nat, nat), b: (nat, nat)) {
    a.0 > b.0 || (a.0 == b.0 && a.1 > b.1)
  }

  /** The inner scoring loop: count the data rows whose cell `j` holds a currency amount. */
  method ScoreColumn(data: Grid, j: nat) returns (score: nat)
    ensures score == Score(data, j)
  {
    score := 0;
    var r := 0;
    while r < |data|
      invariant r <= |data|
      invariant score == Count(CurrencyFlags(data, j), r)
    {
      assert CurrencyFlags(data, j)[r] == HasCurrency(Cell(data[r], j));
      if HasCurrency(Cell(data[r], j)) {
        score := score + 1;
      }
      r := r + 1;
    }
  }

  /** The head of `cand_scores` sorted in descending order. */
  method SortHead(candScores: seq<(nat, nat)>, s: seq<nat>) returns (head: (nat, nat))
    requires 0 < |candScores| <= |s|
    requires forall k :: 0 <= k < |candScores| ==> candScores[k] == (s[k], k)
    ensures head == candScores[BestColumn(s, |candScores|)]
  {
    head := candScores[0];
    var i := 1;
    while i < |candScores|
      invariant 1 <= i <= |candScores|
      invariant head == candScores[BestColumn(s, i)]
    {
      if SortsBefore(candScores[i], head) {
        head := candScores[i];
      }
      i := i + 1;
    }
  }

  /** The scoring loop, then the head of the descending sort of `cand_scores`. */
  method PickAmountColumn(data: Grid, w: nat) returns (m: Option<nat>)
    ensures m == AmountFallback(data, w)
  {
    var candScores: seq<(nat, nat)> := [];
    var j := 0;
    while j < w
      invariant j <= w
      invariant |candScores| == j
      invariant forall k :: 0 <= k < j ==> candScores[k] == (Scores(data, w)[k], k)
    {
      var score := ScoreColumn(data, j);
      candScores := candScores + [(score, j)];
      j := j + 1;
    }
    m := None;
    if |candScores| > 0 {
      var head := SortHead(candScores, Scores(data, w));
      if head.0 > 0 {
        m := Some(head.1);
      }
    }
  }

  // ---------------------------------------------------------------------------
  // The whole resolver

  /** The data rows under the header and the column map found for them. */
  datatype Resolved = Resolved(data: Grid, columns: ColumnMap)

  /** The last step of the resolver: the named roles, with the amount chosen by content when
      no header cell names it and there are data rows. */
  function ResolveWith(data: Grid, header: seq<string>, cm: ColumnMap): (res: Resolved)
    ensures res.data == data
    ensures res.columns.activity == cm.activity && res.columns.description == cm.description
    ensures cm.amount.Some? || data == [] ==> res.columns == cm
  {
    if cm.amount.None? && |data| > 0 then Resolved(data, cm.(amount := AmountFallback(data, |header|)))
    else Resolved(data, cm)
  }

  /** The columns read from the header row `h`, for the rows below it. */
  function ResolveAt(rows: Grid, h: nat): (res: Resolved)
    requires h < |rows|
    ensures res.data == rows[h + 1..]
  {
    var header := NormalizeCells(rows[h]);
    ResolveWith(rows[h + 1..], header, RolesOf(header))
  }

  /** `_pick_column_indices` on a non-empty grid. */
  function Resolve(rows: Grid): (res: Resolved)
    requires |rows| > 0
  {
    ResolveAt(rows, HeaderRowIndex(rows))
  }

  lemma ResolveSteps(rows: Grid, h: nat, header: seq<string>, data: Grid, named: ColumnMap)
    requires h < |rows| && header == NormalizeCells(rows[h])
    requires data == rows[h + 1..] && named == RolesOf(header)
    ensures ResolveAt(rows, h) == ResolveWith(data, header, named)
  {
  }

  /** The resolver's steps in the order the source takes them. */
  method PickColumnIndices(rows: Grid) returns (data: Grid, cm: ColumnMap)
    requires |rows| > 0
    ensures Resolved(data, cm) == Resolve(rows)
  {
    var h := FindHeaderRow(rows);
    var header := NormalizeCells(rows[h]);
    data := rows[h + 1..];
    cm := AssignRoles(header);
    ResolveSteps(rows, h, header, data, cm);
    if cm.amount.None? && |data| > 0 {
      var m := PickAmountColumn(data, |header|);
      cm := cm.(amount := m);
    }
  }

  // ---------------------------------------------------------------------------
  // Properties of the resolver

  /** The data are exactly the rows after the header row. */
  lemma ResolveData(rows: Grid)
    requires |rows| > 0
    ensures var h := HeaderRowIndex(rows);
      Resolve(rows).data == rows[h + 1..] && |Resolve(rows).data| == |rows| - h - 1
  {
  }

  /** Normalising the header cells a second time, as the source does, changes no role. */
  lemma NamesRenormalized(raw: seq<string>, role: Role)
    ensures Names(NormalizeCells(raw), role) == Names(raw, role)
  {
    var header := NormalizeCells(raw);
    forall j | 0 <= j < |raw| ensures Names(header, role)[j] == Names(raw, role)[j] {
      NormalizeHeaderIdempotent(raw[j]);
    }
  }

  /** Each role goes to the first cell of the raw header row whose normalised text contains
      one of its synonyms; the amount role goes there too when some cell names it. */
  lemma ResolveNamedRole(rows: Grid, role: Role)
    requires |rows| > 0
    requires role != Amount || RoleColumn(rows[HeaderRowIndex(rows)], Amount).Some?
    ensures Resolve(rows).columns.Get(role) == RoleColumn(rows[HeaderRowIndex(rows)], role)
  {
    var h := HeaderRowIndex(rows);
    NamesRenormalized(rows[h], Activity);
    NamesRenormalized(rows[h], Description);
    NamesRenormalized(rows[h], Amount);
  }

  /** When no header cell names the amount, the content fallback picks it if there are data
      rows, and it stays unset otherwise. */
  lemma ResolveAmountFallback(rows: Grid)
    requires |rows| > 0 && RoleColumn(rows[HeaderRowIndex(rows)], Amount).None?
    ensures var h := HeaderRowIndex(rows); var res := Resolve(rows);
      res.columns.amount == (if |res.data| > 0 then AmountFallback(res.data, |rows[h]|) else None)
  {
    NamesRenormalized(rows[HeaderRowIndex(rows)], Amount);
  }
}
