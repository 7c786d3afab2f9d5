/** The post-response half of `getProjectCheckboxesByQueryString` in
    `src/menu/ProjectCommitManager.ts`: a project listing becomes checkbox
    rows. Missing or zero record counts default to 1, the name and the id list
    fall back from one field to the next, projects without a name or without
    ids are skipped, the rows kept are numbered in input order and finally
    sorted by record count, largest first. */
module ProjectRows {
  import opened Js

  /** A project as the backend lists it. Text fields use "" and numeric
      fields use 0 for an absent or falsy value. */
  datatype Project = Project(
    projectName: string,
    name: string,
    projectIds: Option<seq<int>>,
    id: int,
    codingRecords: nat)

  /** A row of the project picker. `share` is the percentage shown in the
      row's text (before it is rounded to two decimals). */
  datatype Checkbox = Checkbox(
    name: string,         // the label shown
    value: seq<int>,
    checked: bool,
    share: real,
    codingRecords: nat,
    lineNumber: nat)

  /** The outcome of the `/projects` request: a failure, or a body whose
      `data` may be absent. */
  datatype Response = Failed | Ok(data: Option<seq<Project>>)

  // ---------------------------------------------------------------------
  // Per-project fields
  // ---------------------------------------------------------------------

  /** `if (!p.coding_records) p.coding_records = 1` */
  function Defaulted(p: Project): (r: nat)
    ensures r >= 1
    ensures p.codingRecords != 0 ==> r == p.codingRecords
    ensures p.codingRecords == 0 ==> r == 1
  {
    if p.codingRecords == 0 then 1 else p.codingRecords
  }

  /** The sum of the defaulted record counts of every project listed. */
  function TotalRecords(ps: seq<Project>): (r: nat)
    ensures r >= |ps|
  {
    if |ps| == 0 then 0 else Defaulted(ps[0]) + TotalRecords(ps[1..])
  }

  /** Every project's defaulted count is part of the total. */
  lemma {:induction false} DefaultedAtMostTotal(ps: seq<Project>, i: nat)
    requires i < |ps|
    ensures 1 <= Defaulted(ps[i]) <= TotalRecords(ps)
  {
    if i > 0 {
      DefaultedAtMostTotal(ps[1..], i - 1);
      assert ps[1..][i - 1] == ps[i];
    }
  }

  /** `project_name`, else `name`, else "". */
  function DisplayName(p: Project): (r: string)
    ensures r == "" <==> p.projectName == "" && p.name == ""
    ensures r != "" ==> r == p.projectName || r == p.name
    ensures p.projectName != "" ==> r == p.projectName
  {
    if p.projectName != "" then p.projectName
    else if p.name != "" then p.name
    else ""
  }

  /** `projectIds`, else `[id]`, else `[]`. A present list is taken as it is,
      even when empty (an array is truthy). */
  function IdList(p: Project): (r: seq<int>)
    ensures p.projectIds.Some? ==> r == p.projectIds.value
    ensures p.projectIds.None? ==> (r == [p.id] <==> p.id != 0)
    ensures p.projectIds.None? ==> (r == [] <==> p.id == 0)
  {
    match p.projectIds
    case Some(ids) => ids
    case None => if p.id != 0 then [p.id] else []
  }

  /** A project becomes a row when it has a name and at least one id. */
  predicate Kept(p: Project)
  {
    DisplayName(p) != "" && |IdList(p)| > 0
  }

  /** The projects that become rows, in input order: the reference the row
      builder is checked against. */
  function KeptProjects(ps: seq<Project>): (r: seq<Project>)
    ensures |r| <= |ps|
    ensures forall q :: q in r ==> q in ps && Kept(q)
  {
    if |ps| == 0 then []
    else if Kept(ps[0]) then [ps[0]] + KeptProjects(ps[1..])
    else KeptProjects(ps[1..])
  }

  /** A project is among the kept ones exactly when it is listed and kept. */
  lemma {:induction false} KeptProjectsMembership(ps: seq<Project>, q: Project)
    ensures q in KeptProjects(ps) <==> q in ps && Kept(q)
  {
    if |ps| > 0 {
      KeptProjectsMembership(ps[1..], q);
      assert ps == [ps[0]] + ps[1..];
    }
  }

  /** `(coding_records / total_records) * 100` */
  function Share(records: nat, total: nat): (share: real)
    requires total > 0
    ensures share * total as real == 100.0 * records as real
  {
    (records as real / total as real) * 100.0
  }

  /** A share of a positive part of the total lies in (0, 100]. */
  lemma ShareBounds(records: nat, total: nat)
    requires 1 <= records <= total
    ensures 0.0 < Share(records, total) <= 100.0
  {
    var q := records as real / total as real;
    assert q * total as real == records as real;
    assert 0.0 < q <= 1.0;
  }

  /** The row for a kept project, numbered `line`. */
  function RowFor(p: Project, total: nat, line: nat): (c: Checkbox)
    requires total > 0
    ensures c.name == DisplayName(p) && c.value == IdList(p)
    ensures c.checked && c.lineNumber == line
    ensures c.codingRecords == Defaulted(p)
    ensures c.share == Share(Defaulted(p), total)
  {
    Checkbox(DisplayName(p), IdList(p), true, Share(Defaulted(p), total), Defaulted(p), line)
  }

  /** The loop over the projects: kept ones become rows numbered from
      `line` on; skipped ones do not use up a number. */
  function BuildRows(ps: seq<Project>, total: nat, line: nat): (r: seq<Checkbox>)
    requires total > 0
    ensures |r| == |KeptProjects(ps)|
    ensures forall i :: 0 <= i < |r| ==> r[i] == RowFor(KeptProjects(ps)[i], total, line + i)
  {
    if |ps| == 0 then []
    else if Kept(ps[0]) then [RowFor(ps[0], total, line)] + BuildRows(ps[1..], total, line + 1)
    else BuildRows(ps[1..], total, line)
  }

  // ---------------------------------------------------------------------
  // Sorting
  // ---------------------------------------------------------------------

  /** `checkboxes.sort((a, b) => b.coding_records - a.coding_records)` keeps
      row `a` before row `b` when this holds. */
  predicate NotAfter(a: Checkbox, b: Checkbox)
  {
    a.codingRecords >= b.codingRecords
  }

  /** Non-increasing by record count. */
  predicate Sorted(s: seq<Checkbox>)
  {
    forall i, j :: 0 <= i < j < |s| ==> NotAfter(s[i], s[j])
  }

  /** The stable order: more records first, equal counts by line number. */
  predicate Before(a: Checkbox, b: Checkbox)
  {
    a.codingRecords > b.codingRecords
    || (a.codingRecords == b.codingRecords && a.lineNumber < b.lineNumber)
  }

  predicate Ordered(s: seq<Checkbox>)
  {
    forall i, j :: 0 <= i < j < |s| ==> Before(s[i], s[j])
  }

  /** Line numbers increase along the sequence, as the row builder numbers them. */
  predicate LinesIncrease(s: seq<Checkbox>)
  {
    forall i, j :: 0 <= i < j < |s| ==> s[i].lineNumber < s[j].lineNumber
  }

  /** Inserts `x` in front of the first row it is not after; equal counts
      keep `x` first. */
  function Insert(x: Checkbox, s: seq<Checkbox>): (r: seq<Checkbox>)
    requires Sorted(s)
    ensures Sorted(r)
    ensures multiset(r) == multiset(s) + multiset{x}
    ensures forall y :: y in r <==> y in s || y == x
  {
    if |s| == 0 || NotAfter(x, s[0]) then
      SortedCons(x, s);
      [x] + s
    else
      var t := Insert(x, s[1..]);
      assert s == [s[0]] + s[1..];
      SortedCons(s[0], t);
      [s[0]] + t
  }

  /** A row not after any row of a sorted sequence can go in front of it. */
  lemma SortedCons(a: Checkbox, t: seq<Checkbox>)
    requires Sorted(t)
    requires forall y :: y in t ==> NotAfter(a, y)
    ensures Sorted([a] + t)
  {
    var r := [a] + t;
    forall i, j | 0 <= i < j < |r|
      ensures NotAfter(r[i], r[j])
    {
      assert r[j] == t[j - 1];
      if i > 0 {
        assert r[i] == t[i - 1];
      }
    }
  }

  /** A stable sort by record count, largest first: the first row goes
      in front of every later row it is not after. */
  function SortRows(rows: seq<Checkbox>): (r: seq<Checkbox>)
    ensures Sorted(r)
    ensures multiset(r) == multiset(rows)
    ensures |r| == |rows|
  {
    if |rows| == 0 then []
    else
      assert rows == [rows[0]] + rows[1..];
      Insert(rows[0], SortRows(rows[1..]))
  }

  /** A row before every row of an ordered sequence can go in front of it. */
  lemma OrderedCons(a: Checkbox, t: seq<Checkbox>)
    requires Ordered(t)
    requires forall y :: y in t ==> Before(a, y)
    ensures Ordered([a] + t)
  {
    assert forall k :: 0 <= k < |t| ==> t[k] in t;
  }

  /** Inserting a row numbered before every other one keeps the stable order. */
  lemma {:induction false} InsertOrdered(x: Checkbox, s: seq<Checkbox>)
    requires Sorted(s) && Ordered(s)
    requires forall y :: y in s ==> x.lineNumber < y.lineNumber
    ensures Ordered(Insert(x, s))
  {
    if |s| == 0 || NotAfter(x, s[0]) {
      OrderedCons(x, s);
    } else {
      var rest := s[1..];
      assert Ordered(rest);
      InsertOrdered(x, rest);
      forall y | y in rest
        ensures Before(s[0], y)
      {
        var k :| 0 <= k < |rest| && rest[k] == y;
        assert s[k + 1] == y;
      }
      OrderedCons(s[0], Insert(x, rest));
    }
  }

  /** Stability: rows numbered in input order come out with equal counts
      still in input order. */
  lemma {:induction false} SortRowsStable(rows: seq<Checkbox>)
    requires LinesIncrease(rows)
    ensures Ordered(SortRows(rows))
  {
    if |rows| > 0 {
      var rest := rows[1..];
      assert LinesIncrease(rest);
      SortRowsStable(rest);
      var s := SortRows(rest);
      forall y | y in s
        ensures rows[0].lineNumber < y.lineNumber
      {
        assert y in multiset(s);
        assert y in rest;
      }
      InsertOrdered(rows[0], s);
    }
  }

  // ---------------------------------------------------------------------
  // The whole response
  // ---------------------------------------------------------------------

  /** The listing a response carries; a failure or an absent listing is empty. */
  function Listing(resp: Response): (r: seq<Project>)
    ensures resp.Failed? || resp.data.None? ==> r == []
  {
    if resp.Ok? && resp.data.Some? then resp.data.value else []
  }

  /** The rows built from the listing, in input order, before sorting. */
  function UnsortedRows(resp: Response): (r: seq<Checkbox>)
    ensures |r| == |KeptProjects(Listing(resp))|
  {
    var ps := Listing(resp);
    if |ps| == 0 then [] else BuildRows(ps, TotalRecords(ps), 0)
  }

  /** The checkbox rows for a response: a permutation of the rows for the
      kept projects, sorted by record count, every one checked and with a
      share in (0, 100]. */
  function ProjectCheckboxes(resp: Response): (r: seq<Checkbox>)
    ensures Listing(resp) == [] ==> r == []
    ensures multiset(r) == multiset(UnsortedRows(resp))
    ensures |r| == |KeptProjects(Listing(resp))|
    ensures Sorted(r)
    ensures forall c :: c in r ==> c.checked && c.codingRecords >= 1 && 0.0 < c.share <= 100.0
  {
    var ps := Listing(resp);
    if |ps| == 0 then []
    else
      var total := TotalRecords(ps);
      var rows := BuildRows(ps, total, 0);
      assert forall c :: c in rows ==> c.checked && c.codingRecords >= 1 && 0.0 < c.share <= 100.0 by {
        forall c | c in rows
          ensures c.checked && c.codingRecords >= 1 && 0.0 < c.share <= 100.0
        {
          var i :| 0 <= i < |rows| && rows[i] == c;
          var q := KeptProjects(ps)[i];
          KeptProjectsMembership(ps, q);
          var j :| 0 <= j < |ps| && ps[j] == q;
          DefaultedAtMostTotal(ps, j);
          ShareBounds(Defaulted(q), total);
        }
      }
      var r := SortRows(rows);
      assert forall c :: c in r ==> c in multiset(rows);
      r
  }

  /** The rows come out in the stable order: more records first, equal
      counts in input order. */
  lemma ProjectCheckboxesStable(resp: Response)
    ensures Ordered(ProjectCheckboxes(resp))
  {
    var ps := Listing(resp);
    if |ps| > 0 {
      SortRowsStable(BuildRows(ps, TotalRecords(ps), 0));
    }
  }

  /** The row for a project: its name, its ids and its defaulted count. */
  predicate RowOf(c: Checkbox, q: Project)
  {
    c.name == DisplayName(q) && c.value == IdList(q) && c.codingRecords == Defaulted(q)
  }

  /** A project is shown exactly when it is listed, named and has ids, and
      every row shown is the row of such a project. */
  lemma ProjectShownIff(resp: Response, q: Project)
    ensures (exists c :: c in ProjectCheckboxes(resp) && RowOf(c, q)) <== q in Listing(resp) && Kept(q)
    ensures forall c :: c in ProjectCheckboxes(resp) ==>
      exists p :: p in Listing(resp) && Kept(p) && RowOf(c, p)
  {
    if q in Listing(resp) && Kept(q) {
      KeptProjectShown(resp, q);
    }
    forall c | c in ProjectCheckboxes(resp)
      ensures exists p :: p in Listing(resp) && Kept(p) && RowOf(c, p)
    {
      ShownRowIsKept(resp, c);
    }
  }

  /** A kept project of the listing has a row. */
  lemma KeptProjectShown(resp: Response, q: Project)
    requires q in Listing(resp) && Kept(q)
    ensures exists c :: c in ProjectCheckboxes(resp) && RowOf(c, q)
  {
    var ps := Listing(resp);
    var rows := UnsortedRows(resp);
    KeptProjectsMembership(ps, q);
    var i :| 0 <= i < |KeptProjects(ps)| && KeptProjects(ps)[i] == q;
    assert rows[i] in multiset(rows);
    assert rows[i] in ProjectCheckboxes(resp) && RowOf(rows[i], q);
  }

  /** Every row shown belongs to a kept project of the listing. */
  lemma ShownRowIsKept(resp: Response, c: Checkbox)
    requires c in ProjectCheckboxes(resp)
    ensures exists p :: p in Listing(resp) && Kept(p) && RowOf(c, p)
  {
    var ps := Listing(resp);
    var rows := UnsortedRows(resp);
    assert c in multiset(rows);
    var i :| 0 <= i < |rows| && rows[i] == c;
    assert |ps| > 0;
    var p := KeptProjects(ps)[i];
    assert c == RowFor(p, TotalRecords(ps), i);
    KeptProjectsMembership(ps, p);
    assert RowOf(c, p);
  }
}
