/**
 * The usage report behind `GET /packages`: installation rows created in
 * the last day and joined to their package are grouped by package id;
 * each group yields the package's id, name and version, the number of
 * rows (`unique`) and the sum of their `count` column; groups are ordered
 * by `unique`, largest first.
 *
 * The query is declarative and leaves the order of groups with equal
 * `unique` to the database.  `IsReport` states what every answer the
 * query may give satisfies; `Report` computes one such answer.
 * Timestamps are whole seconds and the database's `now()` is a parameter.
 */
module UsageReport {
  import opened Wrappers

  /** `interval '1 day'`, in seconds. */
  const DAY: int := 86400

  /** A package row: one name at one version, with its own id. */
  datatype Package = Package(id: int, name: string, version: string)

  /** An installation row: checks of one package from one client on one day. */
  datatype Installation = Installation(id: int, packageId: int, createdAt: int, count: int)

  /** One report entry: the keys `id, package, version, unique, count`. */
  datatype Row = Row(id: int, name: string, version: string, unique: nat, count: int)

  /**
   * Package ids are a primary key.  This predicate, `Distinct` (group keys)
   * and `DistinctIds` (report entries) state one idea, "no two share a key",
   * over three element types.  Each is written directly on its own sequence
   * rather than on a projected sequence of keys, so that its quantifier
   * triggers on plain indexing.
   */
  predicate UniqueIds(packages: seq<Package>) {
    forall i, j :: 0 <= i < j < |packages| ==> packages[i].id != packages[j].id
  }

  /** Some package has id `id`. */
  ghost predicate Joined(packages: seq<Package>, id: int) {
    exists p :: p in packages && p.id == id
  }

  /** The first package with id `id`, if any. */
  function Lookup(packages: seq<Package>, id: int): (r: Option<Package>)
    ensures r.Some? ==> r.value in packages && r.value.id == id
    ensures r.None? <==> !Joined(packages, id)
  {
    if packages == [] then None
    else if packages[0].id == id then Some(packages[0])
    else Lookup(packages[1..], id)
  }

  /** The time half of the filter: created strictly after `now - 1 day`. */
  predicate InWindow(x: Installation, now: int) {
    x.createdAt > now - DAY
  }

  /** The filter: rows in the window that join to a package, in their order. */
  function Window(installations: seq<Installation>, packages: seq<Package>, now: int): (w: seq<Installation>)
    ensures forall x :: x in w <==> x in installations && InWindow(x, now) && Joined(packages, x.packageId)
    ensures |w| <= |installations|
  {
    if installations == [] then []
    else
      var x := installations[0];
      var rest := Window(installations[1..], packages, now);
      if InWindow(x, now) && Lookup(packages, x.packageId).Some? then [x] + rest else rest
  }

  /** The rows of the group with package id `id`, in their order. */
  function OfPackage(rows: seq<Installation>, id: int): (g: seq<Installation>)
    ensures forall x :: x in g <==> x in rows && x.packageId == id
    ensures |g| <= |rows|
  {
    if rows == [] then []
    else if rows[0].packageId == id then [rows[0]] + OfPackage(rows[1..], id)
    else OfPackage(rows[1..], id)
  }

  /**
   * A group holds each row with its package id as often as the rows do,
   * and no other row: its length is the number of such rows.
   */
  lemma {:induction false} OfPackageCounts(rows: seq<Installation>, id: int)
    ensures forall x :: multiset(OfPackage(rows, id))[x] == if x.packageId == id then multiset(rows)[x] else 0
  {
    if rows != [] {
      OfPackageCounts(rows[1..], id);
      assert rows == [rows[0]] + rows[1..];
    }
  }

  /** `sum(count)` over some rows. */
  function SumCounts(rows: seq<Installation>): int {
    if rows == [] then 0 else rows[0].count + SumCounts(rows[1..])
  }

  /** No two group keys are equal; see `UniqueIds`. */
  predicate Distinct(ids: seq<int>) {
    forall i, j :: 0 <= i < j < |ids| ==> ids[i] != ids[j]
  }

  /** The group keys of some rows: each package id once. */
  function GroupIds(rows: seq<Installation>): (ids: seq<int>)
    ensures forall id :: id in ids <==> exists x :: x in rows && x.packageId == id
    ensures Distinct(ids)
  {
    if rows == [] then []
    else
      var rest := GroupIds(rows[1..]);
      if rows[0].packageId in rest then rest else [rows[0].packageId] + rest
  }

  /** The entry of the group with package id `id` among the filtered rows `w`. */
  function Entry(w: seq<Installation>, packages: seq<Package>, id: int): (r: Row)
    requires Joined(packages, id)
  {
    var p := Lookup(packages, id).value;
    var g := OfPackage(w, id);
    Row(id, p.name, p.version, |g|, SumCounts(g))
  }

  /** One entry per group key, in the order of the keys. */
  function Entries(w: seq<Installation>, packages: seq<Package>, ids: seq<int>): (rows: seq<Row>)
    requires forall id :: id in ids ==> Joined(packages, id)
    ensures |rows| == |ids|
    ensures forall i :: 0 <= i < |ids| ==> rows[i] == Entry(w, packages, ids[i])
  {
    if ids == [] then [] else [Entry(w, packages, ids[0])] + Entries(w, packages, ids[1..])
  }

  /** `ORDER BY count(installation.id) DESC`. */
  predicate NonIncreasing(rows: seq<Row>) {
    forall i, j :: 0 <= i < j < |rows| ==> rows[i].unique >= rows[j].unique
  }

  /** No two entries share a package id; see `UniqueIds`. */
  predicate DistinctIds(rows: seq<Row>) {
    forall i, j :: 0 <= i < j < |rows| ==> rows[i].id != rows[j].id
  }

  /** Prepending an entry no smaller than the rest keeps the order. */
  lemma ConsNonIncreasing(h: Row, rows: seq<Row>)
    requires NonIncreasing(rows)
    requires forall y :: y in rows ==> h.unique >= y.unique
    ensures NonIncreasing([h] + rows)
  {
    forall i, j | 0 <= i < j < |[h] + rows| ensures ([h] + rows)[i].unique >= ([h] + rows)[j].unique {
      if i == 0 {
        assert ([h] + rows)[j] == rows[j - 1];
        assert rows[j - 1] in rows;
      }
    }
  }

  /** Prepending an entry whose id the rest lacks keeps ids distinct. */
  lemma ConsDistinctIds(h: Row, rows: seq<Row>)
    requires DistinctIds(rows)
    requires forall y :: y in rows ==> y.id != h.id
    ensures DistinctIds([h] + rows)
  {
    forall i, j | 0 <= i < j < |[h] + rows| ensures ([h] + rows)[i].id != ([h] + rows)[j].id {
      if i == 0 {
        assert ([h] + rows)[j] == rows[j - 1];
        assert rows[j - 1] in rows;
      }
    }
  }

  /** Inserts `r` before the first entry with a `unique` no larger than its own. */
  function InsertByUnique(r: Row, rows: seq<Row>): (t: seq<Row>)
    requires NonIncreasing(rows)
    ensures NonIncreasing(t)
    ensures multiset(t) == multiset(rows) + multiset{r}
    ensures DistinctIds(rows) && (forall y :: y in rows ==> y.id != r.id) ==> DistinctIds(t)
  {
    if rows == [] || r.unique >= rows[0].unique then
      ConsNonIncreasing(r, rows);
      ConsDistinctIdsIf(r, rows);
      [r] + rows
    else
      var rest := InsertByUnique(r, rows[1..]);
      InsertBehind(r, rows, rest);
      [rows[0]] + rest
  }

  /** Keeping the head in front of the insertion into the tail. */
  lemma InsertBehind(r: Row, rows: seq<Row>, rest: seq<Row>)
    requires rows != [] && r.unique < rows[0].unique && NonIncreasing(rows)
    requires NonIncreasing(rest)
    requires multiset(rest) == multiset(rows[1..]) + multiset{r}
    requires DistinctIds(rows[1..]) && (forall y :: y in rows[1..] ==> y.id != r.id) ==> DistinctIds(rest)
    ensures NonIncreasing([rows[0]] + rest)
    ensures multiset([rows[0]] + rest) == multiset(rows) + multiset{r}
    ensures DistinctIds(rows) && (forall y :: y in rows ==> y.id != r.id) ==> DistinctIds([rows[0]] + rest)
  {
    InsertedAmong(r, rows, rest);
    assert multiset([rows[0]] + rest) == multiset(rows) + multiset{r} by {
      assert rows == [rows[0]] + rows[1..];
    }
    HeadAboveRest(r, rows, rest);
    ConsNonIncreasing(rows[0], rest);
    if DistinctIds(rows) && (forall y :: y in rows ==> y.id != r.id) {
      HeadIdNotInRest(r, rows, rest);
      ConsDistinctIds(rows[0], rest);
    }
  }

  /** After inserting `r` into the tail, each entry is `r` or was in the tail. */
  lemma InsertedAmong(r: Row, rows: seq<Row>, rest: seq<Row>)
    requires rows != [] && multiset(rest) == multiset(rows[1..]) + multiset{r}
    ensures forall y :: y in rest ==> y == r || y in rows[1..]
  {
    forall y | y in rest ensures y == r || y in rows[1..] {
      assert y in multiset(rest);
    }
  }

  /** The head of a non-increasing list is no smaller than the insertion into its tail. */
  lemma HeadAboveRest(r: Row, rows: seq<Row>, rest: seq<Row>)
    requires rows != [] && r.unique < rows[0].unique && NonIncreasing(rows)
    requires forall y :: y in rest ==> y == r || y in rows[1..]
    ensures forall y :: y in rest ==> rows[0].unique >= y.unique
  {
    forall y | y in rest ensures rows[0].unique >= y.unique {
      if y != r {
        var k :| 0 <= k < |rows| - 1 && rows[1..][k] == y;
        assert rows[k + 1] == y;
      }
    }
  }

  /** With distinct ids, the head's id is not among the insertion into the tail. */
  lemma HeadIdNotInRest(r: Row, rows: seq<Row>, rest: seq<Row>)
    requires rows != [] && DistinctIds(rows) && (forall y :: y in rows ==> y.id != r.id)
    requires forall y :: y in rest ==> y == r || y in rows[1..]
    ensures forall y :: y in rest ==> y.id != rows[0].id
  {
    assert rows[0] in rows;
    forall y | y in rest ensures y.id != rows[0].id {
      if y != r {
        var k :| 0 <= k < |rows| - 1 && rows[1..][k] == y;
        assert rows[k + 1] == y;
      }
    }
  }

  /** ConsDistinctIds, when its premises hold. */
  lemma ConsDistinctIdsIf(h: Row, rows: seq<Row>)
    ensures DistinctIds(rows) && (forall y :: y in rows ==> y.id != h.id) ==> DistinctIds([h] + rows)
  {
    if DistinctIds(rows) && (forall y :: y in rows ==> y.id != h.id) {
      ConsDistinctIds(h, rows);
    }
  }

  /** A stable sort on `unique`, largest first. */
  function SortByUnique(rows: seq<Row>): (t: seq<Row>)
    ensures NonIncreasing(t)
    ensures multiset(t) == multiset(rows)
    ensures DistinctIds(rows) ==> DistinctIds(t)
  {
    if rows == [] then []
    else
      var rest := SortByUnique(rows[1..]);
      SortStep(rows, rest);
      InsertByUnique(rows[0], rest)
  }

  /** What inserting the head into a sorted permutation of the tail can rely on. */
  lemma SortStep(rows: seq<Row>, rest: seq<Row>)
    requires rows != [] && multiset(rest) == multiset(rows[1..])
    requires DistinctIds(rows) ==> DistinctIds(rest)
    ensures multiset(rest) + multiset{rows[0]} == multiset(rows)
    ensures DistinctIds(rows) ==> DistinctIds(rest) && forall y :: y in rest ==> y.id != rows[0].id
  {
    assert rows == [rows[0]] + rows[1..];
    forall y | y in rest ensures y in rows[1..] {
      assert y in multiset(rest);
    }
  }

  /** The report the query returns, with groups of equal `unique` in one fixed order. */
  function Report(installations: seq<Installation>, packages: seq<Package>, now: int): (report: seq<Row>)
    requires UniqueIds(packages)
  {
    var w := Window(installations, packages, now);
    SortByUnique(Entries(w, packages, GroupIds(w)))
  }

  /**
   * `r` is the entry of the group of filtered rows `w` with package id
   * `r.id`: it names a package with that id, counts the group's rows and
   * sums their counts, and the group is not empty.
   */
  ghost predicate Describes(w: seq<Installation>, packages: seq<Package>, r: Row) {
    (exists p :: p in packages && p.id == r.id && p.name == r.name && p.version == r.version) &&
    r.unique == |OfPackage(w, r.id)| && r.count == SumCounts(OfPackage(w, r.id)) &&
    r.unique > 0
  }

  /** With unique package ids, a group has one possible entry. */
  lemma DescribedOnce(w: seq<Installation>, packages: seq<Package>, r: Row, s: Row)
    requires UniqueIds(packages)
    requires Describes(w, packages, r) && Describes(w, packages, s) && r.id == s.id
    ensures r == s
  {
    var p :| p in packages && p.id == r.id && p.name == r.name && p.version == r.version;
    var q :| q in packages && q.id == s.id && q.name == s.name && q.version == s.version;
    var i, j :| 0 <= i < |packages| && packages[i] == p && 0 <= j < |packages| && packages[j] == q;
    assert i == j;
  }

  /**
   * What any answer of the query satisfies: an entry per package id that
   * has a filtered row and for no other, each id once, each entry holding
   * that package's name and version, its number of filtered rows and the
   * sum of their counts, and `unique` never increasing down the list.
   */
  ghost predicate IsReport(installations: seq<Installation>, packages: seq<Package>, now: int,
                           report: seq<Row>)
  {
    var w := Window(installations, packages, now);
    (forall r :: r in report ==> Describes(w, packages, r)) &&
    (forall x :: x in installations && InWindow(x, now) && Joined(packages, x.packageId) ==>
       exists r :: r in report && r.id == x.packageId) &&
    DistinctIds(report) &&
    NonIncreasing(report)
  }

  /** The computed report is an answer of the query. */
  lemma ReportIsReport(installations: seq<Installation>, packages: seq<Package>, now: int)
    requires UniqueIds(packages)
    ensures IsReport(installations, packages, now, Report(installations, packages, now))
  {
    var w := Window(installations, packages, now);
    var report := Report(installations, packages, now);
    SortedEntries(w, packages);
    forall x | x in installations && InWindow(x, now) && Joined(packages, x.packageId)
      ensures exists r :: r in report && r.id == x.packageId
    {
      assert x in w;
    }
  }

  /**
   * The sorted entries of the groups of `w` describe those groups, and
   * every row of `w` has its entry among them.
   */
  lemma SortedEntries(w: seq<Installation>, packages: seq<Package>)
    requires forall x :: x in w ==> Joined(packages, x.packageId)
    ensures var report := SortByUnique(Entries(w, packages, GroupIds(w)));
      (forall r :: r in report ==> Describes(w, packages, r)) &&
      (forall x :: x in w ==> exists r :: r in report && r.id == x.packageId) &&
      DistinctIds(report) && NonIncreasing(report)
  {
    var ids := GroupIds(w);
    var rows := Entries(w, packages, ids);
    SortKeepsMembers(rows);
    assert DistinctIds(rows);
    EntriesDescribe(w, packages);
    forall x | x in w ensures exists r :: r in rows && r.id == x.packageId {
      assert x.packageId in ids;
      var i :| 0 <= i < |ids| && ids[i] == x.packageId;
      assert rows[i] in rows;
    }
  }

  /** Every entry of a group key of `w` describes its group. */
  lemma EntriesDescribe(w: seq<Installation>, packages: seq<Package>)
    requires forall x :: x in w ==> Joined(packages, x.packageId)
    ensures forall r :: r in Entries(w, packages, GroupIds(w)) ==> Describes(w, packages, r)
  {
    var ids := GroupIds(w);
    var rows := Entries(w, packages, ids);
    forall r | r in rows ensures Describes(w, packages, r) {
      var i :| 0 <= i < |ids| && rows[i] == r;
      EntryDescribesGroup(w, packages, ids[i]);
    }
  }

  /** Sorting neither adds nor drops an entry. */
  lemma SortKeepsMembers(rows: seq<Row>)
    ensures forall r :: r in SortByUnique(rows) <==> r in rows
  {
    var t := SortByUnique(rows);
    forall r ensures r in t <==> r in rows {
      assert r in t <==> r in multiset(t);
    }
  }

  /** The entry of a group key names its package and counts its rows. */
  lemma EntryDescribesGroup(w: seq<Installation>, packages: seq<Package>, id: int)
    requires id in GroupIds(w)
    requires forall x :: x in w ==> Joined(packages, x.packageId)
    ensures Entry(w, packages, id).id == id && Describes(w, packages, Entry(w, packages, id))
  {
    var x :| x in w && x.packageId == id;
    assert x in OfPackage(w, id);
    assert Lookup(packages, id).value in packages;
  }

  /**
   * The query's answer is determined up to the order of equal `unique`
   * values: two answers hold the same entries.
   */
  lemma ReportsAgreeUpToTies(installations: seq<Installation>, packages: seq<Package>, now: int,
                             a: seq<Row>, b: seq<Row>)
    requires UniqueIds(packages)
    requires IsReport(installations, packages, now, a)
    requires IsReport(installations, packages, now, b)
    ensures forall r :: r in a <==> r in b
  {
    forall r | r in a ensures r in b {
      EntryInBoth(installations, packages, now, a, b, r);
    }
    forall r | r in b ensures r in a {
      EntryInBoth(installations, packages, now, b, a, r);
    }
  }

  /** An entry of one answer is an entry of every other. */
  lemma EntryInBoth(installations: seq<Installation>, packages: seq<Package>, now: int,
                    a: seq<Row>, b: seq<Row>, r: Row)
    requires UniqueIds(packages)
    requires IsReport(installations, packages, now, a)
    requires IsReport(installations, packages, now, b)
    requires r in a
    ensures r in b
  {
    var w := Window(installations, packages, now);
    assert Describes(w, packages, r);
    var g := OfPackage(w, r.id);
    var x := g[0];
    assert x in w by { assert x in g; }
    assert exists s :: s in b && s.id == x.packageId;
    var s :| s in b && s.id == x.packageId;
    DescribedOnce(w, packages, r, s);
  }

  /** The filter distributes over concatenation: rows are judged one by one. */
  lemma {:induction false} WindowConcat(a: seq<Installation>, b: seq<Installation>,
                                        packages: seq<Package>, now: int)
    ensures Window(a + b, packages, now) == Window(a, packages, now) + Window(b, packages, now)
  {
    if a == [] {
      assert a + b == b;
    } else {
      assert (a + b)[1..] == a[1..] + b;
      WindowConcat(a[1..], b, packages, now);
    }
  }

  /**
   * A row created a day or more before `now` changes nothing in the
   * report, wherever it stands among the others.
   */
  lemma StaleRowIgnored(before: seq<Installation>, x: Installation, after: seq<Installation>,
                        packages: seq<Package>, now: int)
    requires UniqueIds(packages)
    requires x.createdAt <= now - DAY
    ensures Report(before + [x] + after, packages, now) == Report(before + after, packages, now)
  {
    WindowConcat(before + [x], after, packages, now);
    WindowConcat(before, [x], packages, now);
    WindowConcat(before, after, packages, now);
    assert Window([x], packages, now) == [];
    assert Window(before + [x] + after, packages, now) == Window(before + after, packages, now);
    ReportReadsWindow(before + [x] + after, before + after, packages, now);
  }

  /** The report sees the installation rows only through the filter. */
  lemma ReportReadsWindow(a: seq<Installation>, b: seq<Installation>, packages: seq<Package>, now: int)
    requires UniqueIds(packages)
    requires Window(a, packages, now) == Window(b, packages, now)
    ensures Report(a, packages, now) == Report(b, packages, now)
  {
  }

  /** No filtered rows, no entries: the report is `[]`, never a zero entry. */
  lemma EmptyReportIffNoRows(installations: seq<Installation>, packages: seq<Package>, now: int)
    requires UniqueIds(packages)
    ensures Report(installations, packages, now) == [] <==>
      forall x :: x in installations ==> !InWindow(x, now) || !Joined(packages, x.packageId)
  {
    var w := Window(installations, packages, now);
    var rows := Entries(w, packages, GroupIds(w));
    var report := Report(installations, packages, now);
    assert |report| == |rows| by {
      assert |multiset(report)| == |multiset(rows)|;
    }
    if w != [] {
      assert w[0] in w;
      assert w[0].packageId in GroupIds(w);
    }
  }

  /**
   * When every filtered row belongs to one package, the report is that
   * package's single entry, counting all of the rows and their checks.
   */
  lemma SinglePackageReport(installations: seq<Installation>, packages: seq<Package>, now: int, p: Package)
    requires UniqueIds(packages) && p in packages
    requires Window(installations, packages, now) != []
    requires forall x :: x in Window(installations, packages, now) ==> x.packageId == p.id
    ensures var w := Window(installations, packages, now);
      Report(installations, packages, now) == [Row(p.id, p.name, p.version, |w|, SumCounts(w))]
  {
    var w := Window(installations, packages, now);
    var ids := GroupIds(w);
    GroupIdsOfOne(w, p.id);
    assert Entry(w, packages, p.id) == Row(p.id, p.name, p.version, |w|, SumCounts(w)) by {
      OfPackageAll(w, p.id);
      LookupFindsThePackage(packages, p);
    }
    assert Entries(w, packages, ids) == [Entry(w, packages, p.id)];
  }

  /** Grouping non-empty rows that all carry one package id gives that one key. */
  lemma {:induction false} GroupIdsOfOne(rows: seq<Installation>, id: int)
    requires rows != []
    requires forall x :: x in rows ==> x.packageId == id
    ensures GroupIds(rows) == [id]
  {
    assert rows[0] in rows;
    if |rows| > 1 {
      assert rows[1] in rows[1..];
      GroupIdsOfOne(rows[1..], id);
    }
  }

  /** With unique ids, looking a package's id up finds that package. */
  lemma LookupFindsThePackage(packages: seq<Package>, p: Package)
    requires UniqueIds(packages) && p in packages
    ensures Lookup(packages, p.id) == Some(p)
  {
    var q := Lookup(packages, p.id).value;
    var i, j :| 0 <= i < |packages| && packages[i] == p && 0 <= j < |packages| && packages[j] == q;
    assert i == j;
  }

  /** Grouping rows that all carry one package id gives all of them. */
  lemma {:induction false} OfPackageAll(rows: seq<Installation>, id: int)
    requires forall x :: x in rows ==> x.packageId == id
    ensures OfPackage(rows, id) == rows
  {
    if rows != [] {
      assert rows[0] in rows;
      OfPackageAll(rows[1..], id);
      assert rows == [rows[0]] + rows[1..];
    }
  }

  /**
   * Packages are grouped by id, not by name: two package rows of one name
   * at different versions, each with a filtered row, get two entries.
   */
  lemma SeparateEntriesPerPackageId(installations: seq<Installation>, packages: seq<Package>, now: int,
                                    x: Installation, y: Installation)
    requires UniqueIds(packages)
    requires x in installations && InWindow(x, now) && Joined(packages, x.packageId)
    requires y in installations && InWindow(y, now) && Joined(packages, y.packageId)
    requires x.packageId != y.packageId
    ensures var report := Report(installations, packages, now);
      exists i, j :: 0 <= i < |report| && 0 <= j < |report| && i != j &&
        report[i].id == x.packageId && report[j].id == y.packageId
  {
    var report := Report(installations, packages, now);
    assert exists r :: r in report && r.id == x.packageId by {
      ReportIsReport(installations, packages, now);
    }
    assert exists s :: s in report && s.id == y.packageId by {
      ReportIsReport(installations, packages, now);
    }
    var r :| r in report && r.id == x.packageId;
    var s :| s in report && s.id == y.packageId;
    var i :| 0 <= i < |report| && report[i] == r;
    var j :| 0 <= j < |report| && report[j] == s;
  }
}
