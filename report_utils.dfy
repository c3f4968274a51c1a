/**
 * The row-list utilities of the report engine: date-range resolution and
 * membership, the summary record, grouping, sorting, column projection
 * and the CSV text of an export.
 */
module ReportUtils {
  import opened Wrappers
  import opened Seqs
  import opened Strings
  import opened ReportTypes

  // ---------------------------------------------------------------------
  // Date ranges
  // ---------------------------------------------------------------------

  /**
   * `getDateRange(type, startDate, endDate)`: the calendar period of the
   * named kind; for `custom`, each given (non-empty) bound is parsed and a
   * missing one falls back to the current month; any other kind is the
   * current month.
   */
  function GetDateRange(kind: RangeKind, startDate: Option<string>, endDate: Option<string>, cal: Calendar, env: Env): (r: Range)
    ensures kind != Custom ==> r in [cal.today, cal.week, cal.month, cal.quarter, cal.year]
    ensures kind == Custom && Blank(startDate) ==> r.start == cal.month.start
    ensures kind == Custom && Blank(endDate) ==> r.end == cal.month.end
  {
    match kind
    case Today => cal.today
    case Week => cal.week
    case Month => cal.month
    case Quarter => cal.quarter
    case Year => cal.year
    case Custom =>
      Range(
        if !Blank(startDate) then env.parse(startDate.value) else cal.month.start,
        if !Blank(endDate) then env.parse(endDate.value) else cal.month.end)
    case Other => cal.month
  }

  /** Only a custom range looks at the dates it is given; an unknown kind is the current month. */
  lemma NamedRangeIgnoresDates(kind: RangeKind, s1: Option<string>, e1: Option<string>, s2: Option<string>, e2: Option<string>, cal: Calendar, env: Env)
    requires kind != Custom
    ensures GetDateRange(kind, s1, e1, cal, env) == GetDateRange(kind, s2, e2, cal, env)
    ensures kind == Other ==> GetDateRange(kind, s1, e1, cal, env) == cal.month
  {
  }

  /** A custom range takes each given bound from the parser, and each missing or empty bound from the current month. */
  lemma CustomRangeBounds(startDate: Option<string>, endDate: Option<string>, cal: Calendar, env: Env)
    ensures var r := GetDateRange(Custom, startDate, endDate, cal, env);
      && (if Blank(startDate) then r.start == cal.month.start else r.start == env.parse(startDate.value))
      && (if Blank(endDate) then r.end == cal.month.end else r.end == env.parse(endDate.value))
  {
  }

  /** `isDateInRange(dateStr, start, end)`: comparisons with an Invalid Date are false. */
  predicate IsDateInRange(dateStr: string, r: Range, env: Env) {
    var d := env.parse(dateStr);
    d.At? && r.start.At? && r.end.At? && r.start.ms <= d.ms <= r.end.ms
  }

  /** The range is closed at both ends; a malformed date or bound is never in range. */
  lemma DateInRangeInclusive(dateStr: string, r: Range, env: Env)
    ensures env.parse(dateStr) == r.start && r.start.At? && r.end.At? && r.start.ms <= r.end.ms ==> IsDateInRange(dateStr, r, env)
    ensures env.parse(dateStr) == r.end && r.start.At? && r.end.At? && r.start.ms <= r.end.ms ==> IsDateInRange(dateStr, r, env)
    ensures env.parse(dateStr) == Invalid || r.start == Invalid || r.end == Invalid ==> !IsDateInRange(dateStr, r, env)
    ensures IsDateInRange(dateStr, r, env) ==> r.start.ms <= env.parse(dateStr).ms <= r.end.ms
  {
  }

  /** A custom range with a malformed bound selects nothing: there is no fallback to the current month. */
  lemma MalformedBoundSelectsNothing(startDate: Option<string>, endDate: Option<string>, cal: Calendar, env: Env, dateStr: string)
    requires !Blank(startDate) && env.parse(startDate.value) == Invalid
    ensures !IsDateInRange(dateStr, GetDateRange(Custom, startDate, endDate, cal, env), env)
  {
  }

  /** `createReportSummary(data, start, end, metrics)`: fails like `format` on an Invalid Date. */
  function CreateReportSummary<T>(data: seq<T>, r: Range, metrics: Metrics, env: Env): (res: Result<Summary, string>)
    ensures res.Success? <==> r.start.At? && r.end.At?
    ensures res.Success? ==> res.value.totalRecords == |data| && res.value.metrics == metrics
    ensures res.Success? ==> res.value.start == env.fmt(r.start.ms, IsoDay) && res.value.end == env.fmt(r.end.ms, IsoDay)
  {
    match Format(env, r.start, IsoDay)
    case Failure(e) => Failure(e)
    case Success(start) =>
      match Format(env, r.end, IsoDay)
      case Failure(e) => Failure(e)
      case Success(end) => Success(Summary(|data|, start, end, metrics))
  }

  // ---------------------------------------------------------------------
  // Grouping
  // ---------------------------------------------------------------------

  /** `String(item[property] ?? 'unknown')`. */
  function GroupKey(item: Record, property: string): (k: string)
    ensures Get(item, property) in {Undefined, Null} ==> k == "unknown"
  {
    var v := Get(item, property);
    if v.Undefined? || v.Null? then "unknown" else ValueText(v)
  }

  /** The predicate "belongs to group `k`". */
  function InGroup(property: string, k: string): Record -> bool {
    item => GroupKey(item, property) == k
  }

  /** The keys some items group under. */
  ghost function KeysOf(done: seq<Record>, property: string): set<string> {
    set j | 0 <= j < |done| :: GroupKey(done[j], property)
  }

  /** The groups of some items, as the reduction of `groupByProperty` holds them part way. */
  ghost predicate GroupsOf(groups: map<string, seq<Record>>, done: seq<Record>, property: string) {
    && groups.Keys == KeysOf(done, property)
    && (forall k | k in groups :: groups[k] == Filter(done, InGroup(property, k)))
  }

  /** One more item adds its own key. */
  lemma KeysOfSnoc(done: seq<Record>, item: Record, property: string)
    ensures KeysOf(done + [item], property) == KeysOf(done, property) + {GroupKey(item, property)}
  {
    var after := done + [item];
    forall k | k in KeysOf(after, property) ensures k in KeysOf(done, property) + {GroupKey(item, property)} {
      var j :| 0 <= j < |after| && GroupKey(after[j], property) == k;
      if j < |done| {
        assert after[j] == done[j];
      }
    }
    forall k | k in KeysOf(done, property) ensures k in KeysOf(after, property) {
      var j :| 0 <= j < |done| && GroupKey(done[j], property) == k;
      assert after[j] == done[j];
    }
    assert after[|done|] == item;
  }

  /** One more item joins the group of its key and no other. */
  lemma GroupFilterSnoc(done: seq<Record>, item: Record, property: string, k: string)
    ensures Filter(done + [item], InGroup(property, k)) == Filter(done, InGroup(property, k)) + (if GroupKey(item, property) == k then [item] else [])
  {
    var after := done + [item];
    assert after[..|after| - 1] == done && after[|after| - 1] == item;
  }

  /** No earlier item has a key that is not yet a group. */
  lemma NewGroupEmpty(done: seq<Record>, property: string, k: string)
    requires k !in KeysOf(done, property)
    ensures Filter(done, InGroup(property, k)) == []
  {
    forall j | 0 <= j < |done| ensures !InGroup(property, k)(done[j]) {
      assert GroupKey(done[j], property) in KeysOf(done, property);
    }
    FilterNone(done, InGroup(property, k));
  }

  /** Pushing one more item onto its group (created empty when missing) groups one more item. */
  lemma GroupStep(groups: map<string, seq<Record>>, done: seq<Record>, item: Record, property: string)
    requires GroupsOf(groups, done, property)
    ensures var key := GroupKey(item, property);
      GroupsOf(groups[key := (if key in groups then groups[key] else []) + [item]], done + [item], property)
  {
    var key := GroupKey(item, property);
    var next := groups[key := (if key in groups then groups[key] else []) + [item]];
    KeysOfSnoc(done, item, property);
    forall k | k in next ensures next[k] == Filter(done + [item], InGroup(property, k)) {
      GroupFilterSnoc(done, item, property, k);
      if k == key && key !in groups {
        NewGroupEmpty(done, property, k);
      }
    }
  }

  /**
   * `groupByProperty(data, property)`: one group per key that occurs, and
   * each group holds exactly the items with that key, in input order.
   */
  method GroupByProperty(data: seq<Record>, property: string) returns (groups: map<string, seq<Record>>)
    ensures forall k :: k in groups <==> exists i :: 0 <= i < |data| && GroupKey(data[i], property) == k
    ensures forall k | k in groups :: groups[k] == Filter(data, InGroup(property, k))
  {
    groups := map[];
    var i := 0;
    while i < |data|
      invariant 0 <= i <= |data|
      invariant GroupsOf(groups, data[..i], property)
    {
      var item := data[i];
      var key := GroupKey(item, property);
      GroupStep(groups, data[..i], item, property);
      assert data[..i + 1] == data[..i] + [item];
      if key !in groups {
        groups := groups[key := []];
      }
      groups := groups[key := groups[key] + [item]];
      i := i + 1;
    }
    assert data[..i] == data;
    assert groups.Keys == KeysOf(data, property);
  }

  /** Every item lands in the group of its own key with all its copies, and in no other group. */
  lemma GroupsPartition(data: seq<Record>, property: string, item: Record, k: string)
    requires item in data
    ensures Occurrences(Filter(data, InGroup(property, GroupKey(item, property))), item) == Occurrences(data, item)
    ensures k != GroupKey(item, property) ==> item !in Filter(data, InGroup(property, k))
  {
    FilterMultiset(data, InGroup(property, GroupKey(item, property)), item);
    FilterMember(data, InGroup(property, k), item);
  }

  // ---------------------------------------------------------------------
  // Sorting
  // ---------------------------------------------------------------------

  predicate Missing(v: Value) {
    v.Undefined? || v.Null?
  }

  /** `typeof v === 'number'`. */
  predicate IsNumber(v: Value) {
    v.Num? || v.NaN?
  }

  /**
   * The comparator of `sortData` on two sort-key values: missing values
   * last, strings by `localeCompare`, numbers by difference (a NaN
   * difference counts as equal), any other pair equal.
   */
  function KeyCompare(a: Value, b: Value, dir: Direction, collate: (string, string) -> int): int {
    if Missing(a) then 1
    else if Missing(b) then -1
    else if a.Str? && b.Str? then (if dir == Asc then collate(a.s, b.s) else collate(b.s, a.s))
    else if IsNumber(a) && IsNumber(b) then
      (if a.NaN? || b.NaN? then 0 else if dir == Asc then a.n - b.n else b.n - a.n)
    else 0
  }

  /** The comparator `sortData` hands to `Array.prototype.sort`. */
  function RowCompare(sortBy: string, dir: Direction, collate: (string, string) -> int): (Record, Record) -> int {
    (a: Record, b: Record) => KeyCompare(Get(a, sortBy), Get(b, sortBy), dir, collate)
  }

  /** "The row has no value under `sortBy`". */
  function MissingKey(sortBy: string): Record -> bool {
    row => Missing(Get(row, sortBy))
  }

  /** `sortData(data, sortBy, direction)`: a sorted copy; the input is left as it is. */
  function SortData(data: seq<Record>, sortBy: string, dir: Direction, collate: (string, string) -> int): (r: seq<Record>)
    ensures |r| == |data|
  {
    InsertionSort(data, RowCompare(sortBy, dir, collate))
  }

  /** The sorted rows are the input rows, each as often as before. */
  lemma SortDataPermutation(data: seq<Record>, sortBy: string, dir: Direction, collate: (string, string) -> int)
    ensures multiset(SortData(data, sortBy, dir, collate)) == multiset(data)
  {
    SortPermutation(data, RowCompare(sortBy, dir, collate));
  }

  /** Rows whose key is undefined or null come after all others, in either direction. */
  lemma SortDataMissingLast(data: seq<Record>, sortBy: string, dir: Direction, collate: (string, string) -> int)
    ensures var r := SortData(data, sortBy, dir, collate);
      forall i, j | 0 <= i < j < |r| :: Missing(Get(r[i], sortBy)) ==> Missing(Get(r[j], sortBy))
  {
    var cmp := RowCompare(sortBy, dir, collate);
    var late := MissingKey(sortBy);
    assert PutsLast(cmp, late);
    SortPutsLast(data, cmp, late);
  }

  /** Every row has a number (not NaN) under `sortBy`. */
  ghost predicate NumericKeys(data: seq<Record>, sortBy: string) {
    forall row | row in data :: Get(row, sortBy).Num?
  }

  lemma KeyCompareNum(a: Value, b: Value, dir: Direction, collate: (string, string) -> int)
    requires a.Num? && b.Num?
    ensures KeyCompare(a, b, dir, collate) == if dir == Asc then a.n - b.n else b.n - a.n
  {
  }

  lemma NumericPreorder(data: seq<Record>, sortBy: string, dir: Direction, collate: (string, string) -> int)
    requires NumericKeys(data, sortBy)
    ensures TotalPreorderOn(RowCompare(sortBy, dir, collate), multiset(data))
  {
    var cmp := RowCompare(sortBy, dir, collate);
    var E := multiset(data);
    forall a, b | a in E && b in E
      ensures cmp(a, b) > 0 ==> cmp(b, a) < 0
      ensures cmp(a, b) <= 0 || cmp(b, a) <= 0
    {
      KeyCompareNum(Get(a, sortBy), Get(b, sortBy), dir, collate);
      KeyCompareNum(Get(b, sortBy), Get(a, sortBy), dir, collate);
    }
    forall a, b, c | a in E && b in E && c in E
      ensures cmp(a, b) <= 0 && cmp(b, c) <= 0 ==> cmp(a, c) <= 0
    {
      KeyCompareNum(Get(a, sortBy), Get(b, sortBy), dir, collate);
      KeyCompareNum(Get(b, sortBy), Get(c, sortBy), dir, collate);
      KeyCompareNum(Get(a, sortBy), Get(c, sortBy), dir, collate);
    }
  }

  /** When every key is a number, the rows come out by ascending or descending key. */
  lemma SortDataNumeric(data: seq<Record>, sortBy: string, dir: Direction, collate: (string, string) -> int)
    requires NumericKeys(data, sortBy)
    ensures var r := SortData(data, sortBy, dir, collate);
      && NumericKeys(r, sortBy)
      && forall i, j | 0 <= i < j < |r| ::
           if dir == Asc then Get(r[i], sortBy).n <= Get(r[j], sortBy).n
           else Get(r[i], sortBy).n >= Get(r[j], sortBy).n
  {
    var cmp := RowCompare(sortBy, dir, collate);
    NumericPreorder(data, sortBy, dir, collate);
    SortSorted(data, cmp);
    SortDataPermutation(data, sortBy, dir, collate);
    var r := SortData(data, sortBy, dir, collate);
    assert forall row :: row in r <==> row in multiset(data);
    forall i, j | 0 <= i < j < |r|
      ensures if dir == Asc then Get(r[i], sortBy).n <= Get(r[j], sortBy).n
              else Get(r[i], sortBy).n >= Get(r[j], sortBy).n
    {
      assert cmp(r[i], r[j]) <= 0;
      KeyCompareNum(Get(r[i], sortBy), Get(r[j], sortBy), dir, collate);
    }
  }

  /**
   * `sortData` is stable: on rows where its comparator is consistent, the
   * rows that compare equal to any `row0` keep their input order.
   */
  lemma SortDataStable(data: seq<Record>, sortBy: string, dir: Direction, collate: (string, string) -> int, row0: Record)
    requires ConsistentOn(RowCompare(sortBy, dir, collate), (set row | row in data) + {row0})
    ensures var tied := TiedWith(RowCompare(sortBy, dir, collate), row0);
      Filter(SortData(data, sortBy, dir, collate), tied) == Filter(data, tied)
  {
    SortStable(data, RowCompare(sortBy, dir, collate), row0, (set row | row in data) + {row0});
  }

  /** "The row holds `v` under `sortBy`". */
  function KeyIs(sortBy: string, v: Value): Record -> bool {
    row => Get(row, sortBy) == v
  }

  lemma NumericConsistent(S: set<Record>, sortBy: string, dir: Direction, collate: (string, string) -> int)
    requires forall row | row in S :: Get(row, sortBy).Num?
    ensures ConsistentOn(RowCompare(sortBy, dir, collate), S)
  {
    var cmp := RowCompare(sortBy, dir, collate);
    forall a, b | a in S && b in S
      ensures (cmp(a, b) < 0 <==> cmp(b, a) > 0) && (cmp(a, b) <= 0 || cmp(b, a) <= 0)
    {
      KeyCompareNum(Get(a, sortBy), Get(b, sortBy), dir, collate);
      KeyCompareNum(Get(b, sortBy), Get(a, sortBy), dir, collate);
    }
    forall a, b, c | a in S && b in S && c in S
      ensures cmp(a, b) <= 0 && cmp(b, c) <= 0 ==> cmp(a, c) <= 0
    {
      KeyCompareNum(Get(a, sortBy), Get(b, sortBy), dir, collate);
      KeyCompareNum(Get(b, sortBy), Get(c, sortBy), dir, collate);
      KeyCompareNum(Get(a, sortBy), Get(c, sortBy), dir, collate);
    }
  }

  /** When every key is a number, the rows sharing any one key come out in their input order. */
  lemma SortDataStableNumeric(data: seq<Record>, sortBy: string, dir: Direction, collate: (string, string) -> int, v: int)
    requires NumericKeys(data, sortBy)
    ensures Filter(SortData(data, sortBy, dir, collate), KeyIs(sortBy, Num(v))) == Filter(data, KeyIs(sortBy, Num(v)))
  {
    var cmp := RowCompare(sortBy, dir, collate);
    var row0: Record := [Field(sortBy, Num(v))];
    assert Get(row0, sortBy) == Num(v);
    NumericConsistent((set row | row in data) + {row0}, sortBy, dir, collate);
    SortDataStable(data, sortBy, dir, collate, row0);
    SortDataNumeric(data, sortBy, dir, collate);
    TiesAreKey(SortData(data, sortBy, dir, collate), sortBy, dir, collate, row0, v);
    TiesAreKey(data, sortBy, dir, collate, row0, v);
  }

  /** Among rows with numeric keys, those comparing equal to a row keyed `v` are the rows keyed `v`. */
  lemma TiesAreKey(rows: seq<Record>, sortBy: string, dir: Direction, collate: (string, string) -> int, row0: Record, v: int)
    requires NumericKeys(rows, sortBy) && Get(row0, sortBy) == Num(v)
    ensures Filter(rows, TiedWith(RowCompare(sortBy, dir, collate), row0)) == Filter(rows, KeyIs(sortBy, Num(v)))
  {
    var cmp := RowCompare(sortBy, dir, collate);
    forall i | 0 <= i < |rows| ensures TiedWith(cmp, row0)(rows[i]) == KeyIs(sortBy, Num(v))(rows[i]) {
      assert rows[i] in rows;
      KeyCompareNum(Num(v), Get(rows[i], sortBy), dir, collate);
    }
    FilterCongruent(rows, TiedWith(cmp, row0), KeyIs(sortBy, Num(v)));
  }

  /** Every row has a string under `sortBy`, and `localeCompare` orders those strings consistently. */
  ghost predicate CollatedKeys(data: seq<Record>, sortBy: string, collate: (string, string) -> int) {
    && (forall row | row in data :: Get(row, sortBy).Str?)
    && ConsistentCollation(set row | row in data :: Get(row, sortBy).s, collate)
  }

  /** On the strings of `S`, `localeCompare` is a total preorder. */
  ghost predicate ConsistentCollation(S: set<string>, collate: (string, string) -> int) {
    && (forall x, y | x in S && y in S :: collate(x, y) > 0 ==> collate(y, x) < 0)
    && (forall x, y | x in S && y in S :: collate(x, y) <= 0 || collate(y, x) <= 0)
    && (forall x, y, z | x in S && y in S && z in S :: collate(x, y) <= 0 && collate(y, z) <= 0 ==> collate(x, z) <= 0)
  }

  lemma KeyCompareStr(a: Value, b: Value, dir: Direction, collate: (string, string) -> int)
    requires a.Str? && b.Str?
    ensures KeyCompare(a, b, dir, collate) == if dir == Asc then collate(a.s, b.s) else collate(b.s, a.s)
  {
  }

  lemma CollatedPreorder(data: seq<Record>, sortBy: string, dir: Direction, collate: (string, string) -> int)
    requires CollatedKeys(data, sortBy, collate)
    ensures TotalPreorderOn(RowCompare(sortBy, dir, collate), multiset(data))
  {
    CollatedAntisymmetric(data, sortBy, dir, collate);
    CollatedTransitive(data, sortBy, dir, collate);
  }

  lemma CollatedAntisymmetric(data: seq<Record>, sortBy: string, dir: Direction, collate: (string, string) -> int)
    requires CollatedKeys(data, sortBy, collate)
    ensures var cmp := RowCompare(sortBy, dir, collate);
      forall a, b | a in multiset(data) && b in multiset(data) :: (cmp(a, b) > 0 ==> cmp(b, a) < 0) && (cmp(a, b) <= 0 || cmp(b, a) <= 0)
  {
    var cmp := RowCompare(sortBy, dir, collate);
    var S := set row | row in data :: Get(row, sortBy).s;
    forall a, b | a in multiset(data) && b in multiset(data)
      ensures cmp(a, b) > 0 ==> cmp(b, a) < 0
      ensures cmp(a, b) <= 0 || cmp(b, a) <= 0
    {
      assert Get(a, sortBy).s in S && Get(b, sortBy).s in S;
      KeyCompareStr(Get(a, sortBy), Get(b, sortBy), dir, collate);
      KeyCompareStr(Get(b, sortBy), Get(a, sortBy), dir, collate);
    }
  }

  lemma CollatedTransitive(data: seq<Record>, sortBy: string, dir: Direction, collate: (string, string) -> int)
    requires CollatedKeys(data, sortBy, collate)
    ensures var cmp := RowCompare(sortBy, dir, collate);
      forall a, b, c | a in multiset(data) && b in multiset(data) && c in multiset(data) :: cmp(a, b) <= 0 && cmp(b, c) <= 0 ==> cmp(a, c) <= 0
  {
    var cmp := RowCompare(sortBy, dir, collate);
    var S := set row | row in data :: Get(row, sortBy).s;
    forall a, b, c | a in multiset(data) && b in multiset(data) && c in multiset(data)
      ensures cmp(a, b) <= 0 && cmp(b, c) <= 0 ==> cmp(a, c) <= 0
    {
      assert Get(a, sortBy).s in S && Get(b, sortBy).s in S && Get(c, sortBy).s in S;
      KeyCompareStr(Get(a, sortBy), Get(b, sortBy), dir, collate);
      KeyCompareStr(Get(b, sortBy), Get(c, sortBy), dir, collate);
      KeyCompareStr(Get(a, sortBy), Get(c, sortBy), dir, collate);
    }
  }

  /** When every key is a string and `localeCompare` is consistent on them, the rows come out in collation order. */
  lemma SortDataCollated(data: seq<Record>, sortBy: string, dir: Direction, collate: (string, string) -> int)
    requires CollatedKeys(data, sortBy, collate)
    ensures var r := SortData(data, sortBy, dir, collate);
      forall i, j | 0 <= i < j < |r| ::
        && Get(r[i], sortBy).Str? && Get(r[j], sortBy).Str?
        && if dir == Asc then collate(Get(r[i], sortBy).s, Get(r[j], sortBy).s) <= 0
           else collate(Get(r[j], sortBy).s, Get(r[i], sortBy).s) <= 0
  {
    SortDataSortedCollated(data, sortBy, dir, collate);
    SortDataKeepsRows(data, sortBy, dir, collate);
    SortedCollated(SortData(data, sortBy, dir, collate), sortBy, dir, collate);
  }

  lemma SortDataSortedCollated(data: seq<Record>, sortBy: string, dir: Direction, collate: (string, string) -> int)
    requires CollatedKeys(data, sortBy, collate)
    ensures SortedBy(SortData(data, sortBy, dir, collate), RowCompare(sortBy, dir, collate))
  {
    CollatedPreorder(data, sortBy, dir, collate);
    SortSorted(data, RowCompare(sortBy, dir, collate));
  }

  /** The sorted rows are rows of the input. */
  lemma SortDataKeepsRows(data: seq<Record>, sortBy: string, dir: Direction, collate: (string, string) -> int)
    ensures forall row | row in SortData(data, sortBy, dir, collate) :: row in data
  {
    SortDataPermutation(data, sortBy, dir, collate);
    var r := SortData(data, sortBy, dir, collate);
    forall row | row in r ensures row in data {
      assert row in multiset(r);
    }
  }

  lemma SortedCollated(r: seq<Record>, sortBy: string, dir: Direction, collate: (string, string) -> int)
    requires SortedBy(r, RowCompare(sortBy, dir, collate))
    requires forall row | row in r :: Get(row, sortBy).Str?
    ensures forall i, j | 0 <= i < j < |r| ::
        && Get(r[i], sortBy).Str? && Get(r[j], sortBy).Str?
        && if dir == Asc then collate(Get(r[i], sortBy).s, Get(r[j], sortBy).s) <= 0
           else collate(Get(r[j], sortBy).s, Get(r[i], sortBy).s) <= 0
  {
    var cmp := RowCompare(sortBy, dir, collate);
    forall i, j | 0 <= i < j < |r|
      ensures Get(r[i], sortBy).Str? && Get(r[j], sortBy).Str?
      ensures if dir == Asc then collate(Get(r[i], sortBy).s, Get(r[j], sortBy).s) <= 0
              else collate(Get(r[j], sortBy).s, Get(r[i], sortBy).s) <= 0
    {
      assert r[i] in r && r[j] in r;
      assert cmp(r[i], r[j]) <= 0;
      KeyCompareStr(Get(r[i], sortBy), Get(r[j], sortBy), dir, collate);
    }
  }

  // ---------------------------------------------------------------------
  // Column projection
  // ---------------------------------------------------------------------

  /** "The row has property `c`". */
  function Present(row: Record): string -> bool {
    c => HasKey(row, c)
  }

  /** The projection of one row: each requested column the row has, set in request order. */
  function Project(row: Record, columns: seq<string>): Record {
    if columns == [] then []
    else
      var sel := Project(row, columns[..|columns| - 1]);
      var c := columns[|columns| - 1];
      if HasKey(row, c) then Put(sel, c, Get(row, c)) else sel
  }

  /** `Put` keeps every key in place when the key is there, and appends a field otherwise. */
  lemma {:induction false} PutShape(r: Record, k: string, v: Value)
    ensures (exists i | 0 <= i < |r| :: r[i].key == k) ==>
      |Put(r, k, v)| == |r| && forall i | 0 <= i < |r| :: Put(r, k, v)[i].key == r[i].key
    ensures (forall i | 0 <= i < |r| :: r[i].key != k) ==> Put(r, k, v) == r + [Field(k, v)]
    decreases |r|
  {
    if r != [] && r[0].key != k {
      PutShape(r[1..], k, v);
      var p := Put(r, k, v);
      assert p == [r[0]] + Put(r[1..], k, v);
      if exists i | 0 <= i < |r| :: r[i].key == k {
        var i :| 0 <= i < |r| && r[i].key == k;
        assert r[1..][i - 1].key == k;
        forall j | 0 <= j < |r| ensures p[j].key == r[j].key {
          if j > 0 {
            assert r[1..][j - 1] == r[j];
          }
        }
      } else {
        forall j | 0 <= j < |r| - 1 ensures r[1..][j].key != k {
          assert r[1..][j] == r[j + 1];
        }
        assert r == [r[0]] + r[1..];
      }
    }
  }

  lemma PutKeys(r: Record, k: string, v: Value)
    ensures k in Keys(r) ==> Keys(Put(r, k, v)) == Keys(r)
    ensures k !in Keys(r) ==> Keys(Put(r, k, v)) == Keys(r) + [k]
  {
    PutShape(r, k, v);
    var p := Put(r, k, v);
    if k in Keys(r) {
      var i :| 0 <= i < |r| && Keys(r)[i] == k;
      assert r[i].key == k;
      var a, b := Keys(p), Keys(r);
      assert |a| == |b|;
      forall j | 0 <= j < |a| ensures a[j] == b[j] {
        assert a[j] == p[j].key;
      }
      assert a == b;
    } else {
      forall i | 0 <= i < |r| ensures r[i].key != k {
        assert Keys(r)[i] == r[i].key;
      }
      var a, b := Keys(p), Keys(r) + [k];
      assert |a| == |b|;
      forall j | 0 <= j < |a| ensures a[j] == b[j] {
        assert a[j] == p[j].key;
      }
      assert a == b;
    }
  }

  lemma {:induction false} PutGet(r: Record, k: string, v: Value, k': string)
    ensures Get(Put(r, k, v), k') == if k' == k then v else Get(r, k')
    decreases |r|
  {
    if r != [] && r[0].key != k {
      PutGet(r[1..], k, v, k');
    }
  }

  lemma KeysCons(r: Record)
    requires r != []
    ensures Keys(r) == [r[0].key] + Keys(r[1..])
  {
    var a := Keys(r);
    var b := [r[0].key] + Keys(r[1..]);
    assert |a| == |b|;
    forall i | 0 <= i < |a| ensures a[i] == b[i] {
      if i > 0 {
        assert r[1..][i - 1] == r[i];
      }
    }
  }

  /** The keys of a projected row: the requested columns the row has, in request order, once each. */
  lemma {:induction false} ProjectKeys(row: Record, columns: seq<string>)
    ensures Keys(Project(row, columns)) == Distinct(Filter(columns, Present(row)))
    decreases |columns|
  {
    if columns != [] {
      var cs := columns[..|columns| - 1];
      var c := columns[|columns| - 1];
      ProjectKeys(row, cs);
      var f := Filter(cs, Present(row));
      assert columns[..|columns| - 1] == cs;
      if HasKey(row, c) {
        PutKeys(Project(row, cs), c, Get(row, c));
        assert Filter(columns, Present(row)) == f + [c];
        assert (f + [c])[..|f|] == f;
      } else {
        assert Filter(columns, Present(row)) == f;
      }
    }
  }

  /** A projected row carries the source row's value under each of its keys. */
  lemma {:induction false} ProjectValues(row: Record, columns: seq<string>, k: string)
    requires HasKey(Project(row, columns), k)
    ensures Get(Project(row, columns), k) == Get(row, k)
    decreases |columns|
  {
    var cs := columns[..|columns| - 1];
    var c := columns[|columns| - 1];
    var sel := Project(row, cs);
    if HasKey(row, c) {
      PutGet(sel, c, Get(row, c), k);
      PutKeys(sel, c, Get(row, c));
      if k != c {
        ProjectValues(row, cs, k);
      }
    } else {
      ProjectValues(row, cs, k);
    }
  }

  /**
   * The projected row holds exactly the requested columns the source row
   * has, in request order, once each, with the source row's values.
   */
  lemma ProjectSpec(row: Record, columns: seq<string>)
    ensures Keys(Project(row, columns)) == Distinct(Filter(columns, Present(row)))
    ensures forall k :: HasKey(Project(row, columns), k) <==> k in columns && HasKey(row, k)
    ensures forall k | HasKey(Project(row, columns), k) :: Get(Project(row, columns), k) == Get(row, k)
  {
    ProjectKeys(row, columns);
    DistinctSpec(Filter(columns, Present(row)));
    forall k ensures HasKey(Project(row, columns), k) <==> k in columns && HasKey(row, k) {
      FilterMember(columns, Present(row), k);
    }
    forall k | HasKey(Project(row, columns), k) ensures Get(Project(row, columns), k) == Get(row, k) {
      ProjectValues(row, columns, k);
    }
  }

  /** A projected row never has a key twice. */
  lemma ProjectWellFormed(row: Record, columns: seq<string>)
    ensures WellFormed(Project(row, columns))
  {
    ProjectSpec(row, columns);
    DistinctSpec(Filter(columns, Present(row)));
  }

  /** `columns.forEach(col => { if (col in item) selected[col] = item[col] })`. */
  method ProjectRow(row: Record, columns: seq<string>) returns (selected: Record)
    ensures selected == Project(row, columns)
  {
    selected := [];
    var i := 0;
    while i < |columns|
      invariant 0 <= i <= |columns|
      invariant selected == Project(row, columns[..i])
    {
      var col := columns[i];
      assert columns[..i + 1][..i] == columns[..i];
      if HasKey(row, col) {
        selected := Put(selected, col, Get(row, col));
      }
      i := i + 1;
    }
    assert columns[..i] == columns;
  }

  /** `selectColumns(data, columns)`: the data itself for no columns, otherwise one projected row per row. */
  method SelectColumns(data: seq<Record>, columns: seq<string>) returns (out: seq<Record>)
    ensures columns == [] ==> out == data
    ensures columns != [] ==> |out| == |data| && forall i | 0 <= i < |data| :: out[i] == Project(data[i], columns)
  {
    if |columns| == 0 {
      return data;
    }
    out := [];
    var i := 0;
    while i < |data|
      invariant 0 <= i <= |data|
      invariant |out| == i && forall j | 0 <= j < i :: out[j] == Project(data[j], columns)
    {
      var selected := ProjectRow(data[i], columns);
      out := out + [selected];
      i := i + 1;
    }
  }

  // ---------------------------------------------------------------------
  // CSV
  // ---------------------------------------------------------------------

  /** A cell: `String(value ?? '')`, wrapped in double quotes when it holds a comma (quotes inside are left alone). */
  function CsvCell(v: Value): (c: string)
    ensures var t := if Missing(v) then "" else ValueText(v);
      (',' in t ==> c == "\"" + t + "\"") && (',' !in t ==> c == t)
  {
    var t := if Missing(v) then "" else ValueText(v);
    if ',' in t then "\"" + t + "\"" else t
  }

  /** The cells of one row under the header columns. */
  function CsvCells(row: Record, headers: seq<string>): (cells: seq<string>)
    ensures |cells| == |headers|
  {
    seq(|headers|, i requires 0 <= i < |headers| => CsvCell(Get(row, headers[i])))
  }

  /** The line of one row. */
  function CsvLine(row: Record, headers: seq<string>): string {
    Join(CsvCells(row, headers), ",")
  }

  /** The data lines, one per row. */
  function CsvLines(data: seq<Record>, headers: seq<string>): (lines: seq<string>)
    ensures |lines| == |data|
  {
    seq(|data|, i requires 0 <= i < |data| => CsvLine(data[i], headers))
  }

  /** The text `exportToCSV` downloads; `None` when there is no data and nothing is exported. */
  function CsvContent(data: seq<Record>): (r: Option<string>)
    ensures r.None? <==> data == []
  {
    if data == [] then None
    else
      var headers := Keys(data[0]);
      Some(Join([Join(headers, ",")] + CsvLines(data, headers), "\n"))
  }

  lemma {:induction false} JoinAvoids(parts: seq<string>, sep: string, c: char)
    requires c !in sep
    requires forall i | 0 <= i < |parts| :: c !in parts[i]
    ensures c !in Join(parts, sep)
    decreases |parts|
  {
    if |parts| > 1 {
      JoinAvoids(parts[1..], sep, c);
    }
  }

  /** No header and no value holds a line break. */
  ghost predicate SingleLineCells(data: seq<Record>) {
    data != [] &&
    (forall k | k in Keys(data[0]) :: '\n' !in k) &&
    (forall i, k | 0 <= i < |data| && k in Keys(data[0]) :: '\n' !in ValueText(Get(data[i], k)))
  }

  /**
   * Without line breaks in the headers and values, the CSV text is the
   * header line (the first row's keys joined by commas) followed by
   * exactly one line per row.
   */
  lemma CsvOneLinePerRow(data: seq<Record>)
    requires SingleLineCells(data)
    ensures var headers := Keys(data[0]);
      CsvContent(data).Some? &&
      Split(CsvContent(data).value, '\n') == [Join(headers, ",")] + CsvLines(data, headers)
  {
    var headers := Keys(data[0]);
    var lines := [Join(headers, ",")] + CsvLines(data, headers);
    JoinAvoids(headers, ",", '\n');
    forall i | 0 <= i < |data| ensures '\n' !in CsvLine(data[i], headers) {
      var cells := CsvCells(data[i], headers);
      forall j | 0 <= j < |cells| ensures '\n' !in cells[j] {
        assert headers[j] in Keys(data[0]);
      }
      JoinAvoids(cells, ",", '\n');
    }
    forall i | 0 <= i < |lines| ensures '\n' !in lines[i] {
      if i > 0 {
        assert lines[i] == CsvLine(data[i - 1], headers);
      }
    }
    SplitJoin(lines, '\n');
  }

  /** One row exports as its header line and its own line. */
  lemma CsvContentSingle(row: Record)
    ensures CsvContent([row]) == Some(Join(Keys(row), ",") + "\n" + CsvLine(row, Keys(row)))
  {
    var headers := Keys(row);
    assert CsvLines([row], headers) == [CsvLine(row, headers)];
    JoinTwo(Join(headers, ","), CsvLine(row, headers), "\n");
  }

  lemma ExampleText()
    ensures "a,b" + "\n" + "\"x,y\",1" == "a,b\n\"x,y\",1"
  {
  }

  lemma ExampleKeys()
    ensures Keys([Field("a", Str("x,y")), Field("b", Num(1))]) == ["a", "b"]
  {
    var row := [Field("a", Str("x,y")), Field("b", Num(1))];
    KeysCons(row);
    KeysCons(row[1..]);
  }

  lemma ExampleLine()
    ensures CsvLine([Field("a", Str("x,y")), Field("b", Num(1))], ["a", "b"]) == "\"x,y\",1"
  {
    ExampleCells();
    JoinTwo("\"x,y\"", "1", ",");
  }

  lemma ExampleHeader()
    ensures Join(["a", "b"], ",") == "a,b"
  {
    JoinTwo("a", "b", ",");
  }

  /** The example export `[{a: "x,y", b: 1}]` is the header `a,b` and the line `"x,y",1`. */
  lemma CsvExample()
    ensures CsvContent([[Field("a", Str("x,y")), Field("b", Num(1))]]) == Some("a,b\n\"x,y\",1")
  {
    var row := [Field("a", Str("x,y")), Field("b", Num(1))];
    ExampleKeys();
    CsvContentSingle(row);
    ExampleLine();
    ExampleHeader();
    ExampleText();
  }

  lemma ExampleCells()
    ensures CsvCells([Field("a", Str("x,y")), Field("b", Num(1))], ["a", "b"]) == ["\"x,y\"", "1"]
  {
    var row := [Field("a", Str("x,y")), Field("b", Num(1))];
    var c := CsvCells(row, ["a", "b"]);
    assert c[0] == "\"x,y\"" by {
      assert Get(row, "a") == Str("x,y");
      QuotedCell("x,y", 1);
    }
    assert c[1] == "1" by {
      assert Get(row, "b") == Num(1);
      assert IntText(1) == "1";
    }
  }

  lemma QuotedCell(s: string, i: nat)
    requires i < |s| && s[i] == ','
    ensures CsvCell(Str(s)) == "\"" + s + "\""
  {
  }

  lemma PlainCell(s: string)
    requires forall i | 0 <= i < |s| :: s[i] != ','
    ensures CsvCell(Str(s)) == s
  {
  }

  /** Quotes inside values are not escaped, so two different rows can give the same line. */
  lemma CsvLineAmbiguous()
    ensures var headers := ["x", "y", "z"];
      var r1 := [Field("x", Str("\"a")), Field("y", Str("b\"")), Field("z", Str("c,d"))];
      var r2 := [Field("x", Str("a,b")), Field("y", Str("\"c")), Field("z", Str("d\""))];
      r1 != r2 && CsvLine(r1, headers) == CsvLine(r2, headers)
  {
    AmbiguousCells();
    JoinThree("\"a", "b\"", "\"c,d\"", ",");
    JoinThree("\"a,b\"", "\"c", "d\"", ",");
  }

  lemma AmbiguousCells()
    ensures CsvCells([Field("x", Str("\"a")), Field("y", Str("b\"")), Field("z", Str("c,d"))], ["x", "y", "z"]) == ["\"a", "b\"", "\"c,d\""]
    ensures CsvCells([Field("x", Str("a,b")), Field("y", Str("\"c")), Field("z", Str("d\""))], ["x", "y", "z"]) == ["\"a,b\"", "\"c", "d\""]
  {
    FirstRowCells();
    SecondRowCells();
  }

  lemma FirstRowCells()
    ensures CsvCells([Field("x", Str("\"a")), Field("y", Str("b\"")), Field("z", Str("c,d"))], ["x", "y", "z"]) == ["\"a", "b\"", "\"c,d\""]
  {
    var r := [Field("x", Str("\"a")), Field("y", Str("b\"")), Field("z", Str("c,d"))];
    var c := CsvCells(r, ["x", "y", "z"]);
    assert c[0] == "\"a" by {
      assert Get(r, "x") == Str("\"a");
      PlainCell("\"a");
    }
    assert c[1] == "b\"" by {
      assert Get(r, "y") == Str("b\"");
      PlainCell("b\"");
    }
    assert c[2] == "\"c,d\"" by {
      assert Get(r, "z") == Str("c,d");
      QuotedCell("c,d", 1);
    }
  }

  lemma SecondRowCells()
    ensures CsvCells([Field("x", Str("a,b")), Field("y", Str("\"c")), Field("z", Str("d\""))], ["x", "y", "z"]) == ["\"a,b\"", "\"c", "d\""]
  {
    var r := [Field("x", Str("a,b")), Field("y", Str("\"c")), Field("z", Str("d\""))];
    var c := CsvCells(r, ["x", "y", "z"]);
    assert c[0] == "\"a,b\"" by {
      assert Get(r, "x") == Str("a,b");
      QuotedCell("a,b", 1);
    }
    assert c[1] == "\"c" by {
      assert Get(r, "y") == Str("\"c");
      PlainCell("\"c");
    }
    assert c[2] == "d\"" by {
      assert Get(r, "z") == Str("d\"");
      PlainCell("d\"");
    }
  }
}
