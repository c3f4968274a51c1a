/**
 * The report generator: one row builder per report type over the domain
 * snapshot, the metrics computed from each kind of row, and the dispatch
 * that sorts the rows and builds the summary.
 */
module ReportGenerator {
  import opened Wrappers
  import opened Seqs
  import opened Strings
  import opened ReportTypes
  import opened ReportUtils

  // ---------------------------------------------------------------------
  // Lookups and mapping
  // ---------------------------------------------------------------------

  /** `u => u.id === id`. */
  function UserIs(id: string): User -> bool {
    (u: User) => u.id == id
  }

  /** The team id of an event's creator: `users.find(...)?.teamId`. */
  function CreatorTeam(users: seq<User>, createdBy: string): Option<string> {
    match Find(users, UserIs(createdBy))
    case Some(u) => u.teamId
    case None => None
  }

  /** `teams.find(t => t.id === teamId)?.name`; an absent team id matches no team. */
  function TeamName(teams: seq<Team>, teamId: Option<string>): (name: Option<string>)
    ensures name.Some? ==> teamId.Some? && exists t | t in teams :: t.id == teamId.value && t.name == name.value
    ensures name.None? <==> teamId.None? || forall i | 0 <= i < |teams| :: teams[i].id != teamId.value
  {
    match Find(teams, TeamIs(teamId))
    case Some(t) => Some(t.name)
    case None => None
  }

  /** `t => t.id === teamId`, where an absent id equals no team's id. */
  function TeamIs(teamId: Option<string>): Team -> bool {
    (t: Team) => teamId.Some? && t.id == teamId.value
  }

  /** `xs.map(f)` where `f` may throw: the first exception escapes. */
  function MapAll<A, B>(xs: seq<A>, f: A -> Result<B, string>): (r: Result<seq<B>, string>)
    ensures r.Success? <==> forall i | 0 <= i < |xs| :: f(xs[i]).Success?
    ensures r.Success? ==> |r.value| == |xs| && forall i | 0 <= i < |xs| :: f(xs[i]) == Success(r.value[i])
  {
    if xs == [] then Success([])
    else
      match f(xs[0])
      case Failure(e) => Failure(e)
      case Success(y) =>
        match MapAll(xs[1..], f)
        case Failure(e) => Failure(e)
        case Success(ys) => Success([y] + ys)
  }

  // ---------------------------------------------------------------------
  // Appointments
  // ---------------------------------------------------------------------

  datatype AppointmentRow = AppointmentRow(
    id: string, orderId: string, customerName: string, startTime: string, endTime: string,
    productType: string, createdBy: string, team: string, status: string, changeTypes: string)
  {
    function ToRecord(): Record {
      [Field("id", Str(id)), Field("orderId", Str(orderId)), Field("customerName", Str(customerName)),
       Field("startTime", Str(startTime)), Field("endTime", Str(endTime)), Field("productType", Str(productType)),
       Field("createdBy", Str(createdBy)), Field("team", Str(team)), Field("status", Str(status)),
       Field("changeTypes", Str(changeTypes))]
    }
  }

  /** Events starting in range, created by a member of the team when a team is given. */
  function AppointmentSelected(store: Snapshot, r: Range, teamId: Option<string>, env: Env): Event -> bool {
    (e: Event) => IsDateInRange(e.startTime, r, env) && (Blank(teamId) || CreatorTeam(store.users, e.createdBy) == Some(teamId.value))
  }

  /** The row of one event; formatting an Invalid Date throws. */
  function AppointmentRowFor(e: Event, store: Snapshot, env: Env): Result<AppointmentRow, string> {
    var user := Find(store.users, UserIs(e.createdBy));
    match Format(env, env.date(e.startTime), DayTime)
    case Failure(err) => Failure(err)
    case Success(start) =>
      match Format(env, env.date(e.endTime), Time)
      case Failure(err) => Failure(err)
      case Success(end) =>
        Success(AppointmentRow(
          e.id, e.orderId, e.customerName, start, end, e.productType,
          if user.Some? && user.value.email != "" then user.value.email else e.createdBy,
          OrElse(TeamName(store.teams, if user.Some? then user.value.teamId else None), "N/A"),
          OrElse(e.status, "scheduled"),
          if e.changeTypes.Some? then Join(e.changeTypes.value, ", ") else ""))
  }

  /** The row builder of the `map` step. */
  function AppointmentRowOf(store: Snapshot, env: Env): Event -> Result<AppointmentRow, string> {
    e => AppointmentRowFor(e, store, env)
  }

  /** `generateAppointmentsReport`. */
  function AppointmentsReport(store: Snapshot, r: Range, teamId: Option<string>, env: Env): Result<seq<AppointmentRow>, string> {
    MapAll(Filter(store.events, AppointmentSelected(store, r, teamId, env)), AppointmentRowOf(store, env))
  }

  /** Both times of an event are strings the `Date` constructor accepts. */
  predicate Datable(e: Event, env: Env) {
    env.date(e.startTime).At? && env.date(e.endTime).At?
  }

  /**
   * The row of an event exists iff the `Date` constructor accepts both of
   * its times; it then carries the formatted times, the id, and the status
   * with `scheduled` for a missing one.
   */
  lemma AppointmentRowFacts(e: Event, store: Snapshot, env: Env)
    ensures AppointmentRowFor(e, store, env).Success? <==> Datable(e, env)
    ensures AppointmentRowFor(e, store, env).Success? ==>
      var row := AppointmentRowFor(e, store, env).value;
      && row.id == e.id
      && row.startTime == env.fmt(env.date(e.startTime).ms, DayTime)
      && row.endTime == env.fmt(env.date(e.endTime).ms, Time)
      && row.status == OrElse(e.status, "scheduled") && row.status != ""
  {
  }

  /** The appointments report fails exactly when the `Date` constructor rejects a time of a selected event. */
  lemma AppointmentsSucceed(store: Snapshot, r: Range, teamId: Option<string>, env: Env)
    ensures AppointmentsReport(store, r, teamId, env).Success? <==>
      forall e | e in Filter(store.events, AppointmentSelected(store, r, teamId, env)) :: Datable(e, env)
  {
    var sel := Filter(store.events, AppointmentSelected(store, r, teamId, env));
    var f := AppointmentRowOf(store, env);
    assert AppointmentsReport(store, r, teamId, env) == MapAll(sel, f);
    forall e | e in sel ensures f(e).Success? <==> Datable(e, env) {
      AppointmentRowFacts(e, store, env);
    }
    if forall i | 0 <= i < |sel| :: f(sel[i]).Success? {
      forall e | e in sel ensures Datable(e, env) {
        var i :| 0 <= i < |sel| && sel[i] == e;
      }
    }
  }

  /**
   * Each appointments row comes, in order, from an event that starts in
   * range and, when a team is given, was created by a member of that team;
   * a missing status reads `scheduled`. The report fails exactly when the
   * `Date` constructor rejects a start or end time of one of those events.
   */
  lemma AppointmentsRowsSelected(store: Snapshot, r: Range, teamId: Option<string>, env: Env)
    ensures var sel := Filter(store.events, AppointmentSelected(store, r, teamId, env));
      var res := AppointmentsReport(store, r, teamId, env);
      && (res.Success? <==> forall e | e in sel :: Datable(e, env))
      && (res.Success? ==>
            |res.value| == |sel| &&
            forall i | 0 <= i < |sel| ::
              && sel[i] in store.events
              && IsDateInRange(sel[i].startTime, r, env)
              && (!Blank(teamId) ==> CreatorTeam(store.users, sel[i].createdBy) == Some(teamId.value))
              && res.value[i].id == sel[i].id
              && res.value[i].status == OrElse(sel[i].status, "scheduled")
              && res.value[i].status != "")
  {
    AppointmentsSucceed(store, r, teamId, env);
    var p := AppointmentSelected(store, r, teamId, env);
    var sel := Filter(store.events, p);
    var res := AppointmentsReport(store, r, teamId, env);
    if res.Success? {
      forall i | 0 <= i < |sel|
        ensures sel[i] in store.events && p(sel[i])
        ensures res.value[i].id == sel[i].id && res.value[i].status == OrElse(sel[i].status, "scheduled") && res.value[i].status != ""
      {
        FilterMember(store.events, p, sel[i]);
        AppointmentRowFacts(sel[i], store, env);
        assert AppointmentRowOf(store, env)(sel[i]) == Success(res.value[i]);
      }
    }
  }

  // ---------------------------------------------------------------------
  // TIV requests and accelerations
  // ---------------------------------------------------------------------

  datatype TivRow = TivRow(id: string, customerName: string, status: string, createdAt: string, productType: string, orderType: string)
  {
    function ToRecord(): Record {
      [Field("id", Str(id)), Field("customerName", Str(customerName)), Field("status", Str(status)),
       Field("createdAt", Str(createdAt)), Field("productType", Str(productType)), Field("orderType", Str(orderType))]
    }
  }

  function TivSelected(r: Range, teamId: Option<string>, env: Env): TivRequest -> bool {
    (q: TivRequest) => IsDateInRange(q.createdAt, r, env) && (Blank(teamId) || q.teamId == Some(teamId.value))
  }

  function TivRowFor(q: TivRequest, env: Env): Result<TivRow, string> {
    match Format(env, env.date(q.createdAt), Day)
    case Failure(err) => Failure(err)
    case Success(created) => Success(TivRow(q.id, q.customerName, q.status, created, q.productType, OrElse(q.orderType, "N/A")))
  }

  /** `generateTIVReport`: any exception (a corrupt collection, a failed format) yields no rows. */
  function TivReport(tivRequests: Blob<TivRequest>, r: Range, teamId: Option<string>, env: Env): seq<TivRow> {
    match MapAll(Filter(ItemsOr(tivRequests), TivSelected(r, teamId, env)), TivRowOf(env))
    case Success(rows) => rows
    case Failure(_) => []
  }

  /** The function the TIV `map` step applies. */
  function TivRowOf(env: Env): TivRequest -> Result<TivRow, string> {
    q => TivRowFor(q, env)
  }

  /**
   * The TIV report: when the `Date` constructor accepts the creation time
   * of every request created in range (and on the team, when one is
   * given), one row per such request in stored order, with its formatted
   * date and `N/A` for a missing order type; otherwise the thrown format
   * error is caught and there are no rows.
   */
  lemma TivRowsSelected(tivRequests: Blob<TivRequest>, r: Range, teamId: Option<string>, env: Env)
    ensures var sel := Filter(ItemsOr(tivRequests), TivSelected(r, teamId, env));
      var rows := TivReport(tivRequests, r, teamId, env);
      && (forall i | 0 <= i < |sel| :: IsDateInRange(sel[i].createdAt, r, env) && (!Blank(teamId) ==> sel[i].teamId == teamId))
      && ((exists i | 0 <= i < |sel| :: env.date(sel[i].createdAt).Invalid?) ==> rows == [])
      && ((forall i | 0 <= i < |sel| :: env.date(sel[i].createdAt).At?) ==>
            |rows| == |sel| &&
            forall i | 0 <= i < |sel| ::
              && rows[i].id == sel[i].id && rows[i].status == sel[i].status
              && rows[i].createdAt == env.fmt(env.date(sel[i].createdAt).ms, Day)
              && rows[i].orderType == OrElse(sel[i].orderType, "N/A"))
  {
    var p := TivSelected(r, teamId, env);
    var sel := Filter(ItemsOr(tivRequests), p);
    var f := TivRowOf(env);
    assert TivReport(tivRequests, r, teamId, env) == match MapAll(sel, f) case Success(rows) => rows case Failure(_) => [];
    forall i | 0 <= i < |sel| ensures p(sel[i]) && (f(sel[i]).Success? <==> env.date(sel[i].createdAt).At?) {
      FilterMember(ItemsOr(tivRequests), p, sel[i]);
    }
  }

  datatype AccelerationRow = AccelerationRow(id: string, orderId: string, customerName: string, productType: string, reason: string, createdAt: string)
  {
    function ToRecord(): Record {
      [Field("id", Str(id)), Field("orderId", Str(orderId)), Field("customerName", Str(customerName)),
       Field("productType", Str(productType)), Field("reason", Str(reason)), Field("createdAt", Str(createdAt))]
    }
  }

  function AccelerationSelected(r: Range, teamId: Option<string>, env: Env): Acceleration -> bool {
    (a: Acceleration) => IsDateInRange(a.createdAt, r, env) && (Blank(teamId) || a.teamId == Some(teamId.value))
  }

  function AccelerationRowFor(a: Acceleration, env: Env): Result<AccelerationRow, string> {
    match Format(env, env.date(a.createdAt), Day)
    case Failure(err) => Failure(err)
    case Success(created) => Success(AccelerationRow(a.id, a.orderId, a.customerName, a.productType, OrElse(a.reason, "N/A"), created))
  }

  /** `generateAccelerationsReport`: any exception yields no rows. */
  function AccelerationsReport(accelerations: Blob<Acceleration>, r: Range, teamId: Option<string>, env: Env): seq<AccelerationRow> {
    match MapAll(Filter(ItemsOr(accelerations), AccelerationSelected(r, teamId, env)), AccelerationRowOf(env))
    case Success(rows) => rows
    case Failure(_) => []
  }

  /** The function the accelerations `map` step applies. */
  function AccelerationRowOf(env: Env): Acceleration -> Result<AccelerationRow, string> {
    a => AccelerationRowFor(a, env)
  }

  /**
   * The accelerations report: when the `Date` constructor accepts the
   * creation time of every record created in range (and on the team, when
   * one is given), one row per such record in stored order, with its
   * formatted date and `N/A` for a missing reason; otherwise no rows.
   */
  lemma AccelerationRowsSelected(accelerations: Blob<Acceleration>, r: Range, teamId: Option<string>, env: Env)
    ensures var sel := Filter(ItemsOr(accelerations), AccelerationSelected(r, teamId, env));
      var rows := AccelerationsReport(accelerations, r, teamId, env);
      && (forall i | 0 <= i < |sel| :: IsDateInRange(sel[i].createdAt, r, env) && (!Blank(teamId) ==> sel[i].teamId == teamId))
      && ((exists i | 0 <= i < |sel| :: env.date(sel[i].createdAt).Invalid?) ==> rows == [])
      && ((forall i | 0 <= i < |sel| :: env.date(sel[i].createdAt).At?) ==>
            |rows| == |sel| &&
            forall i | 0 <= i < |sel| ::
              && rows[i].id == sel[i].id && rows[i].customerName == sel[i].customerName
              && rows[i].createdAt == env.fmt(env.date(sel[i].createdAt).ms, Day)
              && rows[i].reason == OrElse(sel[i].reason, "N/A"))
  {
    var p := AccelerationSelected(r, teamId, env);
    var sel := Filter(ItemsOr(accelerations), p);
    var f := AccelerationRowOf(env);
    assert AccelerationsReport(accelerations, r, teamId, env) == match MapAll(sel, f) case Success(rows) => rows case Failure(_) => [];
    forall i | 0 <= i < |sel| ensures p(sel[i]) && (f(sel[i]).Success? <==> env.date(sel[i].createdAt).At?) {
      FilterMember(ItemsOr(accelerations), p, sel[i]);
    }
  }

  // ---------------------------------------------------------------------
  // Team activity and capacity
  // ---------------------------------------------------------------------

  /** `users.filter(u => u.teamId === team.id)`. */
  function IsMember(team: Team): User -> bool {
    (u: User) => u.teamId == Some(team.id)
  }

  /** Events in range whose creator is on the team. */
  function TeamEvent(store: Snapshot, team: Team, r: Range, env: Env): Event -> bool {
    (e: Event) => CreatorTeam(store.users, e.createdBy) == Some(team.id) && IsDateInRange(e.startTime, r, env)
  }

  datatype TeamActivityRow = TeamActivityRow(teamId: string, teamName: string, membersCount: nat, appointmentsCount: nat, avgPerMember: string)
  {
    function ToRecord(): Record {
      [Field("teamId", Str(teamId)), Field("teamName", Str(teamName)), Field("membersCount", Num(membersCount)),
       Field("appointmentsCount", Num(appointmentsCount)), Field("avgPerMember", Str(avgPerMember))]
    }
  }

  /** `(a / m).toFixed(2)`, or `'0'` for a team without members. */
  function PerMember(appointments: nat, members: nat): string {
    if members > 0 then FixedText(appointments as real / members as real, 2) else "0"
  }

  function TeamActivityRowFor(store: Snapshot, team: Team, r: Range, env: Env): TeamActivityRow {
    var members := Count(store.users, IsMember(team));
    var appointments := Count(store.events, TeamEvent(store, team, r, env));
    TeamActivityRow(team.id, team.name, members, appointments, PerMember(appointments, members))
  }

  /** `generateTeamActivityReport`: one row per team, in team order. */
  function TeamActivityReport(store: Snapshot, r: Range, env: Env): (rows: seq<TeamActivityRow>)
    ensures |rows| == |store.teams|
  {
    seq(|store.teams|, i requires 0 <= i < |store.teams| => TeamActivityRowFor(store, store.teams[i], r, env))
  }

  /**
   * Team-activity rows: one per team, members and in-range appointments
   * counted over the snapshot, and the average is `'0'` exactly when the
   * team has no members (never a division by zero).
   */
  lemma TeamActivityRows(store: Snapshot, r: Range, env: Env, i: nat)
    requires i < |store.teams|
    ensures var row := TeamActivityReport(store, r, env)[i];
      var team := store.teams[i];
      && row.teamId == team.id && row.teamName == team.name
      && row.membersCount == Count(store.users, IsMember(team))
      && row.appointmentsCount == Count(store.events, TeamEvent(store, team, r, env))
      && (row.avgPerMember == "0" <==> row.membersCount == 0)
  {
    var row := TeamActivityReport(store, r, env)[i];
    if row.membersCount > 0 {
      FixedTextHasPoint(row.appointmentsCount as real / row.membersCount as real, 2);
    }
  }

  /** `Math.ceil(a / b)` for a positive divisor. */
  function CeilDiv(a: int, b: int): (q: int)
    requires b > 0
    ensures (q - 1) * b < a <= q * b
  {
    -((-a) / b)
  }

  /** `Math.ceil((end - start) / 86400000)`; `None` stands for NaN when a bound is an Invalid Date. */
  function WorkDays(r: Range): (d: Option<int>)
    ensures d.Some? <==> r.start.At? && r.end.At?
    ensures d.Some? ==> (d.value - 1) * 86400000 < r.end.ms - r.start.ms <= d.value * 86400000
  {
    if r.start.At? && r.end.At? then Some(CeilDiv(r.end.ms - r.start.ms, 86400000)) else None
  }

  datatype CapacityRow = CapacityRow(teamId: string, teamName: string, membersCount: nat, appointmentsCount: nat, workDays: Option<int>, utilizationRate: string)
  {
    function ToRecord(): Record {
      [Field("teamId", Str(teamId)), Field("teamName", Str(teamName)), Field("membersCount", Num(membersCount)),
       Field("appointmentsCount", Num(appointmentsCount)),
       Field("workDays", if workDays.Some? then Num(workDays.value) else NaN),
       Field("utilizationRate", Str(utilizationRate))]
    }
  }

  /** `membersCount * workDays * 8`; NaN propagates. */
  function PotentialCapacity(members: nat, workDays: Option<int>): Option<int> {
    if workDays.Some? then Some(members * workDays.value * 8) else None
  }

  /** The percentage of the capacity used, before rounding. */
  function Utilization(appointments: nat, capacity: int): real
    requires capacity > 0
  {
    (appointments as real / capacity as real) * 100.0
  }

  /** `` `${rate}%` `` with the rate to 2 decimals, or `'0'` when the capacity is not positive. */
  function UtilizationText(appointments: nat, capacity: Option<int>): string {
    if capacity.Some? && capacity.value > 0 then FixedText(Utilization(appointments, capacity.value), 2) + "%"
    else "0%"
  }

  function CapacityRowFor(store: Snapshot, team: Team, r: Range, env: Env): CapacityRow {
    var members := Count(store.users, IsMember(team));
    var appointments := Count(store.events, TeamEvent(store, team, r, env));
    var days := WorkDays(r);
    CapacityRow(team.id, team.name, members, appointments, days, UtilizationText(appointments, PotentialCapacity(members, days)))
  }

  /** `generateCapacityReport`: one row per team, in team order. */
  function CapacityReport(store: Snapshot, r: Range, env: Env): (rows: seq<CapacityRow>)
    ensures |rows| == |store.teams|
  {
    seq(|store.teams|, i requires 0 <= i < |store.teams| => CapacityRowFor(store, store.teams[i], r, env))
  }

  /**
   * Capacity rows: the utilization is `'0%'` exactly when the potential
   * capacity (members × work days × 8) is not positive, so a team without
   * members always reads `'0%'` and nothing is divided by zero.
   */
  lemma CapacityRows(store: Snapshot, r: Range, env: Env, i: nat)
    requires i < |store.teams|
    ensures var row := CapacityReport(store, r, env)[i];
      var capacity := PotentialCapacity(row.membersCount, row.workDays);
      && row.teamId == store.teams[i].id && row.teamName == store.teams[i].name
      && row.membersCount == Count(store.users, IsMember(store.teams[i]))
      && row.appointmentsCount == Count(store.events, TeamEvent(store, store.teams[i], r, env))
      && row.workDays == WorkDays(r)
      && (row.utilizationRate == "0%" <==> !(capacity.Some? && capacity.value > 0))
      && (row.membersCount == 0 ==> row.utilizationRate == "0%")
  {
    var row := CapacityReport(store, r, env)[i];
    assert row == CapacityRowFor(store, store.teams[i], r, env);
    UtilizationTextZero(row.appointmentsCount, PotentialCapacity(row.membersCount, row.workDays));
  }

  /** The printed rate is `0%` exactly when the capacity is not positive: a positive one prints with a decimal point. */
  lemma UtilizationTextZero(appointments: nat, capacity: Option<int>)
    ensures UtilizationText(appointments, capacity) == "0%" <==> !(capacity.Some? && capacity.value > 0)
  {
    if capacity.Some? && capacity.value > 0 {
      var x := Utilization(appointments, capacity.value);
      FixedTextHasPoint(x, 2);
      assert '.' in UtilizationText(appointments, capacity);
    }
  }

  // ---------------------------------------------------------------------
  // Metrics
  // ---------------------------------------------------------------------

  /** `String(row.status || 'scheduled')`. */
  function StatusKey(row: AppointmentRow): string {
    if row.status != "" then row.status else "scheduled"
  }

  /** `String(row.productType || 'unknown')`. */
  function ProductKey(row: AppointmentRow): string {
    if row.productType != "" then row.productType else "unknown"
  }

  /** The status key of every row, in row order. */
  function StatusKeys(rows: seq<AppointmentRow>): (ks: seq<string>)
    ensures |ks| == |rows|
  {
    if rows == [] then [] else StatusKeys(rows[..|rows| - 1]) + [StatusKey(rows[|rows| - 1])]
  }

  /** The product key of every row, in row order. */
  function ProductKeys(rows: seq<AppointmentRow>): (ks: seq<string>)
    ensures |ks| == |rows|
  {
    if rows == [] then [] else ProductKeys(rows[..|rows| - 1]) + [ProductKey(rows[|rows| - 1])]
  }

  /** `Object.entries(counts).map(([k, v]) => `${k}: ${v}`).join(', ')` for keys in first-seen order. */
  function Breakdown(keys: seq<string>, counts: map<string, nat>): string
    requires forall k | k in keys :: k in counts
  {
    Join(seq(|keys|, i requires 0 <= i < |keys| => keys[i] + ": " + IntText(counts[keys[i]])), ", ")
  }

  /** How many times each value occurs. */
  function Tally(ks: seq<string>): map<string, nat> {
    map k | k in ks :: Occurrences(ks, k)
  }

  /** Counting one more value: the tally and the first-seen order as the loop of `calculateAppointmentMetrics` updates them. */
  /** `counts[k] = (counts[k] || 0) + 1`. */
  function Bump(counts: map<string, nat>, k: string): map<string, nat> {
    counts[k := (if k in counts then counts[k] else 0) + 1]
  }

  lemma TallyStep(s: seq<string>, x: string)
    ensures Tally(s + [x]) == Bump(Tally(s), x)
    ensures Distinct(s + [x]) == if x in Tally(s) then Distinct(s) else Distinct(s) + [x]
  {
    var t := s + [x];
    assert t[..|t| - 1] == s;
    DistinctSpec(s);
    assert x in Tally(s) <==> x in Distinct(s);
    assert multiset(t) == multiset(s) + multiset{x};
    var before := Tally(s);
    var after := Tally(t);
    var bumped := Bump(before, x);
    forall k ensures k in after <==> k in bumped {
      assert k in t <==> k in s || k == x;
    }
    forall k | k in after ensures after[k] == bumped[k] {
      assert k in t <==> k in s || k == x;
    }
    assert after == bumped;
  }

  /** The appointment metrics: the row count, the per-status breakdown and the number of distinct products. */
  function AppointmentMetricsOf(rows: seq<AppointmentRow>): Metrics {
    var statuses := StatusKeys(rows);
    DistinctSpec(statuses);
    AppointmentMetrics(|rows|, Breakdown(Distinct(statuses), Tally(statuses)), |Distinct(ProductKeys(rows))|)
  }

  /** `calculateAppointmentMetrics`: tallies statuses and products in one pass over the rows. */
  method CalculateAppointmentMetrics(rows: seq<AppointmentRow>) returns (m: Metrics)
    ensures m == AppointmentMetricsOf(rows)
  {
    var byStatus: map<string, nat> := map[];
    var statusOrder: seq<string> := [];
    var byProduct: map<string, nat> := map[];
    var productOrder: seq<string> := [];
    var i := 0;
    while i < |rows|
      invariant 0 <= i <= |rows|
      invariant byStatus == Tally(StatusKeys(rows[..i])) && statusOrder == Distinct(StatusKeys(rows[..i]))
      invariant byProduct == Tally(ProductKeys(rows[..i])) && productOrder == Distinct(ProductKeys(rows[..i]))
    {
      var status := StatusKey(rows[i]);
      var product := ProductKey(rows[i]);
      assert rows[..i + 1][..i] == rows[..i];
      assert StatusKeys(rows[..i + 1]) == StatusKeys(rows[..i]) + [status];
      assert ProductKeys(rows[..i + 1]) == ProductKeys(rows[..i]) + [product];
      TallyStep(StatusKeys(rows[..i]), status);
      TallyStep(ProductKeys(rows[..i]), product);
      if status !in byStatus {
        statusOrder := statusOrder + [status];
      }
      if product !in byProduct {
        productOrder := productOrder + [product];
      }
      byStatus := Bump(byStatus, status);
      byProduct := Bump(byProduct, product);
      i := i + 1;
    }
    assert rows[..i] == rows;
    DistinctSpec(StatusKeys(rows));
    m := AppointmentMetrics(|rows|, Breakdown(statusOrder, byStatus), |productOrder|);
  }

  /** The per-status counts of the breakdown add up to the number of rows, and there are no more products than rows. */
  lemma AppointmentBreakdownTotal(rows: seq<AppointmentRow>)
    ensures var statuses := StatusKeys(rows);
      SumOf(Distinct(statuses), OccurrencesIn(statuses)) == |rows|
    ensures AppointmentMetricsOf(rows).uniqueProducts <= AppointmentMetricsOf(rows).totalAppointments
  {
    OccurrencesSum(StatusKeys(rows));
    DistinctSpec(ProductKeys(rows));
  }

  /** How often a value occurs in `s`, as a function of the value. */
  function OccurrencesIn(s: seq<string>): string -> int {
    k => Occurrences(s, k)
  }

  lemma {:induction false} OccurrencesSum(s: seq<string>)
    ensures SumOf(Distinct(s), OccurrencesIn(s)) == |s|
    decreases |s|
  {
    if s != [] {
      var s' := s[..|s| - 1];
      var x := s[|s| - 1];
      assert s == s' + [x];
      OccurrencesSum(s');
      DistinctSpec(s');
      SumShift(Distinct(s'), s', x);
      if x !in Distinct(s') {
        var d := Distinct(s') + [x];
        assert d[..|d| - 1] == Distinct(s');
        assert x !in s';
        assert Occurrences(s, x) == 1;
      }
    }
  }

  /** Over keys without repeats, adding one value raises the summed counts by one when the value is among the keys. */
  lemma {:induction false} SumShift(d: seq<string>, s: seq<string>, x: string)
    requires NoDuplicates(d)
    ensures SumOf(d, OccurrencesIn(s + [x])) == SumOf(d, OccurrencesIn(s)) + (if x in d then 1 else 0)
    decreases |d|
  {
    if d != [] {
      var d' := d[..|d| - 1];
      assert forall i, j | 0 <= i < j < |d'| :: d'[i] == d[i] && d'[j] == d[j];
      SumShift(d', s, x);
      assert multiset(s + [x]) == multiset(s) + multiset{x};
      assert x in d <==> x in d' || x == d[|d| - 1];
      assert d[|d| - 1] !in d';
    }
  }

  /** `r => r.status === status`. */
  function TivStatusIs(status: string): TivRow -> bool {
    (r: TivRow) => r.status == status
  }

  /** `calculateTIVMetrics`: the requests with each status, and the approved share to one decimal, `0%` when there are none. */
  function TivMetricsOf(rows: seq<TivRow>): (m: Metrics)
    ensures m.TivMetrics? && m.totalRequests == |rows|
    ensures m.approved == Count(rows, TivStatusIs("APPROVED"))
    ensures m.pending == Count(rows, TivStatusIs("PENDING"))
    ensures m.rejected == Count(rows, TivStatusIs("REJECTED"))
    ensures m.approved + m.pending + m.rejected <= m.totalRequests
    ensures m.approvalRate == "0%" <==> rows == []
  {
    var approved := Count(rows, TivStatusIs("APPROVED"));
    var pending := Count(rows, TivStatusIs("PENDING"));
    var rejected := Count(rows, TivStatusIs("REJECTED"));
    DisjointCounts(rows, TivStatusIs("APPROVED"), TivStatusIs("PENDING"), TivStatusIs("REJECTED"));
    if |rows| > 0 then FixedTextHasPoint(approved as real / |rows| as real * 100.0, 1); TivMetrics(|rows|, approved, pending, rejected, FixedText(approved as real / |rows| as real * 100.0, 1) + "%")
    else TivMetrics(0, approved, pending, rejected, "0%")
  }

  /** Two approved requests out of four read as a 50.0% approval rate. */
  lemma TivHalfApproved(rows: seq<TivRow>)
    requires |rows| == 4 && Count(rows, TivStatusIs("APPROVED")) == 2
    ensures TivMetricsOf(rows).approvalRate == "50.0%"
  {
    var x := 2 as real / 4 as real * 100.0;
    assert x == 50.0;
    assert Scaled(50.0, 1) == 500;
    assert NatText(500) == "500";
    assert PadDigits("500", 2) == "500";
  }

  /** `calculateAccelerationMetrics`: distinct customer names, as `new Set(...).size` counts them. */
  function AccelerationMetricsOf(rows: seq<AccelerationRow>): (m: Metrics)
    ensures m.AccelerationMetrics? && m.totalAccelerations == |rows|
    ensures m.uniqueCustomers <= m.totalAccelerations
    ensures m.uniqueCustomers == |set r | r in rows :: r.customerName|
  {
    var names := seq(|rows|, i requires 0 <= i < |rows| => rows[i].customerName);
    DistinctCardinality(names);
    assert (set x | x in names) == (set r | r in rows :: r.customerName) by {
      forall x | x in names ensures x in (set r | r in rows :: r.customerName) {
        var i :| 0 <= i < |names| && names[i] == x;
        assert rows[i] in rows;
      }
      forall r | r in rows ensures r.customerName in names {
        var i :| 0 <= i < |rows| && rows[i] == r;
        assert names[i] == r.customerName;
      }
    }
    AccelerationMetrics(|rows|, |Distinct(names)|)
  }

  /** `calculateTeamActivityMetrics`: totals over the rows and the snapshot's user count. */
  function TeamActivityMetricsOf(rows: seq<TeamActivityRow>, totalUsers: nat): (m: Metrics)
    ensures m.TeamActivityMetrics? && m.totalTeams == |rows| && m.totalMembers == totalUsers
    ensures m.totalAppointments == SumOf(rows, (r: TeamActivityRow) => r.appointmentsCount)
    ensures m.avgPerTeam == "0" <==> rows == []
  {
    var total := SumOf(rows, (r: TeamActivityRow) => r.appointmentsCount);
    SumNonNegative(rows);
    if |rows| > 0 then
      FixedTextHasPoint(total as real / |rows| as real, 2);
      TeamActivityMetrics(|rows|, totalUsers, total, FixedText(total as real / |rows| as real, 2))
    else TeamActivityMetrics(0, totalUsers, total, "0")
  }

  lemma {:induction false} SumNonNegative(rows: seq<TeamActivityRow>)
    ensures SumOf(rows, (r: TeamActivityRow) => r.appointmentsCount) >= 0
    decreases |rows|
  {
    if rows != [] {
      SumNonNegative(rows[..|rows| - 1]);
    }
  }

  /** `parseFloat(String(row.utilizationRate || '0%').replace('%', ''))`. */
  function RateValue(row: CapacityRow): Option<Decimal> {
    ParseFloat(ReplaceFirst(if row.utilizationRate != "" then row.utilizationRate else "0%", '%'))
  }

  /** A sum left to right that turns NaN (`None`) as soon as one term is NaN. */
  function SumMaybe<T>(s: seq<T>, f: T -> Option<real>): Option<real> {
    if s == [] then Some(0.0)
    else
      var sum := SumMaybe(s[..|s| - 1], f);
      var v := f(s[|s| - 1]);
      if sum.Some? && v.Some? then Some(sum.value + v.value) else None
  }

  /** A sum left to right of real terms. */
  function SumReals<T>(s: seq<T>, f: T -> real): real {
    if s == [] then 0.0 else SumReals(s[..|s| - 1], f) + f(s[|s| - 1])
  }

  /** When no term is NaN, the sum is the sum of the terms. */
  lemma {:induction false} SumMaybeAll<T>(s: seq<T>, f: T -> Option<real>, g: T -> real)
    requires forall i | 0 <= i < |s| :: f(s[i]) == Some(g(s[i]))
    ensures SumMaybe(s, f) == Some(SumReals(s, g))
    decreases |s|
  {
    if s != [] {
      var prefix := s[..|s| - 1];
      assert forall i | 0 <= i < |prefix| :: prefix[i] == s[i];
      SumMaybeAll(prefix, f, g);
    }
  }

  /** `parseFloat` of a row's rate, as a number; `None` is NaN. */
  function ParsedRate(): CapacityRow -> Option<real> {
    (row: CapacityRow) => if RateValue(row).Some? then Some(RateValue(row).value.Value()) else None
  }

  /** The sum of the parsed rates; `None` (NaN) as soon as one does not parse. */
  function SumRates(rows: seq<CapacityRow>): Option<real> {
    SumMaybe(rows, ParsedRate())
  }

  /** `calculateCapacityMetrics`: the mean utilization to 2 decimals, `0.00%` for no rows. */
  function CapacityMetricsOf(rows: seq<CapacityRow>): (m: Metrics)
    ensures m.CapacityMetrics? && m.totalTeams == |rows|
  {
    if rows == [] then CapacityMetrics(0, FixedText(0.0, 2) + "%")
    else
      match SumRates(rows)
      case Some(total) => CapacityMetrics(|rows|, FixedText(total / |rows| as real, 2) + "%")
      case None => CapacityMetrics(|rows|, "NaN%")
  }

  /** No teams: the mean utilization reads `0.00%`. */
  lemma CapacityMetricsEmpty()
    ensures CapacityMetricsOf([]).avgUtilization == "0.00%"
  {
    assert Scaled(0.0, 2) == 0;
    assert NatText(0) == "0";
    assert PadDigits("0", 3) == "000" by {
      ZerosShift(2);
      ZerosShift(1);
    }
  }

  /** The utilization a capacity row stands for, after rounding to 2 decimals. */
  function RoundedRate(row: CapacityRow): real {
    var capacity := PotentialCapacity(row.membersCount, row.workDays);
    if capacity.Some? && capacity.value > 0 then Rounded(Utilization(row.appointmentsCount, capacity.value), 2).Value()
    else 0.0
  }

  /** A capacity row as the generator prints it: its rate is the text of its own utilization. */
  predicate RatePrinted(row: CapacityRow) {
    row.utilizationRate == UtilizationText(row.appointmentsCount, PotentialCapacity(row.membersCount, row.workDays))
  }

  /** Reading a generated rate back gives the rounded utilization it was printed from. */
  lemma RateReadsBack(row: CapacityRow)
    requires RatePrinted(row)
    ensures ReadsBack(row)
  {
    var capacity := PotentialCapacity(row.membersCount, row.workDays);
    if capacity.Some? && capacity.value > 0 {
      var x := Utilization(row.appointmentsCount, capacity.value);
      var t := FixedText(x, 2);
      FixedTextChars(x, 2);
      assert '%' !in t by {
        forall i | 0 <= i < |t| ensures t[i] != '%' {
        }
      }
      ReplaceFirstSuffix(t, '%');
      assert t + "%" == t + ['%'];
      ParseFixedText(x, 2);
    } else {
      assert "0%" == "0" + ['%'];
      ReplaceFirstSuffix("0", '%');
      ParseWhole("0");
      assert DigitsValue("0") == 0;
    }
  }

  function RoundedRateOf(): CapacityRow -> real {
    (row: CapacityRow) => RoundedRate(row)
  }

  /** The sum of the rounded utilizations. */
  function SumRoundedRates(rows: seq<CapacityRow>): real {
    SumReals(rows, RoundedRateOf())
  }

  /** A row whose rate text parses back to its rounded utilization. */
  predicate ReadsBack(row: CapacityRow) {
    RateValue(row).Some? && RateValue(row).value.Value() == RoundedRate(row)
  }

  /** The capacity metrics of a generated capacity report: the mean of the rounded per-team utilizations, to 2 decimals. */
  lemma CapacityMetricsOfReport(store: Snapshot, r: Range, env: Env)
    ensures var rows := CapacityReport(store, r, env);
      rows != [] ==> CapacityMetricsOf(rows).avgUtilization == FixedText(SumRoundedRates(rows) / |rows| as real, 2) + "%"
  {
    var rows := CapacityReport(store, r, env);
    forall i | 0 <= i < |rows|
      ensures ParsedRate()(rows[i]) == Some(RoundedRateOf()(rows[i]))
    {
      RateReadsBack(rows[i]);
    }
    SumMaybeAll(rows, ParsedRate(), RoundedRateOf());
  }

  // ---------------------------------------------------------------------
  // Dispatch
  // ---------------------------------------------------------------------

  /** The rows of the configured report type and their metrics, before sorting; an unknown type has neither. */
  function Dispatch(config: Config, store: Snapshot, r: Range, env: Env): Result<(seq<Record>, Metrics), string> {
    match config.reportType
    case Appointments =>
      (match AppointmentsReport(store, r, config.teamId, env)
       case Failure(e) => Failure(e)
       case Success(rows) => Success((seq(|rows|, i requires 0 <= i < |rows| => rows[i].ToRecord()), AppointmentMetricsOf(rows))))
    case Tiv =>
      var rows := TivReport(store.tivRequests, r, config.teamId, env);
      Success((seq(|rows|, i requires 0 <= i < |rows| => rows[i].ToRecord()), TivMetricsOf(rows)))
    case Accelerations =>
      var rows := AccelerationsReport(store.accelerations, r, config.teamId, env);
      Success((seq(|rows|, i requires 0 <= i < |rows| => rows[i].ToRecord()), AccelerationMetricsOf(rows)))
    case TeamActivity =>
      var rows := TeamActivityReport(store, r, env);
      Success((seq(|rows|, i requires 0 <= i < |rows| => rows[i].ToRecord()), TeamActivityMetricsOf(rows, |store.users|)))
    case Capacity =>
      var rows := CapacityReport(store, r, env);
      Success((seq(|rows|, i requires 0 <= i < |rows| => rows[i].ToRecord()), CapacityMetricsOf(rows)))
    case CustomReport => Success(([], NoMetrics))
  }

  /** Sorting applies when `sortBy` is set, there are rows, and the first row has that key. */
  predicate SortApplies(sortBy: string, rows: seq<Record>) {
    sortBy != "" && |rows| > 0 && HasKey(rows[0], sortBy)
  }

  datatype Report = Report(data: seq<Record>, summary: Summary)

  /** The `switch` of `generateReportData`: the rows and metrics of the configured report type. */
  method GenerateRows(config: Config, store: Snapshot, range: Range, env: Env) returns (res: Result<(seq<Record>, Metrics), string>)
    ensures res == Dispatch(config, store, range, env)
  {
    var reportData: seq<Record> := [];
    var metrics := NoMetrics;
    match config.reportType {
      case Appointments =>
        var generated := AppointmentsReport(store, range, config.teamId, env);
        if generated.Failure? {
          return Failure(generated.error);
        }
        var rows := generated.value;
        reportData := seq(|rows|, i requires 0 <= i < |rows| => rows[i].ToRecord());
        metrics := CalculateAppointmentMetrics(rows);
      case Tiv =>
        var rows := TivReport(store.tivRequests, range, config.teamId, env);
        reportData := seq(|rows|, i requires 0 <= i < |rows| => rows[i].ToRecord());
        metrics := TivMetricsOf(rows);
      case Accelerations =>
        var rows := AccelerationsReport(store.accelerations, range, config.teamId, env);
        reportData := seq(|rows|, i requires 0 <= i < |rows| => rows[i].ToRecord());
        metrics := AccelerationMetricsOf(rows);
      case TeamActivity =>
        var rows := TeamActivityReport(store, range, env);
        reportData := seq(|rows|, i requires 0 <= i < |rows| => rows[i].ToRecord());
        metrics := TeamActivityMetricsOf(rows, |store.users|);
      case Capacity =>
        var rows := CapacityReport(store, range, env);
        reportData := seq(|rows|, i requires 0 <= i < |rows| => rows[i].ToRecord());
        metrics := CapacityMetricsOf(rows);
      case CustomReport =>
    }
    return Success((reportData, metrics));
  }

  /**
   * `generateReportData(config, store)`: resolves the range, builds the
   * rows and metrics of the report type, sorts when asked to, and
   * summarises; formatting an Invalid Date makes it throw.
   */
  method GenerateReportData(config: Config, store: Snapshot, cal: Calendar, env: Env) returns (res: Result<Report, string>)
    ensures var r := GetDateRange(config.dateRange, config.startDate, config.endDate, cal, env);
      res.Success? <==> Dispatch(config, store, r, env).Success? && r.start.At? && r.end.At?
    ensures var r := GetDateRange(config.dateRange, config.startDate, config.endDate, cal, env);
      res.Success? ==>
        var (rows, metrics) := Dispatch(config, store, r, env).value;
        && res.value.data == (if SortApplies(config.sortBy, rows) then SortData(rows, config.sortBy, config.sortDirection, env.collate) else rows)
        && res.value.summary == Summary(|res.value.data|, env.fmt(r.start.ms, IsoDay), env.fmt(r.end.ms, IsoDay), metrics)
  {
    var range := GetDateRange(config.dateRange, config.startDate, config.endDate, cal, env);
    var generated := GenerateRows(config, store, range, env);
    if generated.Failure? {
      return Failure(generated.error);
    }
    var (reportData, metrics) := generated.value;
    if config.sortBy != "" && |reportData| > 0 && HasKey(reportData[0], config.sortBy) {
      reportData := SortData(reportData, config.sortBy, config.sortDirection, env.collate);
    }
    var summary := CreateReportSummary(reportData, range, metrics, env);
    if summary.Failure? {
      return Failure(summary.error);
    }
    return Success(Report(reportData, summary.value));
  }

  /** An unrecognised report type yields no rows and no metrics, and no error of its own. */
  lemma UnknownTypeIsEmpty(config: Config, store: Snapshot, r: Range, env: Env)
    requires config.reportType == CustomReport
    ensures Dispatch(config, store, r, env) == Success(([], NoMetrics))
  {
  }

  /** The data of a report is always the dispatched rows, reordered at most. */
  lemma ReportDataIsPermutation(config: Config, rows: seq<Record>, env: Env)
    ensures var data := if SortApplies(config.sortBy, rows) then SortData(rows, config.sortBy, config.sortDirection, env.collate) else rows;
      multiset(data) == multiset(rows)
  {
    SortDataPermutation(rows, config.sortBy, config.sortDirection, env.collate);
  }
}
