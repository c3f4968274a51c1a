/**
 * The shapes the reporting engine works on: loosely typed rows
 * (`Record<string, unknown>`), instants, report configurations, stored
 * templates and executions, the domain snapshot the generator reads and
 * the typed metrics it computes.
 */
module ReportTypes {
  import opened Wrappers
  import opened Seqs
  import opened Strings

  // ---------------------------------------------------------------------
  // Loosely typed rows
  // ---------------------------------------------------------------------

  /** The property values rows hold; numbers are integers here. */
  datatype Value = Undefined | Null | Bool(b: bool) | Num(n: int) | NaN | Str(s: string)

  /** One own property of a row. */
  datatype Field = Field(key: string, value: Value)

  /** A row: its own properties in key order. */
  type Record = seq<Field>

  /** `Object.keys(r)`. */
  function Keys(r: Record): (ks: seq<string>)
    ensures |ks| == |r|
    ensures forall i | 0 <= i < |r| :: ks[i] == r[i].key
  {
    if r == [] then [] else Keys(r[..|r| - 1]) + [r[|r| - 1].key]
  }

  /** `k in r`, for the row's own properties. */
  predicate HasKey(r: Record, k: string) {
    k in Keys(r)
  }

  /** `r[k]`: the value under `k`, `undefined` when the row has no such property. */
  function Get(r: Record, k: string): Value {
    if r == [] then Undefined
    else if r[0].key == k then r[0].value
    else Get(r[1..], k)
  }

  /** `r[k] = v`: overwrite the property in place, or add it last. */
  function Put(r: Record, k: string, v: Value): Record {
    if r == [] then [Field(k, v)]
    else if r[0].key == k then [Field(k, v)] + r[1..]
    else [r[0]] + Put(r[1..], k, v)
  }

  /** A row as the language builds it: no key twice. */
  ghost predicate WellFormed(r: Record) {
    NoDuplicates(Keys(r))
  }

  /** JavaScript truthiness of a value. */
  predicate Truthy(v: Value) {
    match v
    case Undefined => false
    case Null => false
    case Bool(b) => b
    case Num(n) => n != 0
    case NaN => false
    case Str(s) => s != ""
  }

  /** `String(v)`. */
  function ValueText(v: Value): string {
    match v
    case Undefined => "undefined"
    case Null => "null"
    case Bool(b) => if b then "true" else "false"
    case Num(n) => IntText(n)
    case NaN => "NaN"
    case Str(s) => s
  }

  /** `a || b` on optional strings, where the empty string is falsy. */
  function OrElse(a: Option<string>, b: string): string {
    if a.Some? && a.value != "" then a.value else b
  }

  /** `!s` for an optional string parameter. */
  predicate Blank(s: Option<string>) {
    s.None? || s.value == ""
  }

  // ---------------------------------------------------------------------
  // Instants and ranges
  // ---------------------------------------------------------------------

  /** A `Date`: milliseconds since the epoch, or the Invalid Date a malformed string parses to. */
  datatype Stamp = At(ms: int) | Invalid

  /** A closed range of instants. */
  datatype Range = Range(start: Stamp, end: Stamp)

  /** The bounds of the calendar periods containing "now", as the date library computes them. */
  datatype Calendar = Calendar(today: Range, week: Range, month: Range, quarter: Range, year: Range)

  /** The date range kinds a configuration names; `Other` stands for any unlisted value. */
  datatype RangeKind = Today | Week | Month | Quarter | Year | Custom | Other

  /** The patterns the engine formats instants with. */
  datatype DatePattern =
    | DayTime   // 'MMM dd, yyyy HH:mm'
    | Time      // 'HH:mm'
    | Day       // 'MMM dd, yyyy'
    | IsoDay    // 'yyyy-MM-dd'

  /**
   * The date and locale library the engine calls: `parseISO` (the range
   * filter), the `Date` constructor on a string (the row builders), `format`
   * of a valid instant, and `localeCompare`. The two parsers are separate
   * because they differ: a date-only string is local midnight to one and
   * UTC midnight to the other, and each accepts strings the other rejects.
   */
  datatype Env = Env(
    parse: string -> Stamp,
    date: string -> Stamp,
    fmt: (int, DatePattern) -> string,
    collate: (string, string) -> int)

  /** `format(d, pattern)`: throws a RangeError on an Invalid Date. */
  function Format(env: Env, d: Stamp, pattern: DatePattern): (r: Result<string, string>)
    ensures r.Success? <==> d.At?
  {
    match d
    case At(ms) => Success(env.fmt(ms, pattern))
    case Invalid => Failure("Invalid time value")
  }

  // ---------------------------------------------------------------------
  // Configurations, summaries and metrics
  // ---------------------------------------------------------------------

  datatype ReportType = Appointments | Tiv | Accelerations | TeamActivity | Capacity | CustomReport

  datatype Direction = Asc | Desc

  /** The fields of a report configuration the engine reads. */
  datatype Config = Config(
    reportType: ReportType,
    dateRange: RangeKind,
    startDate: Option<string>,
    endDate: Option<string>,
    teamId: Option<string>,
    columns: seq<string>,
    sortBy: string,
    sortDirection: Direction)

  /** The metrics each report type computes; `NoMetrics` is the empty object. */
  datatype Metrics =
    | NoMetrics
    | AppointmentMetrics(totalAppointments: nat, byStatus: string, uniqueProducts: nat)
    | TivMetrics(totalRequests: nat, approved: nat, pending: nat, rejected: nat, approvalRate: string)
    | AccelerationMetrics(totalAccelerations: nat, uniqueCustomers: nat)
    | TeamActivityMetrics(totalTeams: nat, totalMembers: nat, totalAppointments: nat, avgPerTeam: string)
    | CapacityMetrics(totalTeams: nat, avgUtilization: string)

  /** The summary of a generated report: row count, formatted bounds and metrics. */
  datatype Summary = Summary(totalRecords: nat, start: string, end: string, metrics: Metrics)

  // ---------------------------------------------------------------------
  // Stored templates and executions
  // ---------------------------------------------------------------------

  datatype Template = Template(
    id: string,
    userId: string,
    name: string,
    description: string,
    reportType: ReportType,
    configuration: Config,
    isPublic: bool,
    createdAt: int,
    updatedAt: int)

  /** `Partial<ReportTemplate>`: the fields an update overwrites. */
  datatype TemplatePatch = TemplatePatch(
    id: Option<string>,
    userId: Option<string>,
    name: Option<string>,
    description: Option<string>,
    reportType: Option<ReportType>,
    configuration: Option<Config>,
    isPublic: Option<bool>,
    createdAt: Option<int>,
    updatedAt: Option<int>)

  /** An execution record without its id and time, as the caller hands it over. */
  datatype ExecutionDraft = ExecutionDraft(
    templateId: Option<string>,
    userId: string,
    reportType: string,
    resultCount: nat,
    exported: bool)

  datatype Execution = Execution(
    id: string,
    templateId: Option<string>,
    userId: string,
    reportType: string,
    resultCount: nat,
    executedAt: Stamp,
    exported: bool)

  /** A collection kept as a JSON text under one storage key. */
  datatype Blob<T> = Absent | Corrupt | Stored(items: seq<T>)

  /** What a read that falls back to `'[]'` on a missing key and to `[]` on a parse error yields. */
  function ItemsOr<T>(b: Blob<T>): seq<T> {
    if b.Stored? then b.items else []
  }

  // ---------------------------------------------------------------------
  // The domain snapshot the generator reads
  // ---------------------------------------------------------------------

  datatype User = User(id: string, email: string, teamId: Option<string>)

  datatype Team = Team(id: string, name: string)

  datatype Event = Event(
    id: string,
    orderId: string,
    customerName: string,
    startTime: string,
    endTime: string,
    productType: string,
    createdBy: string,
    status: Option<string>,
    changeTypes: Option<seq<string>>)

  datatype TivRequest = TivRequest(
    id: string,
    customerName: string,
    status: string,
    createdAt: string,
    productType: string,
    orderType: Option<string>,
    teamId: Option<string>)

  datatype Acceleration = Acceleration(
    id: string,
    orderId: string,
    customerName: string,
    productType: string,
    reason: Option<string>,
    createdAt: string,
    teamId: Option<string>)

  /** The store snapshot plus the two collections the generator reads from storage. */
  datatype Snapshot = Snapshot(
    events: seq<Event>,
    users: seq<User>,
    teams: seq<Team>,
    tivRequests: Blob<TivRequest>,
    accelerations: Blob<Acceleration>)
}
