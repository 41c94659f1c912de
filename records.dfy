/**
 * The rows of the backend's tables (the files under backend/app/models) as values.
 *
 * A table is a sequence of rows; the row at position k has the
 * autoincrement id k + 1, so id 0 is never a row. Rows are never removed:
 * every delete in the backend is a soft delete. Float columns (area,
 * total_area) and the created/updated timestamps are not modelled.
 */
module Records {
  import opened Wrappers

  datatype Tenant = Tenant(name: string, active: bool)

  datatype Farm = Farm(
    tenantId: int,
    name: string,
    farmCode: string,
    description: Option<string>,
    location: Option<string>,
    farmOwnerName: string,
    deleted: bool)

  datatype Section = Section(
    farmId: int,
    name: string,
    sectionCode: string,
    description: Option<string>,
    cropType: Option<string>,
    sectionInchargeName: Option<string>,
    notes: Option<string>,
    isDeleted: bool)

  /** Time stamps of devices are whole seconds on one fixed clock. */
  datatype Device = Device(
    farmId: int,
    deviceUid: string,
    status: Option<string>,
    firmwareVersion: Option<string>,
    lastSeen: Option<int>,
    isDeleted: bool,
    availableGpioPins: Option<string>)

  /** scope is "section" or "farm" in the seeded data; any string is stored. */
  datatype PeripheralType = PeripheralType(name: string, scope: string, exclusive: bool)

  datatype Mapping = Mapping(
    deviceId: int,
    farmId: Option<int>,
    sectionId: Option<int>,
    typeId: int,
    gpioPin: int,
    isDeleted: bool)

  /**
   * The duration column is NOT NULL, but the conflict check reads it with a
   * None default, so the model keeps it optional to keep that branch.
   */
  datatype Schedule = Schedule(
    mappingId: int,
    cron: string,
    durationMinutes: Option<int>,
    isDeleted: bool)

  /** The HTTP errors the endpoints raise (404, 400) and uncaught exceptions (500). */
  datatype Failure = NotFound(detail: string) | BadRequest(detail: string) | ServerError(detail: string)

  datatype Role = SuperAdmin | TenantAdmin

  /** id names a row of table t. */
  predicate IsId<T>(t: seq<T>, id: int) {
    1 <= id <= |t|
  }

  function Row<T>(t: seq<T>, id: int): T
    requires IsId(t, id)
  {
    t[id - 1]
  }

  /** The id the next inserted row receives. */
  function NextId<T>(t: seq<T>): int {
    |t| + 1
  }

  /** Python truthiness of an optional integer request field. */
  predicate Truthy(x: Option<int>) {
    x.Some? && x.value != 0
  }

  /**
   * The ids 1..n that satisfy p, in ascending order: the result of a query
   * over a table of n rows (the model reads SQL's unordered results in id order).
   */
  function IdsWhere(n: nat, p: int -> bool): (ids: seq<int>)
    ensures forall id :: id in ids <==> 1 <= id <= n && p(id)
    ensures forall i, j :: 0 <= i < j < |ids| ==> ids[i] < ids[j]
    ensures forall i :: 0 <= i < |ids| ==> ids[i] <= n
  {
    if n == 0 then [] else IdsWhere(n - 1, p) + if p(n) then [n] else []
  }
}
