# Farm automation backend: a verified model of its core

This project models the part of the farm-automation backend that keeps the
farm's data consistent and tracks whether devices are alive:

- **Schedules** (`backend/app/api/schedule.py`). Create, update and soft
  delete schedules. A peripheral type can be marked *exclusive*. The
  exclusive-type conflict check then refuses a new or changed schedule
  whose next 7 cron occurrences overlap those of any live schedule on a
  live exclusive mapping of the same farm, whether that mapping hangs off
  the farm or one of its sections.
- **Peripherals** (`backend/app/api/peripheral.py`).
  - The comma-separated GPIO pin list of a device, and which of those pins
    are still free.
  - The validation chains of attaching a peripheral to a section or a farm.
  - The soft delete of a mapping together with its schedules.
- **Sections, farms, devices** (`backend/app/api/section.py`, `farm.py`,
  `device.py`).
  - A section code is unique within its farm.
  - A farm code is unique within its tenant.
  - A farm has at most one live device.
  - Updates change only the fields the request supplies.
  - Soft deletes cascade: farm → sections → mappings → schedules.
- **The MQTT status worker** (`backend/app/mqtt_status_worker.py`).
  - Topics of the form `farm/<farm>/device/<device>/<kind>` are matched and
    routed.
  - A status payload is decoded, and the first live device with the topic's
    device uid gets its status and `last_seen` updated.
  - A periodic sweep marks offline every live device silent for longer
    than the threshold.

The database is one object, `Store.Db`, holding one sequence per table. The
row at position k has the auto-increment id k + 1, and rows are never
removed: every delete sets a flag.

Each endpoint has two forms:

- a specification function (`CreateOutcome`, `UpdateOutcome`,
  `AttachOutcome`, `OnMessageOutcome`, `Swept`, ...) giving the stored row or
  the HTTP error;
- a method on `Db` proved to agree with it.

The properties the backend relies on are lemmas about those functions.

Inputs from outside the program are parameters:

- the clock is `now`;
- the cron library is a function value of type `Occurrences.Expander`
  (None where croniter raises), and `Occurrences.WellBehaved` states what
  is assumed of it;
- `datetime.fromisoformat` is a function value of type
  `StatusWorker.IsoParser`.

Schedule instants are whole minutes. Device instants are whole seconds.
Where a query's order matters (`first()`), the model reads rows in
ascending id order.

## Model

| member | source | states |
|---|---|---|
| Occurrences.NextOccurrences | backend/app/api/schedule.py:20-22 | for a well-behaved expander, the n occurrences are strictly increasing and all later than the base instant |
| Occurrences.WindowsOverlap | backend/app/api/schedule.py:16-17 | true exactly when some instant lies in both half-open windows |
| Occurrences.OverlapSymmetric | backend/app/api/schedule.py:16-17 | the overlap test does not depend on argument order |
| Occurrences.TouchingWindowsDoNotOverlap | backend/app/api/schedule.py:16-17 | a window ending where the other starts is no overlap |
| Occurrences.NonEmptyWindowOverlapsItself | backend/app/api/schedule.py:16-17 | a window of positive length overlaps itself |
| Occurrences.PairsOverlap | backend/app/api/schedule.py:102-106 | the nested occurrence loop reports true exactly when some pair of windows overlaps |
| Occurrences.SharedStartOverlaps | backend/app/api/schedule.py:102-106 | two positive-length schedules that share a start instant overlap |
| Occurrences.EmptyDurationNeverOverlaps | backend/app/api/schedule.py:102-106 | a schedule of non-positive duration overlaps nothing |
| Conflict.ResolveFarm | backend/app/api/schedule.py:43-48 | no farm is found exactly when the mapping has no farm_id and its section_id names no section row |
| Conflict.PeerSchedules | backend/app/api/schedule.py:84-92 | a schedule is collected exactly when it is live, not excluded and belongs to one of the relevant mappings |
| Conflict.PeersExactly | backend/app/api/schedule.py:50-92 | the compared schedules are exactly the live ones of live exclusive-type mappings of the resolved farm or of its sections (deleted sections included) |
| Conflict.CollectPeers | backend/app/api/schedule.py:85-92 | the extend loop builds the peer list the specification defines |
| Conflict.ScanPeers | backend/app/api/schedule.py:97-108 | the loop over the peers returns the verdict of the first peer that overlaps or whose rule fails, else Clear |
| Conflict.CheckExclusive | backend/app/api/schedule.py:39-108 | the whole exclusive branch computes the specified verdict |
| Conflict.ScanClearIff | backend/app/api/schedule.py:97-108 | the scan is Clear exactly when every peer's rule expands and no peer of known duration overlaps |
| Conflict.ScanOverlapSound | backend/app/api/schedule.py:97-108 | an Overlap verdict names a peer whose occurrences really overlap the candidate's |
| Conflict.ScanMalformedSound | backend/app/api/schedule.py:95-98 | a malformed-rule verdict names the rule of a peer that croniter rejects |
| Conflict.CheckRejectsIffOverlap | backend/app/api/schedule.py:95-108 | with well-formed rules the check rejects exactly when some peer overlaps, and never reports a malformed rule |
| Conflict.FarmAndSectionMappingsArePeers | backend/app/api/schedule.py:55-80 | exclusive mappings on a farm and on a section of that farm see each other's live schedules |
| ScheduleApi.VerdictFailure | backend/app/api/schedule.py:106-108 | an overlap ends the request with a 400; only a croniter failure gives a server error |
| ScheduleApi.CreateSchedule | backend/app/api/schedule.py:33-113 | fails exactly as CreateOutcome says and leaves the table unchanged; otherwise appends the specified row under the next id |
| ScheduleApi.UpdateSchedule | backend/app/api/schedule.py:115-193 | returns UpdateOutcome; on success replaces only the updated row |
| ScheduleApi.DeleteSchedule | backend/app/api/schedule.py:195-203 | 404 exactly for a missing or deleted schedule; otherwise sets only its is_deleted flag |
| ScheduleApi.CreateNonExclusiveInserts | backend/app/api/schedule.py:38-40 | a live mapping whose type is missing or not exclusive gets the schedule unchecked |
| ScheduleApi.CreateRejectsIffOverlap | backend/app/api/schedule.py:95-108 | with well-formed rules, create fails exactly when some farm peer overlaps, and then with the 400 detail |
| ScheduleApi.CreateAcceptedHasNoOverlap | backend/app/api/schedule.py:97-113 | after an accepted exclusive create, no peer of known duration overlaps the new schedule within the horizon |
| ScheduleApi.SameRuleIsRejected | backend/app/api/schedule.py:95-108 | a second positive-length schedule with a live peer's rule is refused |
| ScheduleApi.AsWrittenFarmScopedCreateFails | backend/app/api/schedule.py:43-55 | as written, every create on a live exclusive farm-scoped mapping ends in a server error |
| ScheduleApi.CorrectedFarmScopedCreateAccepts | backend/app/api/schedule.py:50-64 | corrected, such a create is accepted when the rules are well formed and no peer overlaps |
| ScheduleApi.AsWrittenAgreesElsewhere | backend/app/api/schedule.py:44-48 | outside that case the written and the corrected create agree |
| ScheduleApi.UpdateExcludesItself | backend/app/api/schedule.py:167-171 | an update never compares the schedule with itself |
| ScheduleApi.UpdateChangesOnlySupplied | backend/app/api/schedule.py:189-190 | an update keeps mapping and live flag and takes the rule and duration from the request when supplied |
| ScheduleApi.ScheduleWritesKeepLiveLinks | backend/app/api/schedule.py:109-113 | create, update and delete keep every live schedule on an existing live mapping |
| Pins.Split | backend/app/api/peripheral.py:42 | the pieces contain no separator and join back to the input |
| Pins.SplitJoin | backend/app/api/peripheral.py:42 | splitting the join of separator-free pieces gives the pieces back |
| Pins.StripKeepsTrimmed | backend/app/api/peripheral.py:42 | strip leaves a string without surrounding whitespace as it is |
| Pins.ShowNatRoundTrip | backend/app/api/peripheral.py:42 | int(str(n)) == n |
| Pins.ParseTokensMembers | backend/app/api/peripheral.py:42 | a pin is parsed exactly when some token, once stripped, is a digit string spelling it (membership; order and repeats are ParseTokensAppend's) |
| Pins.ParseTokensAppend | backend/app/api/peripheral.py:42 | the comprehension works piecewise over any split of the tokens, so it keeps their order and their repeats |
| Pins.SplitAppend | backend/app/api/peripheral.py:42 | `split(',')` of two parts joined by a comma is the first part's pieces followed by the second's |
| Pins.ParsePinsAppend | backend/app/api/peripheral.py:42 | for any column, the pins of `c1,c2` are the pins of c1 followed by the pins of c2 |
| Pins.ParsePinsOneToken | backend/app/api/peripheral.py:42 | a comma-free column lists its stripped value when that is all digits, else nothing; with ParsePinsAppend this fixes the list of every column |
| Pins.ParsePinsRoundTrip | backend/app/api/peripheral.py:42 | a column written as the comma-joined pins parses back to those pins, in order |
| Pins.NoPinsListed | backend/app/api/peripheral.py:42 | NULL and the empty column list no pins |
| Pins.WithoutUsed | backend/app/api/peripheral.py:46 | the kept pins are exactly the listed pins that are not used |
| Pins.WithoutUsedNoneUsed | backend/app/api/peripheral.py:46 | with nothing used, every listed pin is kept in order |
| PeripheralApi.AvailablePins | backend/app/api/peripheral.py:36-46 | 404 exactly for a missing or deleted device; otherwise a pin is offered exactly when listed and held by no live mapping of the device, and the list is the parsed column filtered in order (WithoutUsed) |
| PeripheralApi.AvailablePinsKeepOrder | backend/app/api/peripheral.py:42-46 | the offered pins keep the column's order and repeats: for a column `c1,c2`, the free pins of c1 come first, then those of c2 |
| PeripheralApi.NoListedPinsNoneAvailable | backend/app/api/peripheral.py:42 | a device with a NULL or empty pin column offers nothing |
| PeripheralApi.UnusedDeviceOffersAllPins | backend/app/api/peripheral.py:43-46 | a device with no live mapping offers all its listed pins |
| PeripheralApi.ValidateAttach | backend/app/api/peripheral.py:91-119 | runs the checks of both attach routes with early returns and yields exactly AttachOutcome: the first failing check in the endpoints' order, or the mapping to insert |
| PeripheralApi.CheckMappings | backend/app/api/peripheral.py:101-113 | the same-type, pin-in-use and type-scope checks, in order, agree with MappingChecks |
| PeripheralApi.CheckDevice | backend/app/api/peripheral.py:114-119 | the live-device and listed-pin checks agree with DeviceChecks |
| PeripheralApi.Attach | backend/app/api/peripheral.py:89-157 | fails exactly as AttachOutcome's ordered chain says without changing mappings; otherwise appends the new mapping under the next id |
| PeripheralApi.AttachSectionPeripheral | backend/app/api/peripheral.py:89-124 | the section route of Attach |
| PeripheralApi.AttachFarmPeripheral | backend/app/api/peripheral.py:127-157 | the farm route of Attach |
| PeripheralApi.AttachAcceptedMeans | backend/app/api/peripheral.py:98-120 | an accepted mapping has a live target, a live device, a type of the right scope, a listed free pin, no same-type sibling, and exactly one of section_id and farm_id |
| PeripheralApi.AttachKeepsUnique | backend/app/api/peripheral.py:101-108 | attach keeps at most one live mapping per (section, type), (farm, type) and (device, pin) |
| PeripheralApi.AvailablePinPassesPinChecks | backend/app/api/peripheral.py:42-46 | every offered pin passes the attach pin checks |
| PeripheralApi.AttachAcceptsExactlyAvailablePins | backend/app/api/peripheral.py:117-119 | with the other checks passed, attach accepts a pin exactly when the device offers it |
| PeripheralApi.AttachKeepsLiveLinks | backend/app/api/peripheral.py:120-123 | a new mapping leaves every live schedule on a live mapping |
| PeripheralApi.DeletePeripheralMapping | backend/app/api/peripheral.py:160-182 | 404 exactly for a missing or deleted mapping; otherwise marks that mapping and its schedules, nothing else |
| PeripheralApi.DeleteMappingEffect | backend/app/api/peripheral.py:175-179 | the mapping and all its schedules end deleted; other mappings and schedules are untouched |
| SoftDelete.LiveMappingIds | backend/app/api/section.py:177 | the query returns exactly the live mappings satisfying the filter |
| SoftDelete.Cascade | backend/app/api/section.py:177-182 | the nested loops mark the selected mappings and every schedule of them, nothing else |
| SoftDelete.CascadeLeavesNoLiveSchedule | backend/app/api/section.py:180-182 | no schedule of a selected mapping stays live |
| SoftDelete.CascadeTouchesOnlySelected | backend/app/api/section.py:177-182 | only is_deleted flags change, and only on selected mappings and their schedules |
| SoftDelete.CascadeKeepsLiveLinks | backend/app/api/peripheral.py:175-179 | a cascade keeps every live schedule on a live mapping |
| SectionApi.CreateSection | backend/app/api/section.py:61-96 | 404 for a missing or deleted farm, 400 for a code taken in the farm, otherwise appends the new live section |
| SectionApi.CreateKeepsCodesUnique | backend/app/api/section.py:74-81 | an accepted create keeps live section codes unique per farm |
| SectionApi.GetSection | backend/app/api/section.py:98-117 | the section exactly when it is live, else 404 |
| SectionApi.UpdateSection | backend/app/api/section.py:119-156 | returns UpdateOutcome; on success replaces only that section |
| SectionApi.UpdateChangesOnlySupplied | backend/app/api/section.py:146-148 | exactly the supplied fields change; farm and deleted flag stay |
| SectionApi.UpdateKeepsCodesUnique | backend/app/api/section.py:135-144 | an accepted update with a non-empty code keeps codes unique per farm |
| SectionApi.EmptyCodeBypassesCheck | backend/app/api/section.py:136 | an empty code skips the check and can duplicate another section's empty code |
| SectionApi.DeleteSection | backend/app/api/section.py:158-189 | 404 exactly for a missing or deleted section; otherwise marks the section, its live mappings and their schedules |
| SectionApi.DeleteSectionReach | backend/app/api/section.py:176-182 | only the section's own mappings and their schedules are reached, and all of them are |
| FarmApi.CreateFarm | backend/app/api/farm.py:40-80 | the super-admin tenant rule, tenant existence and per-tenant code uniqueness, in that order; otherwise appends the farm |
| FarmApi.CreatePlacesFarmInTenant | backend/app/api/farm.py:45-57 | a tenant admin always creates in their own tenant, a super admin in the requested one, which must exist |
| FarmApi.CreateKeepsCodesUnique | backend/app/api/farm.py:59-66 | an accepted create keeps live farm codes unique per tenant |
| FarmApi.UpdateFarm | backend/app/api/farm.py:97-127 | returns UpdateOutcome; on success replaces only that farm |
| FarmApi.UpdateChangesOnlySupplied | backend/app/api/farm.py:121-123 | exactly the supplied fields change; tenant and deleted flag stay |
| FarmApi.UpdateKeepsCodesUnique | backend/app/api/farm.py:110-119 | an accepted update with a non-empty code keeps codes unique per tenant |
| FarmApi.FarmSectionIds | backend/app/api/farm.py:146 | the query returns exactly the live sections of the farm |
| FarmApi.MarkSectionsDeleted | backend/app/api/farm.py:147-148 | the loop marks exactly the listed sections |
| FarmApi.FarmMappingIds | backend/app/api/farm.py:150-154 | the walked mappings are exactly the live ones of the farm or of its live sections |
| FarmApi.DeleteFarm | backend/app/api/farm.py:129-163 | 404 exactly for a missing or deleted farm; otherwise marks the farm, its live sections, their and the farm's live mappings, and those mappings' schedules |
| FarmApi.DeleteFarmLeavesNoLiveSchedule | backend/app/api/farm.py:155-160 | afterwards no live schedule belongs to a reached mapping |
| FarmApi.DeleteFarmSectionReach | backend/app/api/farm.py:146-148 | every section of the farm ends deleted; other farms' sections are untouched; only flags change |
| DeviceApi.CreateDevice | backend/app/api/device.py:16-28 | 400 when the farm has a live device; otherwise appends the device with status "offline" unless given, never seen |
| DeviceApi.CreateKeepsOneLivePerFarm | backend/app/api/device.py:20-23 | an accepted create keeps at most one live device per farm |
| DeviceApi.Respond | backend/app/schemas/device.py:17 | the reply built from a committed row fails with a server error exactly when its status is NULL (DeviceOut's status is a required string), and otherwise carries the row |
| DeviceApi.UpdateDevice | backend/app/api/device.py:30-41 | 404 only for an id with no row (deleted devices included) and the foreign-key failure write nothing; otherwise the patched row replaces only that device and the reply is Respond of it, so a NULL status answers 500 after the commit |
| DeviceApi.NullStatusUpdateCommitsThenFails | backend/app/api/device.py:37-41 | an update that leaves the status unset on a device whose status is NULL writes its change and answers with a server error |
| DeviceApi.SuppliedStatusUpdateAnswers | backend/app/api/device.py:37-41 | an update that supplies a status is answered with the written row, carrying that status |
| DeviceApi.UpdateChangesOnlySupplied | backend/app/api/device.py:37-38 | farm and uid are always set, optional fields when supplied; last_seen and deleted flag stay |
| DeviceApi.UpdateCanBreakOneLivePerFarm | backend/app/api/device.py:34-38 | update does not re-check the rule: two live devices can end on one farm |
| DeviceApi.DeleteDevice | backend/app/api/device.py:43-53 | 404 exactly for a missing or deleted device, writing nothing; otherwise only its deleted flag is set and kept, and the reply is Respond of the row (500 when its status is NULL) |
| DeviceApi.DeleteKeepsOneLivePerFarm | backend/app/api/device.py:47-50 | delete keeps the rule and frees the farm for a new device |
| Topics.MatchIff | backend/app/mqtt_status_worker.py:31-34 | the matcher returns (farm, device) exactly when the topic begins with farm/farm/device/device/kind, both segments non-empty and slash-free |
| Topics.MatchSound | backend/app/mqtt_status_worker.py:31-34 | a match's segments fit the pattern |
| Topics.MatchComplete | backend/app/mqtt_status_worker.py:31-34 | a topic fitting the pattern is matched with its segments |
| Topics.BuildThenMatch | backend/app/mqtt_status_worker.py:31-34 | a topic built from two segments is matched back to them, whatever follows |
| Topics.AtMostOneKind | backend/app/mqtt_status_worker.py:31-34 | a topic matches at most one of the four patterns |
| Topics.SameSegments | backend/app/mqtt_status_worker.py:31-34 | two matches of one topic agree on the segments |
| Topics.RouteOf | backend/app/mqtt_status_worker.py:42-54 | a topic goes to handle_status exactly when the status pattern matches, and nowhere exactly when no pattern matches |
| Topics.RouteIsTheMatchingKind | backend/app/mqtt_status_worker.py:45-52 | each route is taken exactly when its own pattern matches, so the order of the tests does not matter |
| StatusWorker.Get | backend/app/mqtt_status_worker.py:64-65 | absent exactly when no field has the key; otherwise the value of the last field with it |
| StatusWorker.ReplaceAll | backend/app/mqtt_status_worker.py:67 | the result contains no replaced character when the replacement has none |
| StatusWorker.ReplaceAllAbsent | backend/app/mqtt_status_worker.py:67 | a string without the character is left unchanged |
| StatusWorker.DecodeDefaults | backend/app/mqtt_status_worker.py:64-69 | no status field gives "online"; an absent, null or empty timestamp gives now |
| StatusWorker.DecodeDropsNonObjects | backend/app/mqtt_status_worker.py:62-72 | malformed JSON and non-object payloads are dropped |
| StatusWorker.DecodeStringFields | backend/app/mqtt_status_worker.py:63-67 | a string status is stored as sent, and a string timestamp is parsed after the Z rewrite or drops the message |
| StatusWorker.DecodeZuluTimestamp | backend/app/mqtt_status_worker.py:66-67 | a timestamp ending in Z is parsed as the same date with +00:00 |
| StatusWorker.DecodeDropsBadTimestamp | backend/app/mqtt_status_worker.py:67-72 | an unparseable timestamp drops the message |
| StatusWorker.FirstLiveWithUid | backend/app/mqtt_status_worker.py:75 | the lowest-id live device with the uid; none exactly when no live device has it |
| StatusWorker.HandleStatus | backend/app/mqtt_status_worker.py:56-87 | a non-matching topic changes nothing; otherwise the table becomes OnMessageOutcome |
| StatusWorker.OnMessage | backend/app/mqtt_status_worker.py:42-54 | the device table after a message is OnMessageOutcome |
| StatusWorker.ReportTouchesOneDevice | backend/app/mqtt_status_worker.py:75-79 | a report changes only status and last_seen, and only of the first live device with the uid |
| StatusWorker.MessageTouchesOneDevice | backend/app/mqtt_status_worker.py:56-87 | a message changes at most one device's status and last_seen, and only for a status topic with a decodable payload |
| StatusWorker.FarmSegmentIgnored | backend/app/mqtt_status_worker.py:61-75 | the farm segment of the topic does not affect the update |
| StatusWorker.StatusTopicRoute | backend/app/mqtt_status_worker.py:45-46 | farm/f/device/d/status goes to handle_status with f and d |
| StatusWorker.SweepOffline | backend/app/mqtt_status_worker.py:113-121 | the sweep loop leaves the table as Swept specifies |
| StatusWorker.SweepChangesExactlyOverdue | backend/app/mqtt_status_worker.py:113-121 | a device changes exactly when live, seen, silent beyond the threshold and not offline, and then only its status |
| StatusWorker.SweepLeavesNoStaleOnline | backend/app/mqtt_status_worker.py:113-121 | after a sweep every live device silent beyond the threshold is offline |
| StatusWorker.SweepBoundary | backend/app/mqtt_status_worker.py:117-118 | silent for exactly the threshold stays; one second more is demoted |
| StatusWorker.SweepIdempotent | backend/app/mqtt_status_worker.py:113-121 | a second sweep at the same instant changes nothing |
| StatusWorker.AsWrittenSweepNeverDemotes | backend/app/mqtt_status_worker.py:112 | under the shipped settings an overdue device keeps its status, while the intended sweep marks it offline |
| StatusWorker.FreshReportSurvivesSweep | backend/app/mqtt_status_worker.py:69-78 | a device that just reported without a timestamp is not demoted by a sweep at the same instant |
| StatusWorker.WorkerKeepsFarmsAndLiveness | backend/app/mqtt_status_worker.py:77-78 | neither a report nor the sweep changes a device's farm or deleted flag |

## Left out

- Role and tenant permission checks (`check_tenant_access`, the 403
  branches, `require_admin`) are not modelled. Every request is taken to
  come from a permitted user. The one exception is the tenant choice of
  `create_farm`.
- List endpoints, `get_farm` and the `farm_name` / `tenant_name`
  decorations are not modelled.
- Debug printing and logging are not modelled.
- The MQTT client, subscriptions, threads and the one-minute sleep are not
  modelled. A delivered message is a call of `OnMessage`; one sweep pass is
  a call of `SweepOffline`.
- Concurrency is not modelled. That includes the check-then-insert race of
  create/update schedule and the worker and API writing the same device row.
- `settings.offline_threshold_minutes`, `MQTT_BROKER` and `MQTT_PORT` are
  missing from `backend/app/core/config.py`.
  - As written, `MQTT_BROKER` is read when the worker module is imported
    (backend/app/mqtt_status_worker.py:15), so the module does not load at
    all. Import failure is not modelled.
  - Every sweep pass raises on the threshold (:112) and the handler at :122
    swallows it, so nothing is ever demoted. That pass is
    `StatusWorker.SweptAsWritten`, and it is listed under "## Findings". The
    rest of the model takes the threshold as a parameter.
- The logs, events and commands handlers do nothing and are routed only.
- Payload bytes are not modelled. The payload arrives already decoded as
  text, and a UTF-8 decode error is not modelled.
- `StatusWorker.DecodeStatus`: a status value that is neither a string nor
  null is dropped. The driver's coercion of numbers and booleans into the
  column is not modelled.
- JSON numbers are integers in the model.
- Time zone arithmetic inside `fromisoformat` is not modelled. The parser
  is a parameter that returns an instant on the model's single clock.
- Schedule instants are whole minutes and device instants are whole
  seconds.
- The two `datetime.now()` calls of one schedule request are the same
  instant.
- Pins.ParseTokensMembers: states membership only. Order and repeats are
  stated by `Pins.ParseTokensAppend`, `Pins.ParsePinsAppend` and
  `Pins.ParsePinsOneToken`.
- `Pins.IsDigit`: only ASCII digits are read as digits. Python's
  `isdigit` also accepts other Unicode digits; for some of them `int` then
  raises.
- Requests that fail schema validation are not modelled. Neither are
  `gpio_pin` values that are not integers.
- Float columns (`area`, `total_area`) and the created/updated timestamps
  are not modelled.
- Foreign keys are modelled only for `devices.farm_id`. Create or update
  with an unknown farm id ends in a server error.
- A NULL `is_deleted` / `deleted` is not modelled.
- Column widths are not modelled. The model stores strings of any length.
  Under MySQL's strict mode an over-long value fails at commit, so the
  source answers with a server error where the model succeeds. This
  affects `SectionApi.CreateSection` / `UpdateSection` (`section_code` is
  String(50)), `FarmApi.CreateFarm` / `UpdateFarm` (`farm_code` String(50))
  and `DeviceApi.CreateDevice` / `UpdateDevice` (`device_uid` String(100),
  `status` String(50)). It also affects `ScheduleApi.CreateSchedule` /
  `UpdateSchedule` (`cron_expression` String(100)) and
  `StatusWorker.HandleStatus`. For the worker, a reported status longer
  than 50 characters is rolled back and the message is lost, while the
  model stores it.
- The 32-bit range of INT columns is not modelled. This covers
  `duration_minutes` (backend/app/models/schedule.py:10) and `gpio_pin`
  (backend/app/models/peripheral.py:19). Dafny's integers are unbounded.
  So a listed pin such as 99999999999 passes every check of
  `PeripheralApi.Attach` in the model, and the insert succeeds. In the
  source it fails at insert.
- String comparison is exact. The database compares strings under MySQL's
  default case-insensitive collation. This affects the code checks of
  `SectionApi.CreateSection` / `UpdateSection` and `FarmApi.CreateFarm` /
  `UpdateFarm`, and the uid lookup of `StatusWorker.FirstLiveWithUid`. In
  the source "A1" and "a1" collide as codes, and a topic uid "ABC" updates
  the device "abc". In the model they are different strings.
- An explicit JSON `null` in a create or update request is treated as a
  field left unset. For a device create that is also what the source does:
  the ORM insert leaves the None out and the column default "offline"
  applies (backend/app/models/device.py:10).
- DeviceApi.UpdateDevice: an update carrying `"status": null` writes NULL
  through `setattr` (backend/app/api/device.py:37-38) and commits. The reply
  then fails `DeviceOut` validation with a server error. The model reads that
  null as unset, keeps the stored status, and answers with the row. When the
  stored status is already NULL, the model also answers with the
  `DeviceApi.Respond` server error.
- ScheduleApi.UpdateSchedule: `ScheduleUpdate` gives both fields an
  optional type but no default (backend/app/schemas/schedule.py:11-13).
  Under pydantic v2 both keys must be present, so the model's unset field
  can only be an explicit `null`. The source writes that null into a
  NOT NULL column (backend/app/models/schedule.py:9-10), fails at commit
  and answers with a server error. The model keeps the stored value and
  succeeds. The "when supplied" of `ScheduleApi.UpdateChangesOnlySupplied`
  is read in the same way.
- A positive schedule duration is not enforced, because the source does not
  enforce it. `Occurrences.EmptyDurationNeverOverlaps` shows what such a
  schedule does.
- A cron rule that croniter rejects ends the request with a server error
  (`ScheduleApi.VerdictFailure`). Its text is not modelled.
- `PeripheralApi.AttachSectionPeripheral` / `PeripheralApi.AttachFarmPeripheral`:
  as written, neither route checks that the device belongs to the target's
  farm. The section route checks only that the device is live
  (backend/app/api/peripheral.py:114-116), and so does the farm route
  (:147-149). The model keeps that.
- `SectionApi.UpdateKeepsCodesUnique` and `FarmApi.UpdateKeepsCodesUnique`
  assume the update does not set the code to the empty string. The source
  skips the uniqueness check for an empty code.
  `SectionApi.EmptyCodeBypassesCheck` shows the consequence.
- `DeviceApi.UpdateDevice` does not re-check one live device per farm,
  because the source does not. `DeviceApi.UpdateCanBreakOneLivePerFarm`
  shows the consequence.
- Unordered SQL results are read in ascending id order. This matters in two
  places. The first is which device `first()` picks when several live devices
  share a uid (`StatusWorker.FirstLiveWithUid`). The second is the order of
  the conflict scan. `Conflict.CollectPeers` lists the peers by mapping and
  then by schedule id, and `Conflict.Scan` / `Conflict.ScanPeers` stop at the
  first peer that decides. So when one peer's rule makes croniter raise and
  another peer overlaps, the database's row order decides between the 500
  and the 400 (backend/app/api/schedule.py:97-108). The model fixes one
  order. It does not show that every order gives the same verdict, and not
  every order does.

## Findings

| source | as written | input that shows it | evidently intended | confidence | as-written member | corrected member |
|---|---|---|---|---|---|---|
| backend/app/api/schedule.py:44-55 | `Section` is bound only by the import inside the branch for section-scoped mappings. For a mapping with a `farm_id`, the query of the farm's sections at :55 reads an unbound local, so the request fails with a server error. | A create on a live mapping of an exclusive type whose `farm_id` is set, with any rule and duration. | Farm-scoped exclusive mappings are checked like section-scoped ones, as `update_schedule` does with its second import at :137. | not executed | ScheduleApi.AsWrittenFarmScopedCreateFails | ScheduleApi.CorrectedFarmScopedCreateAccepts |
| backend/app/mqtt_status_worker.py:112 | Each sweep pass reads `settings.offline_threshold_minutes`, which `backend/app/core/config.py` does not declare. The read raises, the handler at :122 swallows the error, and no device is ever marked offline. | Any live, online device whose last report is older than the intended threshold. | The settings declare the threshold and the pass demotes every overdue device, as `Swept` does. | not executed | StatusWorker.AsWrittenSweepNeverDemotes | StatusWorker.SweepLeavesNoStaleOnline |

`ScheduleApi.CreateOutcomeAsWritten` is the create as written.
`ScheduleApi.CreateOutcome` is the corrected create, and
`ScheduleApi.CreateSchedule` follows it.
