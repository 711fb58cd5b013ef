# kitchen-delivery: the shelf and order lifecycle in Dafny

kitchen-delivery is a Go service. It accepts kitchen orders, places each one
on the shelf that matches its temperature (hot, cold or frozen), or on the
overflow shelf when that shelf is full. A background sweep marks orders as
wasted once their time to live (TTL) has run out. This project models the
core of that service and proves properties of the model:

- **Entities.** An order has a temperature whitelist, a shelf for each
  temperature and a TTL of `floor(shelfLife / (1 + decayRate))`. A shelf
  order has whitelists for its shelf type and status, and a validator that
  collects every complaint. An order-history entry has its own status set
  (modules `Entity` and `OrderHistory`).
- **Mappers.** These convert between entities and database rows. Only the
  row-to-entity directions (and the request-to-order mapping) validate; the
  entity-to-row directions copy fields without checks. The shelf-order and
  order-log mappers replace a null UUID with a freshly generated one; the
  order mapper keeps it and prints it as the all-zero key. Round trips are
  proved (modules `OrderMapper`, `OrderLogMapper` and `ShelfOrderMapper`).
- **Repositories.** Each is a class that owns an in-memory table: a map from
  the row's UUID string to the row.
  - `OrderStore.OrderRepository`: create ignores a duplicate key; lookup
    reports NotFound or DataCorrupted.
  - `ShelfOrderStore.ShelfOrderRepository`: insert ignores a duplicate key;
    a count returns the number of `ready_for_pickup` rows on a shelf; the
    status update is a compare-and-swap on `version`.
- **Placement rule** (`Placement.OrderService.PlaceOrderOnShelf`). Count
  the ready orders on the order's own shelf. If that shelf is at its limit,
  count the overflow shelf. If both are at their limits, report a full
  shelf. Otherwise insert a `ready_for_pickup` shelf order with version 0
  and expiry `now + TTL`. A ghost trace records the store calls in order.
- **Jobs** (`Jobs.OrderJob`). One tick of the expiry sweep, which marks
  every expired shelf order as wasted. A version conflict counts as success
  and every other error is logged. Also one worker step: fetch an order,
  then place it once.
- **String builders.** `Endpoint` turns form data into the JSON text that
  is handed to the JSON decoder. `Utils` pretty-prints the shelves.

Ordinary data becomes datatypes and functions. The repositories and the
services are classes, and their methods update the tables in place.
Each method's `ensures` ties its new state and its result to a
specification function of the old state: `AfterPlacement`, `Updated`,
`Swept`, `RequestJson` or `ShelfLines`. The lemmas prove what the system
promises about those functions.

Things the model takes as inputs:

- **Database errors.** Each store call takes a `fault: Option<Error>`: the
  driver error that call would meet, or `None` when it succeeds.
- **Clock and UUID generator.** The current time `now` (whole seconds) and
  the UUID a generator call returns (`newUuid`) are parameters.
- **Sweep input.** The list of expired shelf orders is an input to the
  sweep, because the query that produces it is not part of this model.

Errors follow github.com/pkg/errors: a wrapped error keeps its cause, the
sentinel from entity/exception/exception.go.

UUIDs are modelled concretely as sixteen bytes. They print in the canonical
lower-case 8-4-4-4-12 form, and parsing accepts that form. The proved round
trip `FromString(ToString(u)) == Some(u)` stands in for the UUID library's
parser.

Where the code and its tests or its callers disagree, the model follows
the code:

- `mapper/order.go` does not copy `DecayRate` in either direction, although
  `mapper/order_test.go:129` and `mapper/order_test.go:164` expect the
  value to survive. The model follows the code. `OrderStore.FetchedOrderIgnoresDecay` proves the consequence:
  every order the worker fetches has decay rate 0, so its TTL equals its
  shelf life.
- `mapper/order.go:14-19` does not copy the request's UUID, which
  `entity/endpoint/order.go:6` documents as an idempotency key and which
  `mapper/order_test.go:21-22` and `mapper/order_test.go:34-44` expect on
  the mapped order. The model follows the code: the mapped order carries
  the null UUID (`OrderMapper.CreateOrderRequestToOrder`).
- `mapper/order.go:30-32` prints the order's UUID as it is, so a null UUID
  becomes the all-zero key, whereas `mapper/order_test.go:112-114` expects a
  new UUID to be created for such an order (its assertion at
  `mapper/order_test.go:137-140` compares a string with a UUID value and
  cannot fail). The model follows the code. Together with the null UUID of
  the request mapping, every order created over HTTP is stored under the
  all-zero key: the first is kept and each later one is a silent duplicate
  success (`OrderStore.RequestOrdersShareNullKey`).
- `service/repository/order.go:36` expects two results from
  `mapper.OrderToRecord`, but `mapper/order.go:30` returns one. The
  InvalidInput branch at `service/repository/order.go:37-40` therefore has
  no counterpart, and `CreateOrder` never validates. Storing an order with a
  bad temperature succeeds, and reading it back reports DataCorrupted
  (`OrderStore.InvalidOrderStoredThenCorrupted`).
- `CreateOrderRequest` in `entity/endpoint/order.go` has string fields, but
  `mapper/order.go:17-18` copies them as numbers. The model's request
  carries an integer shelf life and a real decay rate, as the mapper reads
  them.
- In `entity/order_history.go:28`, `OrderStatusColdShelf` has the same text
  as the hot-shelf constant. `"cold_shelf"` is therefore not a valid history
  status, and the seven constants form a six-element set
  (`OrderHistory.StatusSet`).
- `service/order.go` defines only `Create` (lines 11-35), on the orders
  repository. `PlaceOrderOnShelf`, `GetOrder`, `GetExpiredOrdersOnShelf`,
  `MarkOrderAsWasted` and `GetAllOrdersOnShelves`, which `job/order.go`
  calls, are not defined there. Placement is modelled from
  `service/order_test.go`, which fixes the capacity map, the order of the
  store calls, the inserted shelf order and the error causes.

## Model

| member | source | states |
|---|---|---|
| Records.InsertIgnoringDuplicate | service/repository/shelf_order.go:42-58 | a duplicate key leaves the table unchanged; a new key adds exactly that row and keeps every other row |
| Uuid.RoundTrip | mapper/shelf_order.go:14-35 | parsing the printed form of any UUID gives that UUID back |
| Uuid.ToStringInjective | mapper/shelf_order.go:14-15 | distinct UUIDs print as distinct strings, so rows keyed by printed UUIDs do not collide |
| Uuid.NilToString | mapper/shelf_order.go:25-26 | the null UUID prints as 32 zeros in the 8-4-4-4-12 layout |
| Uuid.NonNilString | mapper/shelf_order.go:25-27 | a UUID prints as the null UUID exactly when it is the null UUID |
| Entity.ValidateOrder | entity/order.go:39-54 | an order is accepted exactly when its temperature is hot, cold or frozen; otherwise the error is caused by ErrInvalidInput |
| Entity.OrderString | entity/order.go:57-60 | the text is "Name: ", the name, ", Temp: ", the temperature; each part sits at a stated position |
| Entity.GetShelfType | entity/order.go:63-74 | hot, cold and frozen map to the shelf of the same name; the result is overflow exactly for every other temperature; it is always a valid shelf type |
| Entity.ValidOrderNeverOverflows | entity/order.go:46-74 | an order that passes Validate never maps to the overflow shelf; its shelf is named like its temperature |
| Entity.TtlIsFloor | entity/order.go:84-85 | the TTL is the largest whole number not above shelfLife / (1 + decayRate) |
| Entity.GetTTL | entity/order.go:77-87 | with decay rate 0 the TTL equals the shelf life |
| Entity.TtlBounds | entity/order.go:84-85 | with non-negative decay rate and shelf life, 0 <= TTL <= shelf life |
| Entity.TtlExample | entity/order.go:77-86 | shelf life 300 at decay 0.45 gives a TTL of 206 seconds |
| Entity.ShelfOrderError | entity/shelf_order.go:26-48 | no error exactly when the shelf type and the status are both in their sets; otherwise the shelf-type message, then ", ", then the status message, each present only when its check fails |
| Entity.ValidateShelfOrder | entity/shelf_order.go:26-48 | the step-by-step accumulation of messages returns exactly ShelfOrderError |
| Entity.ShelfOrderString | entity/shelf_order.go:52-55 | the text is "ShelfType: ", the type, ", OrderStatus: ", the status; each part sits at a stated position |
| Entity.EnumerationSizes | entity/shelf_order.go:58-100 | the temperature set, the shelf-type set {hot, cold, frozen, overflow} and the status set {ready_for_pickup, picked_up, wasted} have 3, 4 and 3 distinct members |
| OrderHistory.ValidateOrderLog | entity/order_history.go:54-62 | an entry is accepted exactly when its status is in the status set; otherwise the error is caused by ErrInvalidInput |
| OrderHistory.StatusSet | entity/order_history.go:24-51 | the cold-shelf constant equals "hot_shelf"; the set has 6 members; "cold_shelf" is rejected and "dropped" is accepted |
| OrderMapper.CreateOrderRequestToOrder | mapper/order.go:13-27 | succeeds exactly for a valid temperature, copying name, temperature, shelf life and decay rate, with a null UUID; otherwise fails with ErrInvalidInput |
| OrderMapper.OrderToRecord | mapper/order.go:30-40 | copies UUID (printed), name, temperature, shelf life and creation time; the row's decay rate is left at 0 |
| OrderMapper.RecordToOrder | mapper/order.go:43-63 | succeeds exactly when the UUID parses and the temperature is valid; a bad temperature is ErrInvalidInput; the order carries the parsed UUID, the row's fields and decay rate 0 |
| OrderMapper.RoundTrip | mapper/order.go:30-62 | a valid order comes back from its row equal on every field except the decay rate, which comes back as 0 |
| OrderMapper.RoundTripExactIffNoDecay | mapper/order.go:30-62 | the round trip is the identity exactly when the decay rate is 0 |
| OrderLogMapper.OrderLogToRecord | mapper/order_log.go:12-34 | copies the fields and prints the UUIDs; a null UUID is replaced by the generated one, and a generator failure is returned |
| OrderLogMapper.RecordToOrderLog | mapper/order_log.go:37-62 | succeeds exactly when both UUID strings parse and the status is valid; on success every field is copied |
| OrderLogMapper.RoundTrip | mapper/order_log.go:12-61 | an entry with its own UUID and a valid status comes back unchanged |
| OrderLogMapper.NullUuidReplaced | mapper/order_log.go:21-31 | an entry with a null UUID comes back carrying the generated UUID |
| ShelfOrderMapper.ShelfOrderToRecord | mapper/shelf_order.go:12-31 | copies all eight columns; the row UUID is the entity's own, or the generated one when the entity's is null |
| ShelfOrderMapper.RecordToShelfOrder | mapper/shelf_order.go:34-62 | succeeds exactly when both UUID strings parse and the shelf type and status are valid; on success every column is copied |
| ShelfOrderMapper.RoundTrip | mapper/shelf_order.go:12-61 | a shelf order with its own UUID and valid fields comes back unchanged, except the joined order |
| ShelfOrderMapper.NullUuidReplaced | mapper/shelf_order.go:24-28 | a null UUID is never written; the row parses back to the generated UUID |
| OrderStore.Lookup | service/repository/order.go:67-87 | a store error is ErrDatabase; an absent UUID is ErrNotFound; a row the mapper rejects is ErrDataCorrupted; otherwise exactly the mapped order |
| OrderStore.CreateThenGet | service/repository/order.go:34-87 | an order created under a new UUID reads back with every field except the decay rate |
| OrderStore.InvalidOrderStoredThenCorrupted | service/repository/order.go:36-84 | the repository stores an order with a bad temperature, and reading it back reports ErrDataCorrupted |
| OrderStore.RequestOrdersShareNullKey | mapper/order.go:13-40 | orders mapped from two valid requests share the all-zero key; the second insert leaves the table unchanged and GetOrder on the null UUID returns the first order |
| OrderStore.FetchedOrderIgnoresDecay | mapper/order.go:49-55 | every order GetOrder hands out has decay rate 0, so its TTL equals its shelf life |
| OrderStore.OrderRepository.constructor | service/repository/order.go:27-31 | the repository starts on the given table |
| OrderStore.OrderRepository.CreateOrder | service/repository/order.go:34-64 | a store error is wrapped with ErrDatabase and changes nothing; otherwise the mapped row is inserted, and an existing UUID is a silent success |
| OrderStore.OrderRepository.GetOrder | service/repository/order.go:67-87 | returns exactly Lookup of the table |
| ShelfOrderStore.CountError | service/repository/shelf_order.go:74-76 | a failed count is reported with ErrDatabase as its cause |
| ShelfOrderStore.Updated | service/repository/shelf_order.go:84-100 | with a row at the snapshot's UUID and version, that row gets the new status and version + 1; otherwise the table is unchanged; other rows are never touched |
| ShelfOrderStore.ReadyCount | service/repository/shelf_order.go:62-79 | the count is positive exactly when some row on that shelf is ready_for_pickup |
| ShelfOrderStore.ReadyCountBound | service/repository/shelf_order.go:62-79 | a shelf's ready count never exceeds the number of rows in the table |
| ShelfOrderStore.NullSnapshotNeverMatches | service/repository/shelf_order.go:81-119 | in a well-keyed table a snapshot with the null UUID matches no row, so its update always reports ErrVersionInvalid |
| ShelfOrderStore.ReadyCountAfterInsert | service/repository/shelf_order.go:65-71 | inserting a new row adds one to its shelf's ready count if it is ready for pickup, and 0 elsewhere |
| ShelfOrderStore.ReadyCountAfterRelease | service/repository/shelf_order.go:67-100 | a successful update out of ready_for_pickup frees exactly one slot on the row's shelf |
| ShelfOrderStore.SameSnapshotTwice | service/repository/shelf_order.go:84-114 | two updates from one snapshot: the first sets the status and bumps the version once; the second matches no row and changes nothing |
| ShelfOrderStore.ShelfOrderRepository.constructor | service/repository/shelf_order.go:30-35 | the repository starts on the given well-keyed table |
| ShelfOrderStore.ShelfOrderRepository.AddOrderToShelf | service/repository/shelf_order.go:37-60 | a store error is returned as it is and changes nothing; otherwise the mapped row is inserted and a duplicate UUID is a silent success; no two rows share a key and no row is keyed by the null UUID |
| ShelfOrderStore.ShelfOrderRepository.CountOrdersOnShelf | service/repository/shelf_order.go:62-79 | the number of rows on that shelf with status ready_for_pickup; on a store error, 0 and an ErrDatabase-caused error |
| ShelfOrderStore.ShelfOrderRepository.UpdateOrderStatus | service/repository/shelf_order.go:81-119 | the table becomes Updated; success exactly when a row has the snapshot's UUID and version, otherwise ErrVersionInvalid; a store error changes nothing and is returned |
| Placement.ShelfSpace | service/order_test.go:33-38 | the capacity map has exactly the four shelf types as keys, each with its configured value |
| Placement.Decide | service/order_test.go:105-168 | a chosen shelf is the order's own shelf or overflow, and it has room: its ready count is below its capacity; with no faults, the own shelf at its limit and overflow below its limit, the order goes to overflow; a failed count carries the CountError of the corresponding count's fault, or of the overflow count's fault once the own shelf is at its limit |
| Placement.NewShelfOrder | service/order_test.go:97-103 | the new shelf order has a null UUID, the order's UUID, the chosen shelf, ready_for_pickup, version 0 and expiry now + TTL |
| Placement.PlacedRecordFields | service/order_test.go:97-107 | the inserted row is keyed by the generated UUID and carries exactly those fields |
| Placement.PlacementError | service/order_test.go:110-171 | no error exactly when a shelf was chosen and the insert succeeded; a failed count gives an ErrDatabase cause; two full shelves give ErrFullShelf |
| Placement.CorrespondingShelfFirst | service/order_test.go:105-111 | a valid order whose own shelf has room goes on that shelf, never on overflow, whatever the overflow count would have met |
| Placement.FullShelfIffBothAtLimit | service/order_test.go:162-171 | ErrFullShelf exactly when both counts succeed and both shelves are at or over their limits |
| Placement.PlacementAddsOneRow | service/order_test.go:97-111 | a successful placement adds exactly one row with the expected fields, keeps every old row, and raises the chosen shelf's count by one |
| Placement.InsertKeepsCapacity | service/order_test.go:162-168 | inserting a ready row onto a shelf with room keeps every shelf within its limit |
| Placement.PlacementRespectsCapacity | service/order_test.go:105-171 | run one at a time, placement never takes a shelf over its limit |
| Placement.PlacedKeepsCapacity | service/order_test.go:105-111 | the inserting case of PlacementRespectsCapacity |
| Placement.ExampleExpiresInFuture | service/order_test.go:83-103 | the test's order expires 206 seconds after placement, in the future |
| Placement.AfterPlacementKeepsRows | service/order_test.go:97-171 | placement never changes or removes a row; the only row it can add is keyed by the generated UUID |
| Placement.AfterPlacementUnchanged | service/order_test.go:135-171 | a failed count, a full shelf or a failed insert leaves the table unchanged |
| Placement.AfterPlacementInserted | service/order_test.go:105-111 | with a chosen shelf and a working insert, the mapped new shelf order is inserted |
| Placement.TraceCases | service/order_test.go:105-108 | the calls are the counts, followed by one insert exactly when a shelf was chosen |
| Placement.TraceOrder | service/order_test.go:105-168 | 1 to 3 calls; the order's own shelf is counted first; overflow is counted second exactly when the first count succeeded at the limit; the last call is the insert of the new shelf order exactly when a shelf was chosen |
| Placement.OrderService.constructor | service/order_test.go:29-41 | the service's capacity map is ShelfSpace of the configuration |
| Placement.OrderService.CreateOrder | service/order_test.go:57-68 | the order reaches the orders repository unchanged, and the repository's outcome is returned |
| Placement.OrderService.ChooseShelf | service/order_test.go:105-168 | the counting calls return exactly Decide, and the calls made are exactly CountCalls |
| Placement.OrderService.PlaceOrderOnShelf | service/order_test.go:71-171 | the table becomes AfterPlacement, the error is PlacementError, and the calls made are exactly Trace |
| Jobs.Classify | job/order.go:137-154 | no error exactly when there was none or its cause is ErrVersionInvalid; any other error, ErrDatabase included, is returned unchanged |
| Jobs.Swept | job/order.go:115-135 | the sweep neither adds nor removes a row: the table keeps the same keys |
| Jobs.SweptOnlyWastes | job/order.go:126-145 | every row the sweep changes is marked wasted at a higher version, its other columns unchanged |
| Jobs.Failures | job/order.go:126-133 | every logged failure is an expired order, every order whose update failed is logged, and with no failing update the list is empty |
| Jobs.FailingIndices | job/order.go:126-133 | positions of failed updates, strictly increasing |
| Jobs.FailingIndicesComplete | job/order.go:126-133 | every failing position is listed, so FailingIndices is exactly the positions of the failed updates and an order failing twice is logged twice |
| Jobs.FailuresInOrder | job/order.go:126-133 | the logged failures are the expired orders at those positions, in list order |
| Jobs.FailuresAreFailed | job/order.go:126-133 | every logged failure is an expired order whose own update failed |
| Jobs.SweepStep | job/order.go:126-133 | one more iteration marks the next order wasted, or leaves the table alone on a store error, and logs it only if it failed |
| Jobs.SweepOfStaleIsIdentity | job/order.go:140-145 | a sweep in which every update meets a version conflict changes nothing |
| Jobs.SweepLeavesAllStale | job/order.go:126-133 | after a sweep without store errors over distinct rows, none of them is still at its snapshot version |
| Jobs.StaleAfterLast | job/order.go:126-133 | marking one more row does not bring any row of the list back to its snapshot version |
| Jobs.SecondTickNoOp | job/order.go:126-145 | a second tick over the same snapshot changes nothing, and without store errors it reports no failure |
| Jobs.Outcome | job/order.go:96-107 | success means placed; ErrFullShelf means dropped; every other error is a logged failure; none is retried |
| Jobs.OrderJob.constructor | job/order.go:30-36 | the job works on the given order service |
| Jobs.OrderJob.RemoveExpiredOrder | job/order.go:137-158 | the result is Classify of the store error; without one the row is updated to wasted under the version guard |
| Jobs.OrderJob.RemoveExpiredOrdersTick | job/order.go:121-133 | a failed read changes nothing; otherwise the table becomes Swept over the whole list and the logged failures are Failures |
| Jobs.OrderJob.RemoveEach | job/order.go:126-133 | every expired order is attempted in list order, past individual failures |
| Jobs.OrderJob.PlaceOrderOnShelf | job/order.go:89-107 | a failed fetch stops before placement; otherwise the fetched order, with decay rate 0, is placed once and the outcome is Outcome of the placement error |
| Endpoint.MissingFields | entity/endpoint/endpoint.go:71-82 | a field is reported exactly when it is required and is absent or has no value |
| Endpoint.MissingIndices | entity/endpoint/endpoint.go:74-78 | positions of missing fields, strictly increasing |
| Endpoint.MissingIndicesComplete | entity/endpoint/endpoint.go:74-78 | every missing position is listed, so MissingIndices is exactly the positions of the missing fields and a field required twice is reported twice |
| Endpoint.MissingFieldsInOrder | entity/endpoint/endpoint.go:71-82 | the missing fields are the required fields at those positions, in required order |
| Endpoint.GetMissingFields | entity/endpoint/endpoint.go:71-82 | the loop returns exactly MissingFields |
| Endpoint.ParsePairRoundTrip | entity/endpoint/endpoint.go:42 | a pair reads back as its field and value, for any field without a double quote, so pairs carry their data |
| Endpoint.Pair | entity/endpoint/endpoint.go:42 | the pair is the field and the value plus six characters of quoting and separator, opening and closing with a double quote |
| Endpoint.Pairs | entity/endpoint/endpoint.go:40-44 | one pair per field, in order, each with the field's first value |
| Endpoint.PairsAppend | entity/endpoint/endpoint.go:40-44 | one more field appends exactly its pair |
| Endpoint.PresentFieldsMembers | entity/endpoint/endpoint.go:47-52 | the optional fields kept are exactly those present in the form |
| Endpoint.OptionalPairsArePresentPairs | entity/endpoint/endpoint.go:47-55 | the optional pairs are the pairs of the present optional fields, in order |
| Endpoint.RequestJson | entity/endpoint/endpoint.go:29-58 | failure, with ErrInvalidInput, exactly when some required field is missing |
| Endpoint.PairsConcat | entity/endpoint/endpoint.go:39-55 | the pairs of two field lists are the pairs of the first followed by the pairs of the second |
| Endpoint.RequestJsonText | entity/endpoint/endpoint.go:38-58 | on success the text is "{", the pairs of the required fields followed by those of the present optional fields joined by ", ", then "}" |
| Endpoint.ExtractRequest | entity/endpoint/endpoint.go:29-58 | returns exactly RequestJson |
| Endpoint.RequiredPairs | entity/endpoint/endpoint.go:40-44 | the first loop builds exactly Pairs of the required fields |
| Endpoint.AppendOptionalPairs | entity/endpoint/endpoint.go:47-55 | the second loop appends exactly the pairs of the present optional fields |
| Utils.OrderNames | lib/utils.go:15-18 | one name per shelf order, in list order |
| Utils.ShelfLine | lib/utils.go:20-21 | the line starts with the shelf type followed by ": " |
| Utils.ShelfLines | lib/utils.go:14-24 | one line per shelf, in order |
| Utils.StringifyShelves | lib/utils.go:11-27 | the nested loops return the shelf lines joined by a blank line |
| Utils.EmptyShelfLine | lib/utils.go:20-21 | an empty shelf renders as its type followed by ": " |
| Utils.StringifyOneMore | lib/utils.go:23-26 | one more shelf appends a blank line and its line; the earlier text is unchanged |
| Utils.ShelfLineOneMore | lib/utils.go:16-21 | one more order appends ", " and its name to the shelf's line |

## Left out

- HTTP handlers, the simulation, goroutines, the polling loops, sleeps, Redis queues and logging are I/O or concurrency. The jobs are modelled one iteration at a time, and concurrent callers become successive calls.
- GORM and MySQL transactions, duplicate-key detection and row counting are modelled by their outcomes on an in-memory table. Driver errors are inputs, and the duplicate key is decided by the table.
- GORM fills `CreatedAt` and `UpdatedAt` on insert and update. This is not modelled: the columns keep the values they are given.
- IEEE float64 rounding in `GetTTL` is not modelled: the decay rate is a real number.
- Entity.GetTTL: a decay rate of exactly -1 is excluded by a precondition. Go divides by zero without failing there, which real division cannot express.
- Uuid.RoundTrip: UUID parsing covers only the canonical 36-character layout. The library's other accepted forms (braces, the urn prefix, hex without hyphens) are not modelled, and parser error messages are not reproduced letter for letter.
- UUID generation is a parameter, assumed never to return the null UUID. `mapper/shelf_order.go:27` calls `NewV4` with one result and `mapper/order_log.go:25` with two. The model follows each: the first cannot fail, the second takes the generator's possible error as an input.
- Error and log messages built with `%+v` or `%T` from whole structs (for example `service/repository/order.go:83`) are not reproduced exactly. The model keeps the cause and the inner error's message.
- `json.Unmarshal` in `ExtractRequest` is not modelled. The model returns the JSON text that would be handed to it.
- Endpoint.ExtractRequest, Endpoint.RequestJson: once every required field is present, they require that every optional field present in the form has at least one value. The Go code reads the first value without checking, so an empty list panics there; with a required field missing it returns the error before reading any optional field, and the model does the same.
- Utils.StringifyShelves: Go iterates the shelves map in no fixed order. The model takes the shelves as a sequence in rendering order.
- `service/order.go` does not define the order service's `GetOrder`, `GetExpiredOrdersOnShelf`, `MarkOrderAsWasted` or `GetAllOrdersOnShelves`, which `job/order.go` calls:
  - `GetOrder` is modelled as the repository's lookup;
  - `MarkOrderAsWasted` as `UpdateOrderStatus` with status wasted;
  - the expired list is an input to the sweep;
  - the best-effort shelf printing after a placement (`job/order.go:109-112`) is modelled by `Utils.StringifyShelves` alone.
- The InvalidInput branch of `CreateOrder` at `service/repository/order.go:37-40` is left out, because the mapper it calls returns no error.
- Order pickup, the Redis shelf counter in `service/repository/shelf.go`, configuration loading and the wiring files are outside the modelled core.
- Placement.OrderService.PlaceOrderOnShelf: `service/order.go` does not define it. The rule is what `service/order_test.go` fixes. The message wrapped around a failed count comes from `CountOrdersOnShelf`; the service may add more text, and only the cause is specified.
- Entity.ShelfOrderError, Entity.ValidateShelfOrder: the error message is the joined text. `entity/shelf_order.go:44` passes that text to `fmt.Errorf` as a format string, so a `%` in an invalid shelf type or status is read as a formatting verb and printed differently. That rendering is not modelled.
- Jobs.SweptOnlyWastes: does not state that rows of shelf orders not on the list are left alone. Only the weaker statement is proved: every changed row is a wasted copy of the original at a higher version. The reason is cost: a row key is a printed UUID, and telling another key apart from it makes the solver unfold `Key` and `Uuid.ToString` down to the hexadecimal digits at every step of the sweep, which exceeds the resource limit.
