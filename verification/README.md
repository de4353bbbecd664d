# Subscription service: a verified model of its request pipeline

The subscription service is a three-layer Go web service for "subscription"
records: a user, a service name, a price, and a start and end month. HTTP
handlers validate requests and map results to status codes. A service layer
generates ids and translates errors. A repository layer issues parameterised
SQL against one table.

This project models the parts of that pipeline that make decisions:

- the SQL text and bind arguments that `GetAllSubscriptionsFilter` builds from a filter;
- the not-found decisions of the single-row repository operations;
- the service's entity assembly, error translation and pass-through;
- the `MM-YYYY` month-range validation;
- `handleError`'s mapping from an error to a status code;
- the validation and response writing of the three handlers, including the entity-to-DTO loop.

Modules follow the source files:

| module | file | contents |
|---|---|---|
| `Entity` | entity.dfy | records of `internal/entity/subscription.go`; Go's `int32`/`int64`, UUIDs (`Nil`), `time.Time` at month granularity (zero = January of year 1), `After`/`Before`, the `int32(x)` conversion |
| `GoErrors` | go_errors.dfy | error values as a closed datatype (`RepoNotFound`, `NotFound`, driver failures, `%w` wrapping), `errors.Is`, and `Ret<T>` for Go's `(T, error)` pairs |
| `Text` | text.dfy | `%d` formatting, `strings.Join`, reading a numeral back |
| `Repository` | repository.dfy | `internal/repository/repository.go` |
| `Service` | service.dfy | `internal/service/service.go`; each repository call is a function parameter |
| `Dates` | dates.dfy | `internal/controller/common.go` |
| `Dto`, `Http`, `HttpErrors` | dto.dfy, http.dfy, http_errors.dfy | `internal/controller/dto.go`; the `ResponseWriter` calls a handler makes, as a list; `internal/controller/errors.go` |
| `Handlers` | handlers.dfy | `internal/controller/handlers.go`; service and library calls are parameters |
| `EndToEnd` | end_to_end.dfy | the layers composed; a map from id to subscription stands in for the table in the request scenarios |

Inputs that the code receives from outside are parameters:

- every database outcome: exec error, rows affected, row scanned, no rows;
- the freshly generated UUID;
- the decoded request body;
- whether JSON encoding succeeded;
- `uuid.Parse`, `UUID.String`, `time.Parse` with the RFC 3339 layout, and `Time.Format`.

## Model

| member | source | states |
|---|---|---|
| `Entity.WrapToInt32` | internal/controller/handlers.go:41 | `int32(req.Price)` keeps a price that fits unchanged; any other price is replaced by the value congruent to it modulo 2^32 |
| `GoErrors.WrappedIs` | internal/service/service.go:52 | wrapping with `%w` preserves which sentinel an error matches under `errors.Is`, and never creates a match |
| `Text.Decimal` | internal/repository/repository.go:92 | `%d` of a non-negative count is a non-empty digit string; 0 prints as "0" and a positive count has no leading zero |
| `Text.DecimalRoundTrip` | internal/repository/repository.go:92 | reading back the numeral `%d` printed gives the original number |
| `Repository.ActiveColumns` | internal/repository/repository.go:91-109 | a column is tested exactly when its filter field is non-empty (name not "", user not `Nil`, dates not zero); the columns appear once each, in the fixed order service_name, user_id, start_date, end_date |
| `Repository.BuildFilterQuery` | internal/repository/repository.go:81-116 | the query text is a function only of which columns are tested; there is one bind argument per condition, and argument k is the value of the field that condition k tests |
| `Repository.PlaceholdersInOrder` | internal/repository/repository.go:91-109 | condition k (from 0) tests the k-th active column with placeholder `$(k+1)`, so the placeholders are exactly `$1..$n` in append order |
| `Repository.ConditionRoundTrip` | internal/repository/repository.go:92 | each condition's text can be read back to the column it tests and the placeholder number it carries |
| `Repository.WhereOnce` | internal/repository/repository.go:111-114 | `" WHERE "` occurs exactly once, right after the base SELECT, when a condition exists, and never otherwise |
| `Repository.EmptyFilterSelectsAll` | internal/repository/repository.go:88 | an all-empty filter tests no column, so the query is the bare base SELECT and there are no arguments |
| `Repository.QueryIgnoresValues` | internal/repository/repository.go:91-109 | two filters with the same set of non-empty fields produce the same query text, whatever their values |
| `Repository.CreateSubscription` | internal/repository/repository.go:21-30 | returns the entity's own id on success; on an INSERT error it returns `Nil` and the driver error unwrapped |
| `Repository.GetSubscriptionByID` | internal/repository/repository.go:32-48 | no rows gives a nil result and a nil error; any other failure gives a wrapped error matching neither sentinel; a found row is returned under the requested id with the scanned fields |
| `Repository.DeleteSubscriptionByID` | internal/repository/repository.go:50-68 | `ErrRepoNotFound` exactly when the DELETE ran and affected 0 rows; nil exactly when it affected a non-zero count; wrapped driver errors otherwise; never an error matching the service's `ErrNotFound` |
| `Service.NewSubscriptionEntity` | internal/service/service.go:30-36 | the entity sent to the repository has the generated id and the request's user, name, price and start date; its end date is zero, not copied |
| `Service.NewSubscription` | internal/service/service.go:29-44 | success returns exactly the repository's id; failure returns `Nil` and the repository error, wrapped |
| `Service.CancelSubscription` | internal/service/service.go:46-56 | `ErrNotFound` iff the repository error matches `ErrRepoNotFound`; nil iff the repository returned nil; any other error is wrapped and matches `ErrNotFound` only if the repository's error did |
| `Service.GetSubscriptionsTotalSumFilter` | internal/service/service.go:58-65 | the repository's list is returned unchanged; on failure there is no list and the error is wrapped |
| `Dates.ParseMonthYear` | internal/controller/common.go:11 | a string that parses under `"01-2006"` is 7 characters long and has a year in 0..9999 |
| `Dates.ParseFormat` | internal/controller/common.go:8 | every month with a 4-digit year, written in the `"01-2006"` layout, parses back to itself |
| `Dates.FormatParse` | internal/controller/common.go:8 | only the canonical spelling parses: two-digit month 01-12, dash, four-digit year, nothing else |
| `Dates.ParseStartAndEndDate` | internal/controller/common.go:10-30 | success iff both strings parse and start is not after end; success returns the two parsed months in order; every failure returns two zero times; a malformed start is reported as such whatever the end is |
| `Dates.BeforeIsConverseOfAfter` | internal/controller/common.go:21-27 | end-before-start is the same condition as start-after-end, so the second range check never fires |
| `Dates.EqualDatesAccepted` | internal/controller/common.go:21-29 | a range whose start and end are the same month is accepted |
| `Dates.ExampleRanges` | internal/controller/common.go:10-30 | "09-2025".."08-2025" is rejected; "08-2025".."09-2025" is accepted as August to September 2025 |
| `HttpErrors.HandleError` | internal/controller/errors.go:10-21 | an error matching `ErrNotFound` gives status 404 with body exactly "resource not found"; any other error gives 500 and no body |
| `HttpErrors.HandleErrorTotal` | internal/controller/errors.go:11-20 | every error gets exactly one of 404 and 500, never 400 |
| `Handlers.QueryGet` | internal/controller/handlers.go:84-85 | a missing query parameter, or one given with no value, reads as ""; a present one as its first value |
| `Handlers.CreateData` | internal/controller/handlers.go:38-43 | the create data carries the parsed user id, the name, `int32(price)` and the parsed start, and its end date is never set |
| `Handlers.PostInput` | internal/controller/handlers.go:20-43 | a request is accepted iff the body decodes, its user_id parses as a UUID and the (swapped-argument) time parse succeeds |
| `Handlers.PostSubscription` | internal/controller/handlers.go:17-60 | status 400, with nothing from the service, iff validation fails; service errors go through `handleError`; on success the id is the only body and `WriteHeader(201)` is the last call, after it |
| `Handlers.DeleteSubscription` | internal/controller/handlers.go:62-79 | 400 iff the path id is not a UUID, whatever the service would say; 200 iff the service cancels; a service error goes through `handleError`, so 404 with body "resource not found" iff it matches `ErrNotFound` and 500 otherwise |
| `Handlers.QueryFilter` | internal/controller/handlers.go:93-96 | the filter carries the user id and service name only; both dates stay zero |
| `Handlers.ReadDTOOf` | internal/controller/handlers.go:107-113 | a DTO copies the id, user id, name and price and formats the start date; its end date is empty |
| `Handlers.GetSubscriptions` | internal/controller/handlers.go:81-122 | 400, before the service is called, when user_id does not parse as a UUID; a missing user_id reads as "" and so gives 400 whenever `uuid.Parse` rejects ""; service errors go through `handleError`; otherwise one body holding one DTO per subscription in the service's order, with no explicit status |
| `EndToEnd.DeleteStatusChain` | internal/service/service.go:46-56 | through repository, service and handler, a DELETE affecting 0 rows is a 404, a non-zero count a 200, and a failed statement or row count a 500 |
| `EndToEnd.DeleteRejectsBadId` | internal/controller/handlers.go:63-69 | a malformed id gives 400 whatever the database would have answered |
| `EndToEnd.ListQueryColumns` | internal/controller/handlers.go:93-96 | the list request's SQL never has a date condition; a `Nil` user id with no service name selects every row |
| `EndToEnd.Insert` | internal/repository/repository.go:22-24 | the INSERT of the entity's six fields stores the row under its id and keeps every other row; on a taken primary key it fails and the table is unchanged |
| `EndToEnd.SelectRow` | internal/repository/repository.go:33-39 | the SELECT by id scans the stored row's five other columns, and finds no rows exactly when the id is not stored |
| `EndToEnd.Delete` | internal/repository/repository.go:51-58 | the DELETE by id removes that row and keeps every other one; the affected-row count is the number of rows removed |
| `EndToEnd.CreateGetDeleteScenario` | internal/service/service.go:29-44 | running create, get, delete, get, each against the table the previous statement left: create returns the generated id; get returns a record with the request's user, name, price and start date and a zero end date; the delete succeeds; then there is nothing to read, and a second delete is `ErrNotFound` |
| `EndToEnd.DeleteMissingIsNotFound` | internal/repository/repository.go:63-65 | deleting an id that is not in the table is a 404 at the HTTP boundary, never a 500 |

## Behaviour as coded

The service's documentation describes a slightly different system. The model follows the code:

- `GetSubscriptionsTotalSumFilter` sums nothing. It returns the repository's list, and the handler encodes that list.
- Read DTO start dates are formatted with the RFC 3339 layout, not `MM-YYYY`. The end date is never filled in.
- `postSubscription` does not check for a negative price.
- `postSubscription` narrows the price to `int32` with wrap-around.
- `postSubscription` encodes the bare id, not `{"id": ...}`.
- `parseStartAndEndDate` is not called by any of the three handlers.
- The list handler's filter has no dates. A valid but nil user id therefore lists every user's subscriptions.

## Left out

- Executing the query and scanning its rows in `GetAllSubscriptionsFilter`, including the deferred `rows.Close` error join: this is database I/O. The model stops at the query text and arguments.
- `UpdateSubscription`: no handler routes to it and the service interface lacks it. Its statement binds 3 arguments to 4 placeholders.
- `uuid.Parse`, `uuid.New`, `UUID.String`, `time.Parse` with RFC 3339 and `Time.Format` are library calls. They are parameters, and the model claims nothing about them.
- Uniqueness of generated ids is not modelled. `uuid.New()` is randomness, so the new id is an input.
- `postSubscription`'s start-date parse passes the layout and the value in swapped order. This is recorded in the call, but what it accepts is not modelled.
- Which status a client sees after `postSubscription`'s late `WriteHeader(201)` is decided by net/http, which is not modelled. `Http.Status` reports only a status a handler sets before any body.
- JSON decoding and encoding are not modelled byte by byte. The decoded body is an input, and a body write records the encoded value.
- An encoding failure is modelled as writing no body. A partial write is not modelled.
- Handlers.GetSubscriptions: the 400 for a missing `user_id` is stated under the hypothesis that `uuid.Parse` rejects "", because the library's behaviour is a parameter.
- The table in the end-to-end scenarios is a map from id to row. It stands in for PostgreSQL and has only the primary-key constraint.
- `Entity.Time` is month-granular. Sub-month parts of a `time.Time` are not represented.
- Go's nil slice and empty slice are both the empty sequence.
- Driver error texts, `slog` logging, the request context and cancellation are not modelled.
- Process start-up, shutdown, configuration, server wrappers and the logging middleware are process wiring and I/O.
- `UpdateSubscriptionData` is not declared, because its only user is `UpdateSubscription`.
