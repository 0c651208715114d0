# churchsite core, modelled in Dafny

A model of the decision logic of a server-rendered church website: the
record-selection rules of its four query services (upcoming events, active
ministries, lookup of a ministry by slug, active staff, site settings), the
ministry and health handlers' choice of response, configuration loading from
the environment, and the seed program's next-weekday arithmetic. There is no
database, HTTP server or clock: a table read is an input (`Store.Read`: all
rows, soft-deleted ones included, or a read failure), the current time is an
integer parameter `now`, and a handler's output is the trace of calls it
makes on the response writer, which `Http.Replay` turns into the status, the
headers the handler itself set, and the body that the trace sends.

Modules, one per source file or concern:

- `Wrappers`: `Option` (Go's nil pointers) and `Result` (Go's `(value, error)`).
- `Sequences`: the generic filter (a WHERE clause), insertion sort by a total
  preorder (ORDER BY), and the LIMIT-prefix lemma.
- `Collation`: lexicographic string order for `name ASC`.
- `Models`: `Event`, `Ministry`, `StaffMember` (each with the soft-delete
  columns of `SoftDeleteModel`) and `SiteSetting` (hard-delete, no such columns).
- `Store`: `DbError` (`ErrRecordNotFound`, `StoreError`) and `Read<T>`.
- `EventService`, `MinistryService`, `StaffMemberService`, `SiteSettingsService`.
- `Http`: response-writer trace semantics, `http.Error`, rendering.
- `MinistryHandler`, `HealthHandler`, `Config`, `Seed`.

The default scope of soft-delete models (`deleted_at IS NULL`) is written into
each service's predicate (`Eligible`, `Active`, `MatchesSlug`). Rows with equal
sort keys may come back from the database in any order, so the contracts state
sortedness and the multiset of rows, never one particular order among ties.

## Model

| member | source | states |
|---|---|---|
| `EventService.GetUpcoming` | internal/services/event.go:20-35 | a failed read is returned unchanged as the error; otherwise the result is a correct answer: every event is public, not soft-deleted, dated at or after `now`, with `visible_from` unset or `<= now` and `visible_until` unset or `>= now` (one `now` for all three); sorted by date; at most `limit` long, exactly `min(limit, #eligible)`; all eligible events when shorter than `limit`; no omitted eligible event is earlier than a returned one |
| `EventService.UpcomingRows` | internal/services/event.go:26-32 | the query chain (filter on the three WHERE clauses and the default scope, order by date, take `limit`) returns a correct answer in the sense above |
| `EventService.FilterOrderTakeIsAnswer` | internal/services/event.go:27-31 | filter, order by date and take `limit` together meet every clause of that answer, over all tables, times and limits |
| `EventService.NothingEligibleIsEmpty` | internal/services/event.go:32-34 | with no eligible event the result is an empty list and no error |
| `EventService.SoftDeletedNeverReturned` | internal/services/event.go:21 | a soft-deleted event is never returned, whatever its other columns |
| `EventService.HomepageShowsOnlyFutureEvent` | internal/handlers/home.go:25 | with a public unbounded event tomorrow and one yesterday, `GetUpcoming(6)` returns exactly tomorrow's |
| `MinistryService.GetActive` | internal/services/ministry.go:18-28 | a failed read is returned unchanged; otherwise each ministry occurs in the result exactly as often as in the table if it is active and not soft-deleted, and never otherwise (no limit); the result is sorted by `sort_order`, ties by `name` |
| `MinistryService.MinistryLeIsTotalPreorder` | internal/services/ministry.go:24 | `sort_order ASC, name ASC` compares any two ministries and is transitive |
| `MinistryService.ActiveListedOnce` | internal/services/ministry.go:22-25 | with unique ids, every active non-deleted ministry is listed exactly once |
| `MinistryService.SortOrderThenName` | internal/services/ministry.go:24 | (2, Zeta), (1, Alpha), (1, Beta) are listed Alpha, Beta, Zeta |
| `MinistryService.FirstById` | internal/services/ministry.go:37 | `First` yields no row exactly on an empty match set, else a matching row with the least primary key |
| `MinistryService.GetBySlug` | internal/services/ministry.go:30-44 | a failed read is returned unchanged; otherwise the result is `ErrRecordNotFound` exactly when no active non-deleted ministry has the slug (inactive and missing are the same error, and an error carries no ministry), and a success is a row of the table with that slug, active and not deleted, with the least id among such rows |
| `MinistryService.LookupIsDeterministic` | internal/models/ministry.go:9 | with unique slugs a successful lookup returns the one row holding the slug |
| `MinistryService.HiddenSlugIsNotFound` | internal/services/ministry.go:31-41 | a slug held by no ministry, or only by inactive or deleted ones, gives `ErrRecordNotFound` |
| `StaffMemberService.GetActive` | internal/services/staff_member.go:18-28 | a failed read is returned unchanged; otherwise each member occurs exactly as often as in the table if active and not soft-deleted, never otherwise (no limit); sorted by `display_order`, ties by `name` |
| `StaffMemberService.StaffLeIsTotalPreorder` | internal/services/staff_member.go:24 | `display_order ASC, name ASC` compares any two members and is transitive |
| `StaffMemberService.ActiveListedOnce` | internal/services/staff_member.go:22-25 | with unique ids, every active non-deleted member is listed exactly once |
| `StaffMemberService.InactiveNeverListed` | internal/services/staff_member.go:23 | an inactive member is never listed, whatever its display order |
| `SiteSettingsService.SettingsMap` | internal/services/site_settings.go:25-28 | the keys of the folded map are exactly the rows' keys; nothing is filtered, and no rows give the empty map |
| `SiteSettingsService.LastRowWins` | internal/services/site_settings.go:26-28 | a key holds the value of the last row in load order with that key |
| `SiteSettingsService.UniqueKeysOneEntryPerRow` | internal/models/site_setting.go:7 | with `key` a primary key, the map has exactly as many entries as there are rows |
| `SiteSettingsService.UniqueKeysEveryRowFound` | internal/services/site_settings.go:25-28 | with unique keys, every row's value is found under its key |
| `SiteSettingsService.GetAll` | internal/services/site_settings.go:18-30 | a failed read gives the error and no map; otherwise the loop's map equals the fold of the rows in load order |
| `Http.ErrorReply` | internal/handlers/ministry.go:46 | `http.Error` sends the given status, plain-text headers and the message followed by a newline |
| `Http.RenderReply` | internal/handlers/ministry.go:33-36 | rendering sends status 200 whether or not it fails; only a successful render puts the page in the body |
| `Http.SentHeaderIsFinal` | internal/handlers/health.go:47 | once the status line is written, neither the status nor the headers change |
| `Http.HeaderAfterStatusIsLost` | internal/handlers/health.go:28 | a header set after `WriteHeader` never reaches the client, which is why the content type is set first |
| `MinistryHandler.Index` | internal/handlers/ministry.go:24-37 | a failed read answers 500 "Internal Server Error" and logs, rendering nothing; otherwise 200 with exactly the service's list, in its order, and a render failure only adds a log line |
| `MinistryHandler.Show` | internal/handlers/ministry.go:39-58 | not found answers 404 "Ministry not found" with no log; any other lookup error answers 500 and logs; a found ministry answers 200 with that ministry; every page in the body is a row of the table, active, whose slug is the URL's slug verbatim |
| `MinistryHandler.InactiveMinistryPageIsNotFound` | internal/handlers/ministry.go:43-47 | the detail page of an inactive (or missing) ministry answers 404 and shows none of its content |
| `MinistryHandler.RenderFailureOnlyLogged` | internal/handlers/ministry.go:55-57 | whether rendering fails never changes the status of either page |
| `HealthHandler.Liveness` | internal/handlers/health.go:20-24 | always 200 with a JSON content type and `{"status":"ok"}` |
| `HealthHandler.Readiness` | internal/handlers/health.go:26-53 | the client gets the JSON content type; `postgres` is "error" iff the Postgres ping failed, `redis` iff the Redis ping failed, each from its own ping; status "ok" with 200 iff both are "ok", else "degraded" with 503 |
| `Config.GetEnv` | internal/config/config.go:69-74 | a non-empty variable is returned, an unset or empty one gives the fallback |
| `Config.Load` | internal/config/config.go:30-62 | fails iff DATABASE_URL or REDIS_URL is unset or empty, reporting DATABASE_URL first; on success the URLs are copied, APP_ENV, APP_URL, APP_PORT, JWT_EXPIRATION and MAX_UPLOAD_SIZE take their defaults when unset or empty, and the JWT and SMTP fields are copied verbatim, possibly empty |
| `Config.IsDevelopment` | internal/config/config.go:64-67 | development mode exactly when the loaded AppEnv is "development" (with `DevelopmentIffAppEnv`, exactly when APP_ENV is unset, empty or "development") |
| `Config.MinimalEnvironment` | internal/config/config.go:33-52 | with only the two URLs set, the config holds every default, empty JWT and SMTP fields, and is in development mode |
| `Config.DevelopmentIffAppEnv` | internal/config/config.go:64-67 | development mode iff APP_ENV is unset, empty or "development" |
| `Seed.IntermediateIsPositive` | cmd/seed/main.go:225 | `day - from.Weekday() + 7` lies in 1..13, so Go's truncating `%` agrees with the mathematical one |
| `Seed.DaysUntil` | cmd/seed/main.go:225-228 | the offset is in 1..7, lands on the requested weekday, and is 7 exactly when the start already is that weekday |
| `Seed.NextWeekday` | cmd/seed/main.go:224-230 | the result is strictly after `from`, at most a week later, falls on the requested weekday, and no day in between does |
| `Seed.NextSunday` | cmd/seed/main.go:216-218 | `nextWeekday` with Sunday: the first Sunday strictly after `from` |
| `Seed.NextSaturday` | cmd/seed/main.go:220-222 | `nextWeekday` with Saturday: the first Saturday strictly after `from` |
| `Seed.SameWeekdayIsNextWeek` | cmd/seed/main.go:226-228 | asked for the weekday it already falls on, `nextWeekday` gives the day a week later |

## Left out

- Database, Redis, HTTP server, router, logging back end and templates: a table read, the two pings and the render outcome are inputs; a log entry is its message only, without slog's key/value fields.
- The order the database gives rows with equal sort keys: the model sorts them stably, and no contract depends on that choice.
- Database collation for `name ASC`: names are compared character by character.
- A negative `limit` (gorm's "no limit"): `limit` is a natural number.
- A template that fails after writing part of the page: a failed render writes nothing in the model; the status is 200 either way.
- The JSON encoder's byte output: a JSON body is the map it encodes.
- Headers the handlers do not set themselves: the `Content-Type: text/html; charset=utf-8` that net/http sniffs for a rendered page, `Date` and `Content-Length` from net/http, and the `Content-Encoding`/`Vary` headers that the compression middleware (cmd/server/main.go:78) adds. A `Response`'s headers are only those the handler set before the status line.
- `Readiness` attempting both pings: both ping results are inputs, so the model shows that each field depends only on its own ping, not the order of the calls.
- Time of day, time zones, `AddDate` and `Truncate(24*time.Hour)` in the seed helpers: a date is a day number. In the source `from.Weekday()` uses the process's local zone while `Truncate(24*time.Hour)` rounds to UTC midnight, so the weekday property of `Seed.NextWeekday` holds for the source only when the local zone is UTC: at UTC+10 with `from` a Saturday 05:00 local, `nextSunday` returns Saturday 00:00 UTC.
- Staff grouping by category: `internal/models/staff_member.go` has no category field; the `models.CategoryPastor` the seed program refers to is not part of this model.
- The health status has two values per dependency ("ok", "error") and two overall ("ok", "degraded"), as the code writes them.
- The insert loops of the seed program, server start-up and shutdown, migrations and connection pools.
- The home and about handlers: the only fact kept is the homepage's `GetUpcoming(6)`, in `EventService.HomepageShowsOnlyFutureEvent`.
