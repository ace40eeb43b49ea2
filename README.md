# HushLane central API — a verified model of its licensing and fleet core

HushLane's central API keeps three tables. `customer_instances` holds one row per customer deployment, upserted on every heartbeat. `version_history` is an append-only log of version changes. `licenses` holds one license per customer. Customer instances register themselves and validate their license key. An operator creates license keys offline with a command-line script. An administrator reads a dashboard of counts.

This project models the decision and state-update layer under the HTTP and SQL plumbing:

- `Schema` (schema.dfy): one typed record per table row, the registration payload, and the configuration constants (`LATEST_VERSION = "1.0.0"`, the default admin credentials).
- `Tables` (tables.dfy): what the queries do to rows. A full scan yields every row once. `ORDER BY … DESC` is a sort on a key. `LIMIT n` keeps a prefix. `sum(1 for …)` is a count.
- `KeyFormat` (key_format.dfy): `generate_license_key`, which formats sixteen given random bytes, plus a parser that inverts it.
- `LicenseTerms` (license_terms.dfy): the expiry computation, the CLI's `months == 0 → None` rule, the row `create_license` inserts, and the "Expires" column and row order of `list_licenses`.
- `Validation` (validation.dfy): the fail-fast verdict of `validate_license` and the `last_validated` update it makes on success.
- `Registry` (registry.dfy): the upsert and history append of `register_instance`, and an invariant that links the history to the instance table.
- `Dashboard` (dashboard.dfy): `verify_master_admin`'s accept rule and the dashboard's counts and recent updates.
- `Store` (store.dfy): the class `CentralStore`. Its fields are the three tables. Its methods change them in place as the endpoints and the script do. Five client methods drive the store through short sequences of calls: a license created and validated by its customer, the same key presented by another customer, a second license for one customer, a term too long for `datetime`, and two registrations followed by the dashboard with wrong and with right credentials.

Modelling choices:

- Time is an integer number of seconds. The database's `CURRENT_TIMESTAMP` defaults (`first_seen`, `updated_at`, `created_at`) and `datetime.now()` become an explicit `now` parameter.
- The random bytes of `secrets.token_hex` are a parameter.
- The comment at generate_license.py:14 shows `XXXX` groups, but `token_hex(4)` yields eight hex digits. So a key is `HL-` followed by four groups of eight upper-case hex digits, 38 characters in all. The model follows the code.
- `create_license` returns `None` both for a customer who already holds a license (generate_license.py:39-43) and for any error it catches (generate_license.py:87-92). The model returns `None` for both and leaves the table unchanged.
- `datetime.now() + timedelta(days=months*30)` (generate_license.py:51) raises `OverflowError` when the result falls outside `datetime`'s range, years 1 to 9999. The script catches it at generate_license.py:90-92 and returns `None` without inserting. The model states that range in seconds (`LicenseTerms.MinDateTime`, `LicenseTerms.MaxDateTime`) and refuses such terms the same way.
- The source does not guard against a key collision itself. The insert then fails on the `license_key` primary key, and the script catches the error and returns `None`. The model takes that error path and leaves the table unchanged. It does not require callers to pass fresh bytes.

## Model

| member | source | states |
|---|---|---|
| Schema.OnePerCustomer | main.py:74 | the UNIQUE constraint on licenses.customer_id, as an invariant; it has no contract of its own and is kept by InsertKeepsOnePerCustomer, TouchKeepsOnePerCustomer and CentralStore.Valid |
| Schema.HasLicense | generate_license.py:36-39 | the duplicate lookup `SELECT … WHERE customer_id = ?`; it has no contract of its own, and CreateLicense's iff states its role |
| Tables.Count | main.py:215-216 | a count is at most the number of rows; it equals the number of rows iff every row qualifies, and is 0 iff none does |
| Tables.CountPermutation | main.py:206-216 | a count does not depend on the order in which the rows are returned |
| Tables.SortDesc | main.py:206-209 | sorting keeps the rows: same length, same multiset |
| Tables.SortDescSorted | main.py:206-209 | the sorted rows are ordered by the key, largest first, and are a permutation of the input |
| Tables.SortedPrefixIsTop | main.py:219-223 | a LIMIT over sorted rows keeps rows of the input, and no row left out has a larger key than a kept one |
| Tables.TopN | main.py:219-223 | `ORDER BY key DESC LIMIT n` keeps min(n, rows) of the input rows, largest key first |
| Tables.TopNIsTop | main.py:219-223 | no row left out by the limit has a larger key than a row it keeps |
| Tables.Scan | main.py:206-210 | a full table scan returns every (key, row) pair of the table exactly once |
| KeyFormat.Group | generate_license.py:15 | one group `token_hex(4).upper()`; it has no contract of its own, and GroupIsHex and GroupDecodes carry its properties |
| KeyFormat.TokenHex | generate_license.py:15 | `token_hex` yields two hex digits per byte |
| KeyFormat.Upper | generate_license.py:15 | `upper()` keeps the length and maps each character through the ASCII upper-case rule; that a group ends up upper-case hex is GroupIsHex |
| KeyFormat.JoinFour | generate_license.py:16 | `'-'.join` of the four groups is the groups in order with a "-" between each two |
| KeyFormat.GenerateLicenseKey | generate_license.py:12-16 | a generated key is 38 characters and starts with "HL-"; its full shape is GeneratedKeyWellFormed, and ParseGenerated and GeneratedParsed make it a bijection between 16 bytes and well-formed keys |
| KeyFormat.GroupIsHex | generate_license.py:15 | a group `token_hex(4).upper()` is two upper-case hex digits per byte |
| KeyFormat.GroupDecodes | generate_license.py:15 | a group `token_hex(4).upper()` has two upper-case hex digits per byte, and decoding it gives back the bytes |
| KeyFormat.DecodeGroups | generate_license.py:15 | every even-length upper-case hex string is the group of the bytes it decodes to |
| KeyFormat.GeneratedKeyWellFormed | generate_license.py:14-16 | a generated key is "HL-" and four groups of 8 upper-case hex digits joined by "-", 38 characters long |
| KeyFormat.ParseGenerated | generate_license.py:15-16 | parsing a generated key recovers exactly the 16 random bytes it was made from |
| KeyFormat.GeneratedParsed | generate_license.py:15-16 | every string that parses is the key generated from the bytes it parses to, so the format has one spelling per byte string |
| KeyFormat.GenerateInjective | generate_license.py:15-16 | different random bytes give different keys |
| LicenseTerms.ExpiresAt | generate_license.py:48-51 | expiry is None iff months is None or 0; otherwise it lies exactly months·30 days after now, and in the future when months > 0 |
| LicenseTerms.HugeTermsOverflow | generate_license.py:50-51 | a term of 121736 months or more (either sign) overflows `datetime` for every clock reading inside its range, so no expiry can be computed |
| LicenseTerms.ExpiryFitsWhen | generate_license.py:49-51 | a lifetime license, or a non-negative term ending by 9999-12-31, always has a computable expiry |
| LicenseTerms.CliMonths | generate_license.py:162 | the CLI passes None exactly for 0 months and the given number otherwise |
| LicenseTerms.CliMonthsAgrees | generate_license.py:162 | the CLI's 0 → None mapping gives the same expiry as passing 0 straight through |
| LicenseTerms.NewLicense | generate_license.py:54-57 | the inserted row is the customer's, active and never validated; its expiry is None iff months is None or 0, and otherwise lies months·30 days after its creation time |
| LicenseTerms.InsertKeepsOnePerCustomer | generate_license.py:36-57 | inserting a license for a customer without one keeps the at-most-one-license-per-customer rule |
| LicenseTerms.Display | generate_license.py:125-132 | the column shows "Never" iff there is no expiry, EXPIRED iff expiry < now, and otherwise the floor of the whole days left |
| LicenseTerms.DisplayAtExpiry | generate_license.py:128-132 | at the exact expiry instant the license shows 0 days left, not EXPIRED |
| LicenseTerms.DaysLeftShrink | generate_license.py:131 | until expiry, the days shown as left never grow as time passes |
| LicenseTerms.Listing | generate_license.py:104-132 | the listing holds exactly the scanned rows, ordered by created_at newest first, each with its display for now |
| Validation.IsExpired | main.py:276-278 | a set expiry strictly before now; it has no contract of its own, and NotExpiredWhen, ExpiryIsPermanent and ValidEarlier carry its properties |
| Validation.ValidateLicense | main.py:252-314 | verdict stages in fail-fast order, each an if-and-only-if. INVALID_LICENSE iff key unknown. LICENSE_INACTIVE, carrying the status, iff status ≠ active. LICENSE_EXPIRED iff active and expiry set and now > expiry. CUSTOMER_MISMATCH iff active, not expired and the stored customer differs. Otherwise valid, with the stored name, plan and expiry |
| Validation.NewLicenseValidates | main.py:258-314 | a just-created license validates for its own customer, with its name, plan and expiry, at every time up to its expiry instant |
| Validation.Touched | main.py:299-305 | only a valid verdict changes the table, and then only that license's last_validated, set to now |
| Validation.TouchKeepsOnePerCustomer | main.py:299-305 | the validation update keeps at most one license per customer |
| Validation.InactiveWins | main.py:265-273 | a non-active license is LICENSE_INACTIVE whatever its expiry, the customer and the time |
| Validation.ExpiredBeforeMismatch | main.py:276-286 | an active, expired license is LICENSE_EXPIRED whatever customer asks |
| Validation.NotExpiredWhen | main.py:276-278 | a perpetual license never fails the expiry check, nor does one at its exact expiry instant |
| Validation.ExpiryIsPermanent | main.py:276-286 | once a validation fails with LICENSE_EXPIRED it fails so at every later time |
| Validation.ValidEarlier | main.py:276-314 | a validation that succeeds now gives the same success at every earlier time |
| Validation.DisplayAgreesWithValidator | main.py:276-278 | for an active license, the listing shows EXPIRED exactly when validation returns LICENSE_EXPIRED |
| Validation.ErrorCodesDistinct | main.py:257-294 | the four failure stages have four different error codes |
| Registry.Upserted | main.py:131-169 | the customer's row exists afterwards with the supplied version, url, health, heartbeat and gauges. A known row keeps first_seen; a new row gets first_seen = now and adds exactly one row. Every other customer's row is unchanged |
| Registry.LoggedHistory | main.py:131-154 | the old history is a prefix of the new and it grows by at most one. It grows iff the row existed with a different version, and the new entry is (customer, old version, new version, now) |
| Registry.HistoryConsistent | main.py:131-154 | the invariant linking version_history to customer_instances; it has no contract of its own, and EmptyHistoryConsistent and RegisterKeepsHistoryConsistent establish and keep it |
| Registry.RegisterKeepsHistoryConsistent | main.py:131-169 | every registration keeps the history consistent. Each entry is a real change by a registered customer. A customer's consecutive entries link up. A customer's latest entry ends at its current version |
| Registry.RegisterAgainChangesNothing | main.py:131-154 | repeating a registration leaves the instance table as it was and appends no history |
| Dashboard.VerifyMasterAdmin | main.py:182-193 | access is granted iff both username and password match, and the username is returned |
| Dashboard.RecentUpdates | main.py:219-225 | the recent updates are at most 10 entries (all of them when fewer), taken from the history, newest first |
| Dashboard.RecentUpdatesAreNewest | main.py:219-223 | no history entry left off the recent list is newer than any entry on it |
| Dashboard.DashboardOf | main.py:205-225 | total equals the number of rows. healthy_count and outdated_count are each at most the total. All rows are healthy iff healthy_count = total, and none is iff healthy_count = 0. outdated_count is 0 iff every row runs the latest version, and equals the total iff none does. At most 10 recent updates |
| Dashboard.DashboardOrderIndependent | main.py:206-216 | the three counts are the same whatever order the rows come in |
| Dashboard.HealthyCountsEachRow | main.py:215 | adding a row raises healthy_count by one exactly when that row reports "healthy" |
| Dashboard.OutdatedCountsEachRow | main.py:216 | adding a row raises outdated_count by one exactly when that row's version differs from the latest |
| Store.CentralStore.constructor | main.py:44-83 | a new store has three empty tables and satisfies the store invariant |
| Store.CentralStore.Register | main.py:119-171 | the instance table becomes Upserted and the history LoggedHistory of the old tables. Licenses are unchanged. The invariant is kept |
| Store.CentralStore.Validate | main.py:238-314 | returns ValidateLicense of the old table. Licenses become Touched by that verdict. Instances and history are unchanged |
| Store.CentralStore.CreateLicense | generate_license.py:19-92 | succeeds iff the customer holds no license, the expiry lies inside `datetime`'s range and the generated key is unused. Success returns the well-formed generated key and adds exactly that row: active, created now, with the computed expiry. Otherwise nothing changes. The one-license-per-customer rule is kept |
| Store.CentralStore.ListLicenses | generate_license.py:95-132 | every license exactly once, ordered newest created first, each row as stored with its expiry display |
| Store.CentralStore.Figures | main.py:205-225 | every instance exactly once, newest heartbeat first. The counts and recent updates are those of DashboardOf. The total is the number of instances |
| Store.CentralStore.AdminDashboard | main.py:182-225 | the figures are returned iff VerifyMasterAdmin accepts the credentials, and are then those of Figures |

## Left out

- HTTP routing, the request and response models, status codes, the JSON bodies and their human-readable messages (including the `strftime` dates in them), and the Jinja dashboard page. Verdicts are a datatype instead.
- The SQLite connections, SQL text, commits, transaction isolation and concurrent requests. The generic exception paths are left out too: the 500 `VALIDATION_ERROR` response and the error printing of the script. The one database error the model keeps is the primary-key collision in `create_license`.
- The randomness and unpredictability of `secrets.token_hex`. The bytes are a parameter, so uniqueness across generations is not a property of the model.
- The constant-time comparison of `secrets.compare_digest`. Only its boolean outcome is modelled.
- ISO-8601 timestamp strings, `fromisoformat`, `isoformat` and the local clock. Timestamps are integer seconds. The heartbeat timestamp is text in the source, so `ORDER BY last_heartbeat` there compares strings; the model sorts integers.
- A stored `expires_at` of the empty string counts as "no expiry" in the source, because it is falsy. The model uses an Option and has no such value.
- Clocks. `created_at`, `first_seen` and `updated_at` come from SQLite's `CURRENT_TIMESTAMP`, which is UTC (main.py:54, :66, :78). `expires_at` (generate_license.py:51), `last_validated` (main.py:304) and the expiry comparisons (main.py:278, generate_license.py:128 and :131) use `datetime.now()`, which is local time. The model has one clock, `now`, for all of them.
- Store.CentralStore.CreateLicense: created_at and expires_at come from the one `now`, so `expiresAt − createdAt` is exactly months·30 days. In the source they also differ by the server's offset from UTC. `now` is whole seconds, so a clock reading within a second of 9999-12-31 23:59:59 may overflow in the source where the model does not.
- Store.CentralStore.Validate: the source reads the clock once for the expiry check (main.py:278) and again for `last_validated` (main.py:304). The model stamps `last_validated` with the instant it checked.
- The default arguments `plan="standard", months=12` of `create_license` (generate_license.py:19). Every call in the source passes both, and the model's method takes both.
- `list_licenses` reads the clock twice, at generate_license.py:128 and :131. The model uses one `now` for both.
- Ties in `ORDER BY`. SQLite leaves their order open. The model's sort breaks ties one fixed way, and the order-sensitive contracts only use the key comparison.
- The `plan` choices (`standard`, `pro`, `enterprise`), which only argparse enforces. `create_license` stores any plan string, as the model does. Argument parsing, the console text of the script, environment configuration, `init_db`, startup and the static `/`, `/latest-version` and `/health` payloads are left out too.
- `LICENSE_SECRET` is defined but never used by the source, and is not modelled.
- Integer widths: SQLite's 64-bit integers and Python's unbounded ones are both plain `int` here.
