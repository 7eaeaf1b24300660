# QR tracker link store, modelled in Dafny

The QR tracker server lets a client create a short link and get back a QR code
image for it. Requests to `/r/<code>` redirect to the stored destination and
count each click. `/stats/<code>` reports a link's destination and click count.
All of this lives in `server.js`, over two SQLite tables:

- `links(code PRIMARY KEY, url, clicks DEFAULT 0)`;
- `clicks(id AUTOINCREMENT, code, timestamp, user_agent, ip)`, an append-only log.

This project models those two tables as the state of a class,
`Server.Database`, and the three request handlers as its methods:

- `links` is a `map<string, Link>`, keyed by code.
- The `clicks` table is a `seq<ClickEvent>`.
- The auto-increment counter is `nextId`.

Each handler returns a tagged result, either the value sent on success or an
`Error(status, message)` with the status and body the handler sends:

- 400 "URL is required";
- 500 "DB error";
- 500 "QR error";
- 404 "Not found".

The database invariant is `Server.Consistent`:

- click ids start at 1, strictly increase, and stay below `nextId`;
- every click record names an existing link;
- every link's `clicks` equals the number of click records with its code (`Server.CountFor`).

Every handler keeps this invariant (`Valid()` in its contract).

The short URL given to the QR encoder is `protocol://host/r/code`
(`ShortUrls.ShortUrl`). `ShortUrls.ParseShortUrl` is its inverse. It cuts a
URL of exactly that shape back into protocol, host and code: the path must be
the lower-case prefix `/r/` and one segment, taken as written. The two are proved to round-trip in both directions, so distinct
links encode distinct short URLs.

Inputs that come from outside the handlers are parameters:

- the generated code;
- whether the store accepts the insert (a busy, locked, read-only or full database refuses it);
- the request's protocol and `Host` header;
- the `User-Agent` header and client ip;
- the QR encoder, as a total function `string -> Option<Png>`, where `None` is an encoder error.

`Server.CreateResolveStatsScenario` and `Server.FailedRequestsScenario` are
clients that use only the handlers' contracts. The first creates a link, follows
it once and reads its stats. The second covers a duplicate create, an unknown
code, an empty url and an encoder failure.

Files: `results.dfy` (Option and Result), `short_urls.dfy` (module `ShortUrls`),
`server.dfy` (module `Server`).

Three behaviours of `server.js` are modelled as written:

- A duplicate code is not retried. The insert fails and the handler answers 500 "DB error".
- The short URL is built from the request's protocol and `Host` header (`protocol://host/r/code`), not from a configured base host.
- The `url` check is JavaScript truthiness. Only presence and non-emptiness are tested, with no URL syntax check.

## Model

| member | source | states |
|---|---|---|
| Server.Database.constructor | server.js:16-30 | Both tables start empty and the first click id is 1; the invariant holds. |
| Server.Database.Create | server.js:37-65 | A missing or empty url gives 400 "URL is required" and changes nothing. A code already in `links`, or an insert the store refuses, gives 500 "DB error" and changes nothing. Otherwise exactly one row `code -> (url, 0)` is added and the click log and id counter stay as they were. The encoder gets exactly `protocol://host/r/code`. If it fails the answer is 500 "QR error" but the new row stays; if it succeeds the answer is its PNG. The invariant is kept. |
| Server.Database.Resolve | server.js:68-83 | An unknown code gives 404 "Not found" and leaves both tables and the counter unchanged. A known code returns its stored url and raises only that row's `clicks`, by exactly 1. It appends exactly one record (next id, code, user agent, ip), whose id is above every earlier id, and the counter advances by one. The invariant is kept. |
| Server.Database.Stats | server.js:86-91 | Succeeds exactly when the code is in `links`, else 404 "Not found". It returns that row's url and clicks, and the clicks equal the number of click records for the code. Changes nothing. |
| Server.CountFor | server.js:23-29 | The number of click records for a code is at most the number of records in the log. |
| Server.CountForZero | server.js:23-29 | A code's count is zero exactly when no click record names that code. |
| Server.CountForAppend | server.js:75 | Appending one click record raises the count of its own code by one and leaves every other code's count unchanged. |
| Server.InsertKeepsConsistent | server.js:51 | Inserting an unused code with zero clicks keeps the invariant: a new row starts consistent with the log. |
| Server.ClickKeepsConsistent | server.js:74-75 | Incrementing a link's counter together with appending its click record under the next id keeps the invariant: ids stay increasing, and each counter still equals its click records. |
| ShortUrls.RedirectRoute | server.js:68-69 | A path this model of the `/r/:code` route accepts is "/r/" followed by the captured code, which is a non-empty segment with no '/'. |
| ShortUrls.RedirectRouteAccepts | server.js:68-69 | Conversely, the route accepts "/r/" followed by any non-empty segment without '/', and captures that segment as written, without percent-decoding. |
| ShortUrls.ParseShortUrlRoundTrip | server.js:49 | For a protocol without ':', a host without '/' and a routable code, splitting the short URL gives back exactly that protocol, host and code. |
| ShortUrls.ParseShortUrlSound | server.js:49 | Every URL that splits is the short URL of its parts. Those parts are a well-formed origin and a routable code. |
| ShortUrls.ShortUrlInjective | server.js:48-49 | Two short URLs with well-formed origins and routable codes are equal only if their protocol, host and code are equal. |

## Left out

- ShortUrls.RedirectRoute matches only the literal lower-case `/r/` prefix and one segment. Express's default routing also accepts a trailing slash (`/r/abc/`), ignores case (`/R/abc`), matches on the path without its query string or fragment, and percent-decodes the captured code (a bad escape gives 400). None of these is modelled.
- ShortUrls.RedirectRouteAccepts: "captures exactly that segment" holds for segments without '%'. Express would percent-decode a segment that has escapes; the model keeps it raw.
- ShortUrls.ParseShortUrl splits only URLs without a query string or fragment, and does no percent-decoding, so it inverts the short URL as built rather than every URL Express would route to the redirect handler.
- Express wiring (`app.use`, static files, the `/` health check, `app.listen`) and console logging: transport and I/O only.
- `generateCode` (server.js:32-34) uses `Math.random()` and base-36 float formatting, so the code is an input to `Create`. Its codes have at most 6 characters of `[0-9a-z]`. The code can be empty in the degenerate case where the random number is 0. `Create` places no restriction on the code, like the insert it models. The round-trip lemmas need a non-empty code.
- The encoder `QRCode.toBuffer` is a foreign library. It is a parameter, and nothing is stated about the PNG bytes or about decoding the image.
- The SQLite driver's callbacks and asynchrony are not modelled. The two writes in the redirect handler are fire-and-forget with errors ignored. The model runs them in order and lets both succeed, so concurrent redirects and partially applied accounting are not modelled.
- A failing `SELECT` in the redirect and stats handlers is reported as "not found" by the source. The model's lookups do not fail.
- The `timestamp` column (`CURRENT_TIMESTAMP` default) is not modelled: the clock is outside the model.
- The request body's `url` is an `Option<string>`. JSON values of other types (numbers, booleans, objects) that JavaScript truthiness would accept or reject are not modelled.
- Server.Database.constructor models a new, empty database file. Opening an existing file with `CREATE TABLE IF NOT EXISTS` keeps its rows; the model does not cover that.
- Server.Consistent requires every click record to name an existing link. The `clicks` table has no foreign key. Only the handlers' order of operations, lookup before logging, makes this hold.
- Server.Database.Stats returns the row as a `Link` value. The JSON body shape (`{url, clicks}` or `{error: "Not found"}`) and the redirect response's HTTP mechanics are presentation details.
