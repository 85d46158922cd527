# Music catalog API — request decisions, modelled in Dafny

The server in `Beadando/index.js` is an Express application over a MySQL
database. It registers and logs in users and keeps a `music` catalog
(title, artist, genre, duration, release date, image URL). A bearer-token
middleware guards the create, update and delete routes. Nearly all of the
file is routing and database glue. This project models the parts that make
decisions:

- the middleware `verifyToken`: which piece of the `Authorization` header is
  the token, when the answer is 403, when it is 401, and when the request goes on;
- the login handler's mapping of query, password check and token issue to a response;
- the create handler's checks: all six fields truthy, genre in the closed
  list, release date matching `/^\d{4}-\d{2}-\d{2}$/`, and the date parsing;
- the partial-update handler: its two guards, and the `updates`/`values`
  arrays it builds before issuing `UPDATE music SET … WHERE id = ?`;
- the mapping of each statement's result to 500, 404 or success, for
  create, get-one, update and delete.

JavaScript semantics are written out where the decisions depend on them.
`Js.Value` stands for a body property (absent, null, boolean, integral
number, string, or object/array) and `Js.Truthy` is what `!x` negates, so
`duration: 0` and `title: ""` count as missing. `RegExp.prototype.test`
converts its argument with `String()`. Because of that, an array such as
`["2020-01-01"]` passes the date check. A number never does
(`DateRegex.NumeralIsNotDateShaped`).

The library calls are parameters: `compare` for `bcrypt.compare`, `sign`
for `jwt.sign`, `verify` for `jwt.verify`, and `parses` for
`!isNaN(new Date(s).getTime())`. The database is modelled as a table
`map<int, Track>` plus a `fails` flag. When the flag is set, the statement
reports an error and changes nothing. A row matches the path parameter
`id` when its id's numeral equals the parameter.
`affectedRows` counts matched rows, which is what the mysql2 client
reports by default.

Modules: `Js` (values, truthiness, `String()`, `split`/`join`),
`DateRegex`, `Http` (responses), `Music` (track, genres, create and update
checks, SET builder), `Auth` (token middleware, login), `Store` (the
abstract table), `Routes` (middleware, handler and statement composed per route).

Behaviour of the code worth knowing:

- The update handler checks neither the release date nor the duration.
  An update can therefore store a row that create would refuse
  (`Routes.PatchCanUncatalogue`). The model's invariant `Routes.Catalogued`
  (every stored row is one create accepts) is kept by create and delete
  only (`Routes.CreateKeepsCatalogued`, `Routes.DeleteKeepsCatalogued`).
- Create accepts any truthy duration, negative ones and non-numbers included.
- The middleware never looks at the scheme word. `Token abc` works as well
  as `Bearer abc` (`Auth.SchemeIsNotChecked`). `Bearer  abc`, with two
  spaces, is refused with 403.
- Login answers 400 for every failure only when the password is a string.
  When the user exists and the password is not a string, `bcrypt.compare`
  rejects. The awaited rejection escapes the query callback, and no
  response is sent (`Auth.LoginResult.CompareRejected`). The rejection is
  unhandled, so on Node 15 and later (default `--unhandled-rejections=throw`)
  the whole server process stops and later requests fail too; on older
  Node versions only a warning is logged. The model ends at this outcome
  and does not model the process.

## Model

| member | source | states |
|---|---|---|
| `Js.Truthy` | Beadando/index.js:97 | the `!x` test of the create guard, also used by the update guards and builder (index.js:163-196): a value is falsy exactly when it is undefined, null, false, 0 or the empty string; every object and array is truthy |
| `Js.ToJsString` | Beadando/index.js:106 | `String()` as `test` applies it: "undefined", "null", "true"/"false", the string itself, an object's or array's text, and for a number its decimal numeral, with a leading `-` when negative, whose digits read back as the number |
| `Js.Split` | Beadando/index.js:72 | `split(' ')` gives at least one piece, and no piece contains the separator |
| `Js.JoinSplit` | Beadando/index.js:72 | splitting the header on `' '` loses nothing: joining the pieces with `' '` gives the header back |
| `Js.SplitJoin` | Beadando/index.js:72 | pieces without a space, joined by spaces, split back into exactly those pieces |
| `DateRegex.Test` | Beadando/index.js:105-106 | `test` of a pattern anchored by `^` and `$`: a string can only match when it has exactly one character per atom |
| `DateRegex.TestDatePatternIsDateShaped` | Beadando/index.js:105-106 | the anchored regex accepts exactly the 10-character strings of four digits, `-`, two digits, `-`, two digits |
| `DateRegex.NumeralIsNotDateShaped` | Beadando/index.js:105-106 | the string form of a number, of any sign, never passes the format check |
| `DateRegex.DateShapedValueIsText` | Beadando/index.js:105-110 | only a string, or an object or array whose string form is a date, reaches the `Date` constructor |
| `Music.IsValidGenre` | Beadando/index.js:88 | `validGenres.includes(genre)` over the eight genres: only a non-empty string can be a valid genre, and a value of any other type never is, since `includes` does not convert |
| `Music.CheckCreate` | Beadando/index.js:95-113 | accepts exactly when all six fields are truthy, the genre is one of the eight strings, the date is date-shaped and parses; each failure gives the message of the first failing check, down to "Invalid date!" when the date does not parse; only strings or arrays/objects get through as dates |
| `Music.AssignedIffSupplied` | Beadando/index.js:174-197 | a column is in the SET list exactly when the body's property for it is truthy |
| `Music.AssignedEmptyIffNoField` | Beadando/index.js:163-165 | the SET list is empty exactly when all six properties are falsy |
| `Music.AssignedKeepsColumnOrder` | Beadando/index.js:174-197 | the SET list follows the fixed order title, artist, genre, duration, release_date, image_url, so no column repeats |
| `Music.CheckPatch` | Beadando/index.js:163-169 | rejects exactly when no field is supplied (with the no-field message) or a truthy genre is not in the list (with the genre message) |
| `Music.ColumnOfSetterText` | Beadando/index.js:175-196 | each `<column> = ?` text names the column it was pushed for |
| `Music.BuildUpdate` | Beadando/index.js:171-200 | `updates` and `values` move in lockstep: entry i of `values` is the body's value for the column that entry i of `updates` names; the id is pushed last, so `values` has one more entry |
| `Music.Patched` | Beadando/index.js:174-202 | the row an update leaves: each column takes the body's value when that value is truthy and keeps its own otherwise |
| `Music.PatchSkipsDateFormat` | Beadando/index.js:163-169 | every body with all fields present and a valid genre but a release date that is not date-shaped is refused by create with the date-format message and accepted by the update guards |
| `Music.PatchedByFullBody` | Beadando/index.js:174-197 | a body supplying every field replaces every column of the row |
| `Auth.BearerToken` | Beadando/index.js:72-74 | a token, when one is extracted, is non-empty and contains no space |
| `Auth.BearerTokenIsSecondPiece` | Beadando/index.js:72-74 | the token is exactly the non-empty text between the header's first space and its second space or end |
| `Auth.SchemeIsNotChecked` | Beadando/index.js:72 | any space-free first word followed by a space and a token yields that token |
| `Auth.VerifyToken` | Beadando/index.js:71-86 | 403 exactly when no token is extracted, 401 exactly when the verifier refuses it, and only otherwise the decoded identity is attached and the handler runs |
| `Auth.NoTokenNoVerification` | Beadando/index.js:74-78 | without a token the outcome does not depend on the verifier |
| `Auth.Login` | Beadando/index.js:49-68 | answers 200 exactly when the query found a user and the password matches, with a token signed over exactly that user's id and username; every other answer is the one 400; a non-string password for an existing user gets no answer |
| `Auth.LoginFailuresAreIndistinguishable` | Beadando/index.js:53-63 | a failed query, an unknown username and a wrong password give the identical response |
| `Store.AtMostOneMatch` | Beadando/index.js:143-155 | at most one row matches an id parameter |
| `Store.Insert` | Beadando/index.js:115-127 | the insert succeeds unless the database fails, and then adds exactly the new row |
| `Store.Update` | Beadando/index.js:199-202 | a successful update keeps the set of ids and reports the number of rows the id parameter matches |
| `Store.Delete` | Beadando/index.js:219-220 | a successful delete removes exactly the matching rows and reports how many |
| `Store.SelectById` | Beadando/index.js:143-145 | the query returns the matching rows, at most one, each with its stored columns |
| `Store.PatchedTable` | Beadando/index.js:199-202 | the table an update leaves: the same ids, every row the id does not name unchanged, and the named row patched |
| `Store.ParseSetClausesOfSetClauses` | Beadando/index.js:174-199 | the SET list built for a list of columns reads back as those columns |
| `Store.AssignBoundValues` | Beadando/index.js:199-202 | applying the built assignments sets each listed column to the body's value and leaves every other column alone |
| `Store.UpdateOfBuiltStatement` | Beadando/index.js:171-212 | the statement built for a body that supplies a field fails only when the database does; otherwise it patches the row the id names and leaves all other rows unchanged |
| `Routes.WriteOutcome` | Beadando/index.js:202-212 | a database error gives 500 "An error occurred in the database.", zero affected rows 404 "Music not found for the given ID.", otherwise the success text with status 200 |
| `Routes.FirstRowResponse` | Beadando/index.js:145-156 | a query error gives 500 "An error occurred.", no rows 404 "Music not found.", otherwise the first row as JSON |
| `Routes.PostMusic` | Beadando/index.js:94-128 | the middleware's answer when it refuses; 400 with the first failing check's message; 500 "An error occurred in the database." on a database error; 201 exactly when everything passes, and then the table gains exactly the body as the new row |
| `Routes.GetMusic` | Beadando/index.js:141-157 | 500 "An error occurred." on a database error, 404 "Music not found." exactly when no row matches, otherwise a matching row with its stored columns |
| `Routes.PatchMusic` | Beadando/index.js:159-214 | the middleware's answer, or 400 exactly when the guards reject, 500 "An error occurred in the database." exactly on a database error, 404 "Music not found for the given ID." exactly when no row matches; on 200 the matching row takes the supplied columns and nothing else changes; on any other status the table is unchanged |
| `Routes.DeleteMusic` | Beadando/index.js:216-232 | the middleware's answer, or 500 "An error occurred in the database." on a database error, 404 "Music not found for the given ID." exactly when no row matches, otherwise 200 with the matching row removed |
| `Routes.DeleteThenGetIsNotFound` | Beadando/index.js:219-231 | after a successful delete, fetching the same id gives 404 |
| `Routes.DeleteRemovesOnlyThatRow` | Beadando/index.js:219-231 | a successful delete removes exactly one row and keeps every other row as it was |
| `Routes.CreateKeepsCatalogued` | Beadando/index.js:97-127 | if every stored row is one create accepts, that stays true after any create request |
| `Routes.DeleteKeepsCatalogued` | Beadando/index.js:216-232 | if every stored row is one create accepts, that stays true after any delete request |
| `Routes.PatchKeepsGenresValid` | Beadando/index.js:167-184 | an accepted update keeps every stored genre in the list |
| `Routes.PatchCanUncatalogue` | Beadando/index.js:163-200 | for every table, existing id and body that create refuses only for its date format, the update guards accept the body and the patched table holds a row create refuses |

## Left out

- Registration (`POST /register`), listing (`GET /music`), the newest podcast episodes (`GET /newepisodes`) and `GET /` are not part of this model.
  - Registration checks only that username and password are truthy (400 "Username and password are required", index.js:33-35). As in login, a password that is not a string makes `bcrypt.hash` reject, and no response is sent (index.js:37). Otherwise a failed insert gives 500 and a successful one 201.
  - Listing and the newest episodes have no decision beyond "database error gives 500". Their `ORDER BY … LIMIT 10` is the database's work.
  - `GET /` answers a fixed text and uses no database.
- The MySQL connection and the SQL text. The update's `query` string (`updates` joined with `", "`) is not built. The table model reads the `updates` list directly.
- Store.KeyMatches: a row matches the path parameter only when its id's canonical numeral equals the parameter. MySQL's looser string-to-number comparison (`"01"`, `"1abc"`) is not modelled.
- Store.Insert: the auto-increment id is a parameter. MySQL's coercion of stored values to column types (for example a non-numeric duration) is covered only by the `fails` flag.
- Password hashing and comparison (bcrypt, work factor 10), token signing and verification (jsonwebtoken, including the one-hour expiry and the `iat`/`exp` claims), and `new Date(...)` parsing are parameters, not implementations. They are foreign code, and the Date parse depends on the engine and floating-point time.
- Login: a `jwt.sign` failure (for example an unset secret) is not modelled.
- Js.Value: `String(v)` of an object is taken to give a text. A JSON object whose own `toString` is not callable (`{"toString": 1}`) makes the date check throw a TypeError, which Express answers with 500. The model has no such outcome and gives 400 "Invalid date format!" instead.
- Js.Value: JSON numbers are integers here. Fractions are not modelled. Exponent notation for magnitudes of at least 10^21 is not modelled either, and it would not change any outcome, since such a string is not date-shaped either.
- Express routing, body-parser, cors, dotenv, `app.listen`, console logging, and the asynchronous ordering of callbacks. Each request is modelled as one call from request to response.
- Auth.Login: the process-level effect of `CompareRejected` (an unhandled rejection that stops the server on Node 15 and later, and only logs a warning before that) is not modelled; requests are modelled as independent of one another.
