# Blog post handler — a Dafny model

This project models the serverless request handler of a small blog
(`exports.lambda_handler` in `lambda_function.js`) and proves what it promises.
The handler answers the CORS preflight for `OPTIONS`. For `POST` it parses the body,
builds a post with `||` defaults, and writes it to the `BlogPosts` table with `put`.
For any other method it scans the table and answers with the posts sorted
newest first. Anything thrown on the way becomes a 500 answer carrying the error's
message. Every answer carries the same four CORS/JSON headers.

Modules:

- `Wrappers` (`wrappers.dfy`): `Option` and `Result`. `Failure` carries the message of a thrown error.
- `JsRuntime` (`js_runtime.dfy`): the JavaScript semantics the handler relies on. It defines
  parsed JSON values, truthiness, `x || d`, and property reads (reading from `null`
  throws a TypeError). It also defines `Number.prototype.toString` on integers, with
  its inverse `ParseInteger`, which states what a PostID encodes.
- `BlogTable` (`blog_table.dfy`): the `Post` record and the table. The table is a class
  holding a map keyed by PostID. `Put` inserts or replaces, and a failed put changes
  nothing. `Scan` lists every item exactly once, in an order the store chooses.
- `LambdaFunction` (`lambda_function.dfy`): events, responses, building the item, the
  in-place newest-first sort, the handler's specification `Handled`, the handler
  method, and the lemmas about it.

The handler is a method over a `Table` object, since `put` changes the table. It is
proved against `Handled`, a predicate over the table before, the request, the two
clock readings, the injected store fault, the response, and the table after. The
lemmas about `Handled` state the properties of each path.

Three behaviours of the code that are easy to misread:

- A field falls back to its default whenever the supplied value is falsy, not only when
  it is missing. So `author: ""` becomes `"Anonymous"`, a `0` title becomes `""`, and a
  truthy non-string value (a number, an object) is kept as it is.
- A store error's message is passed through as it is, and may be empty. A JSON SyntaxError's
  message is never empty: `Body.Malformed` carries a non-empty string.
- `dateCreated` is kept as the millisecond timestamp the comparator works on. The
  ISO-8601 text is not modelled.

## Model

| member | source | states |
|---|---|---|
| `LambdaFunction.LambdaHandler` | lambda_function.js:4-75 | The answer and the new table are related to the request, the clocks, the fault and the old table exactly as `Handled` describes. The table invariant (each item stored under its own PostID) is preserved. |
| `LambdaFunction.NewItem` | lambda_function.js:24-32 | Building succeeds exactly when the body parses to a non-null value. A malformed body fails with the parser's message. A null body fails with the TypeError for reading `title`. On success, each of title, content and author is the body's member when that is truthy and the default (`""`, `""`, `"Anonymous"`) otherwise. The author is never falsy. `dateCreated` is the second clock reading whatever the body says, and `comments` is empty. |
| `LambdaFunction.PostIdEncodesClock` | lambda_function.js:26 | A built item's PostID is non-empty and reads back as the first clock reading. |
| `LambdaFunction.PostIdsDiffer` | lambda_function.js:26 | Items built at different first clock readings have different PostIDs, so they occupy different keys of the table. |
| `LambdaFunction.SuppliedStringsKept` | lambda_function.js:27-29 | A body whose title, content and author are non-empty strings yields an item with exactly those three values. |
| `LambdaFunction.EmptyObjectGetsDefaults` | lambda_function.js:27-29 | The body `{}` yields title `""`, content `""` and author `"Anonymous"`. |
| `LambdaFunction.EmptyAuthorBecomesAnonymous` | lambda_function.js:29 | An empty-string author becomes `"Anonymous"`. |
| `LambdaFunction.SortNewestFirst` | lambda_function.js:59-61 | After the in-place sort the array is ordered by non-increasing `dateCreated` and is a permutation of what it held. |
| `LambdaFunction.PreflightAcknowledges` | lambda_function.js:14-20 | `OPTIONS` answers 200 with `{message: "OK"}` whatever the body and the store fault, and leaves the table unchanged. |
| `LambdaFunction.FixedHeaders` | lambda_function.js:7-12 | Every answer carries exactly the four fixed headers, and its status is 200, 201 or 500. |
| `LambdaFunction.FailureLeavesTableUnchanged` | lambda_function.js:64-73 | A 500 answer has `success: false` and the thrown message, which is either the store's error or the body's parse or null-read error. The table is unchanged. |
| `LambdaFunction.BadBodyIsNotWritten` | lambda_function.js:24-29 | A POST whose body is malformed or parses to null answers 500 with `success: false` and the SyntaxError or TypeError message, which is never empty, and nothing is put. |
| `LambdaFunction.OnlyCreationWrites` | lambda_function.js:34-46 | The table changes only on a 201 answer. A 201 comes only from a POST whose put succeeded, reports `success: true` and the built item, and the table afterwards is the old one with that item under its PostID. |
| `LambdaFunction.SuccessfulPostStoresItem` | lambda_function.js:34-46 | A POST of a non-null body with a working store answers 201 with the built item. That item is stored under its PostID, and every other key keeps its old item. |
| `LambdaFunction.ReadPathListsTable` | lambda_function.js:49-63 | Any method other than OPTIONS and POST leaves the table unchanged. With a working store it answers 200 with `success: true` and every stored post exactly once, newest first. If the scan fails, it answers 500 with the store's error. |
| `LambdaFunction.TwoPostsThenReadNewestFirst` | lambda_function.js:25-61 | Two successful POSTs into an empty table, at different first readings and with the second created later, followed by a GET: the GET lists the second post, then the first. |
| `LambdaFunction.DistinctPutsFillTable` | lambda_function.js:34-37 | Putting posts with pairwise distinct PostIDs one after the other into an empty table leaves as many keys as posts, the keys being exactly their PostIDs, and each post stored under its own PostID. |
| `LambdaFunction.PostRunFillsTable` | lambda_function.js:23-46 | After a run of POSTs from an empty table, with non-null bodies, pairwise distinct first readings and a working store, every answer is a 201. The table then holds exactly the posts created, one per key, each as reported. |
| `LambdaFunction.PostsThenReadListsThem` | lambda_function.js:23-63 | A GET right after such a run of N POSTs answers 200 with `success: true`. It lists exactly the N posts created, each as stored, newest first, and leaves the table unchanged. |
| `LambdaFunction.SameMillisecondOverwrites` | lambda_function.js:26-37 | Two POSTs into an empty table at the same first clock reading get the same PostID. The second put replaces the first post, so the table holds only the second. |
| `BlogTable.Table.Put` | lambda_function.js:34-37 | A put without fault stores the item under its PostID, replacing any item there. A faulty put reports the fault and changes nothing. |
| `BlogTable.Table.Scan` | lambda_function.js:50-52 | Without fault, the scan returns a listing of the table: one entry per key, each the item stored under it. With a fault, it returns the fault. |
| `BlogTable.ListingPermuted` | lambda_function.js:59 | Reordering a listing of a table yields a listing of the same table, so sorting the scanned items keeps them exactly the table's items. |
| `JsRuntime.NumberToString` | lambda_function.js:26 | The decimal text of a number is the canonical numeral. It starts with `-` exactly when the number is negative, and the rest is a non-empty run of decimal digits without a leading zero. |
| `JsRuntime.Digits` | lambda_function.js:26 | The numeral of a natural number is a non-empty string of decimal digits without a leading zero. |
| `JsRuntime.NumberToStringRoundTrip` | lambda_function.js:26 | Reading back the text `toString` writes gives the number again. |
| `JsRuntime.NumberToStringInjective` | lambda_function.js:26 | Distinct numbers have distinct decimal texts. |

## Left out

- The AWS SDK and the DynamoDB client are not modelled. The table is a map keyed by
  PostID, and a store failure is an injected message (`fault`). Table names, request
  options and `.promise()` are not modelled.
- Scan paging is not modelled. A real DynamoDB `scan` returns one page of at most 1 MB, and
  the handler ignores `LastEvaluatedKey`. So on a large table it would list only the
  first page. `Table.Scan` and `ReadPathListsTable` list the whole table because the
  table is modelled as a single map.
- `console.log` and `console.error` are not modelled: they are output only.
- JSON text is not modelled. `JSON.parse` is represented by its outcome (`Body`: the
  SyntaxError message or the parsed value). The response body is a structured
  `Payload` rather than the `JSON.stringify` text.
- JSON numbers are integers in the model. Fractions and floating-point rounding are not
  modelled. Truthiness depends only on whether a number is zero, and JSON.parse never
  yields NaN.
- Property reads model only an object's own members. The three keys the handler reads
  (`title`, `content`, `author`) name no built-in property of any JSON value's prototype.
- The clock is not modelled: `Date.now()` and `new Date()` are two integer parameters in
  milliseconds. `toISOString` and the `new Date(...)` parsing in the comparator are not
  modelled, since `dateCreated` stays the millisecond value. Invalid dates (NaN in the
  comparator) are not modelled.
- `NumberToString` covers integers only. Exponent notation (magnitudes of 10^21 and
  above) never arises for a clock reading and is not modelled.
- `SortNewestFirst` does not fix the relative order of posts with equal `dateCreated`.
  That order is unspecified, so the contract states only the ordering and the
  permutation.
- `event.httpMethod` is a string. A missing method compares unequal to `OPTIONS` and
  `POST`, like any other string, and takes the read path.
- The React front end (`App.js`, `AuthenticatedApp.js`, `Login.js`, `BlogPosts.js`) is
  not part of this model. It is presentation over a network call and an external
  identity provider.
