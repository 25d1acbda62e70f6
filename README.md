# BookSwap backend rules in Dafny

This project models the business rules of the BookSwap backend, a peer-to-peer
book exchange. Users list books, and other users send swap requests for them.
The in-memory classes stand in for the document database:

- **Request ledger** (`requests.dfy`, `request_model.dfy`). Creating a swap
  request runs an ordered chain of checks:
  1. `bookId` and `message` are given;
  2. the book exists;
  3. the caller does not own it;
  4. the caller has no active (pending or accepted) request for it.

  Only then is one pending request appended, with the book's owner as seller.
  The incoming and outgoing lists are a filter on seller or requester,
  ordered newest first.
- **Book catalogue** (`books.dfy`). It covers listing all books, lookup by id
  and adding a book with its defaults. Updating and deleting are allowed only
  for the book's owner. The update merge has two rules: text fields are
  replaced by truthy values only; price, availability and image are replaced
  by any value that is not `undefined`.
- **Bearer gate** (`auth.dfy`). This is the middleware that reads the
  `Authorization` header. It requires the `Bearer ` prefix, takes the token
  as the second space-separated part, verifies it, and then either answers
  401 or passes the caller on.

Shared pieces:
- `values.dfy` holds JavaScript values and truthiness.
- `listing.dfy` holds the filter and the newest-first sort.
- `wrappers.dfy` holds `Option` and `Result`.
- `scenario.dfy` is a client that walks through the flows using only the
  contracts.

Request bodies are modelled as JavaScript values (`undefined`, `null`,
booleans, numbers, strings). This is because the controllers decide on
truthiness and on `!== undefined`, and never on types. Some things are
supplied from outside:
- the database assigns ids, and the model takes them as parameters that must
  not already be in use;
- the clock gives timestamps, also taken as parameters;
- the upload middleware gives the uploaded file's name;
- token verification (`jwt.verify` under the server secret) is a function
  parameter `verify` that returns the decoded payload or nothing.

A duplicate active request is answered with 400, like the other rejections.
The result type still gives it its own constructor, `Duplicate`.

## Model

| member | source | states |
|---|---|---|
| `RequestModel.CastStatus` | backend/models/Request.js:28-32 | a missing status becomes `pending`; a stored status is always one of the four enumeration names |
| `RequestModel.CastStatusRoundTrip` | backend/models/Request.js:30 | each status's name reads back as that status, and the four names are distinct |
| `RequestModel.NewRequest` | backend/models/Request.js:5-37 | a document is accepted exactly when `message` is present and the status is valid; the stored request then conforms and keeps the given book, seller, requester, message and optional contact details, with both timestamps set |
| `RequestModel.TruthyIsPresent` | backend/models/Request.js:23-26 | a message the controller accepts as given always satisfies the schema's required `message` |
| `Requests.HasActive` | backend/controllers/requestController.js:28-32 | true exactly when some stored request has that book and requester and is pending or accepted |
| `Requests.Decide` | backend/controllers/requestController.js:12-48 | the checks run in a fixed order and the first failure wins: missing `bookId`/`message` gives 400, an unknown book 404, the owner asking 400, an active duplicate 400; otherwise the created request is pending, has the book's owner as seller, the caller as requester, the given message, and contact details or `''` |
| `Requests.Ledger.CreateRequest` | backend/controllers/requestController.js:6-48 | answers as `Decide` does; a rejected call leaves the store unchanged; a successful one appends exactly the new request; the ledger invariant is preserved |
| `Requests.CreateKeepsInvariant` | backend/controllers/requestController.js:23-48 | after a creation, ids are still unique, there is still at most one active request per book and requester, and no request has its seller as requester |
| `Requests.InactiveDoNotBlock` | backend/controllers/requestController.js:28-36 | only active requests matter: creation answers the same on the whole store as on its pending and accepted requests alone, so declined and cancelled ones anywhere in the store never block, and a user may ask again after a refusal or a cancellation |
| `Requests.Incoming` | backend/controllers/requestController.js:71-76 | exactly the requests whose seller is the user, with their multiplicities, ordered by creation time, newest first |
| `Requests.Outgoing` | backend/controllers/requestController.js:88-93 | exactly the requests whose requester is the user, with their multiplicities, ordered by creation time, newest first |
| `Requests.InboxesDisjoint` | backend/controllers/requestController.js:23-25 | under the ledger invariant, no request is in both the incoming and the outgoing list of the same user |
| `Requests.CreatedIsListed` | backend/controllers/requestController.js:39-48 | a created request shows up in its seller's incoming list and in its requester's outgoing list |
| `Books.IndexOf` | backend/controllers/bookController.js:23 | the position of the first book with the id, or none exactly when no book has it |
| `Books.FindBook` | backend/controllers/bookController.js:23-30 | lookup by id gives a stored book with that id, or not-found exactly when there is none; with unique ids it is the one book with that id |
| `Books.AllBooks` | backend/controllers/bookController.js:9-12 | every book, each as often as stored, ordered newest first |
| `Books.Merge` | backend/controllers/bookController.js:109-116 | title, author, description, genre and condition change only to a truthy value; price, availability and image change to any value that is not `undefined` (so `0` and `null` apply); id, owner and timestamp never change |
| `Books.MergeWellFormed` | backend/controllers/bookController.js:109-116 | an update keeps title, author and condition truthy and price, availability and image defined |
| `Books.MergeIdempotent` | backend/controllers/bookController.js:109-116 | applying the same update twice equals applying it once |
| `Books.MergeNothing` | backend/controllers/bookController.js:109-116 | an update that sends no fields leaves the book unchanged |
| `Books.Without` | backend/controllers/bookController.js:149 | deletion removes the books with that id and keeps every other book; with unique ids it removes exactly one book when the id is present |
| `Books.Catalogue.AddBook` | backend/controllers/bookController.js:48-73 | a falsy title, author or condition, or an undefined price, is rejected with nothing added; otherwise exactly one book is appended, owned by the caller, available by default, with `/uploads/<file>` as image when a file was sent and `null` otherwise |
| `Books.Catalogue.UpdateBook` | backend/controllers/bookController.js:96-118 | not-found when the id is unknown, forbidden when the caller is not the owner, and the store unchanged in both cases; otherwise only that book changes, to its merge with the body |
| `Books.Catalogue.DeleteBook` | backend/controllers/bookController.js:137-152 | not-found, then forbidden for a non-owner, with the store unchanged; otherwise exactly that book is removed and the rest are kept |
| `AuthGate.Split` | backend/middleware/authMiddleware.js:19 | JavaScript `split` on one character: at least one part, and no part contains the separator |
| `AuthGate.JoinSplit` | backend/middleware/authMiddleware.js:19 | joining the parts with the separator gives back the header |
| `AuthGate.Word` | backend/middleware/authMiddleware.js:19 | the longest prefix without a space |
| `AuthGate.TokenValue` | backend/middleware/authMiddleware.js:19 | `split(' ')[1]` exists exactly when the header contains a space, and it never contains one |
| `AuthGate.BearerToken` | backend/middleware/authMiddleware.js:14-19 | after the `Bearer ` prefix, the second part of the split is the first word of the rest |
| `AuthGate.Authenticate` | backend/middleware/authMiddleware.js:4-35 | a missing or empty header, a header without the `Bearer ` prefix, an empty token and a failed verification each give 401 with their own message; the caller is passed on, as the payload's `user`, exactly when the prefix is there, the token is non-empty and verification succeeds |
| `AuthGate.BareBearerIsRefused` | backend/middleware/authMiddleware.js:21-23 | the header `Bearer ` alone is refused as a missing token value |
| `AuthGate.DoubleSpaceIsRefused` | backend/middleware/authMiddleware.js:19-23 | a second space after `Bearer` makes the token the empty part, which is refused |

## Left out

- The request status update (`updateRequestStatus`) is listed in the exports
  at `backend/controllers/requestController.js:102-107` and routed at
  `backend/routes/requestRoutes.js:24`, but the controller file never defines
  it. As written, evaluating that export object throws a `ReferenceError`
  when the module loads. There is no handler, so there are no authorisation
  or transition rules to model. Statuses stay in the enumeration by
  construction of `RequestModel.Status`.
- Populating references for display (`.populate(...)`) is read-side
  formatting. The model returns the stored records.
- Storage failures, the 500 answers, and the 400 answers for malformed
  ObjectIds are not modelled: they come from database exceptions. In the
  model a truthy `bookId` that is not a string finds no book. The database
  would raise a cast error there instead.
- Mongoose casting of body values to the schema's types is not modelled, for
  example storing the number `5` as the string `"5"`. Stored fields keep the
  JavaScript value that was sent.
- JSON numbers are exact reals, so floating point and `NaN` are not modelled.
  Arrays and objects as body values are not modelled either.
- Concurrency is not modelled. Each operation is atomic and they run one
  after another. So the race between the duplicate check and the insert is
  not captured.
- Ids, timestamps, the uploaded file name and token verification are
  parameters. Password hashing, token signing and Google sign-in are not part
  of this model. Neither is the upload middleware's storage and file-type
  check.
- Routing and wiring are not part of this model. This includes the order in
  which middleware runs and the import of `controllers/auth` as middleware at
  `backend/routes/requestRoutes.js:4`. The ledger takes the authenticated
  caller's id as a parameter. A payload without `user`, which would make
  `req.user.id` fail in a handler, is passed on by the gate as
  `Authorized(None)` and goes no further.
- `Requests.Incoming`, `Requests.Outgoing`, `Books.AllBooks`: when two
  records have the same creation time, the contract lets them appear in
  either order. The database does not fix an order for ties either.
- The frontend is not part of this model.
- `Books.AllBooks`: the newest-first order is what the controller asks for
  at `backend/controllers/bookController.js:11`, not what the program
  returns. The book schema at `backend/models/Book.js:3-13` has no
  `timestamps` option, so stored books have no `createdAt` and the sort has
  no key; the database returns books in its own order. The model follows the
  controller and gives each book a creation timestamp to sort by.
- `Books.Catalogue.AddBook`: the schema at `backend/models/Book.js:3-13`
  declares no `condition`, `price` or `imageUrl` path, so under the database
  library's default strict mode those three fields are not saved. The model
  follows the controller's field set, not the schema, and stores them.
- `Books.Catalogue.UpdateBook`: for the same reason, the assignments to
  `condition`, `price` and `imageUrl` at
  `backend/controllers/bookController.js:113-116` are not saved under the
  schema as written. The model follows the controller and stores them.
