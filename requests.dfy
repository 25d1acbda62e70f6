/**
 * The swap-request ledger: creating a request for another user's book, and
 * the two lists a user sees, requests for their own books (incoming) and
 * requests they made (outgoing). Requests are held in memory by `Ledger`;
 * books are looked up in a `Books.Catalogue`.
 */
module Requests {

  import opened Wrappers
  import opened JsValues
  import opened Listing
  import opened RequestModel
  import Books

  /** The body of `POST /api/requests`. */
  datatype CreateBody = CreateBody(bookId: Value, message: Value, contactDetails: Value)

  /** The answer to `POST /api/requests`, one constructor per branch of the handler. */
  datatype CreateOutcome = BadRequest | NotFound | SelfRequest | Duplicate | Created(request: Request)
  {
    /** The HTTP status of the answer. */
    function Code(): int
    {
      match this
      case BadRequest => 400
      case NotFound => 404
      case SelfRequest => 400
      case Duplicate => 400
      case Created(_) => 201
    }
  }

  function CreatedAt(q: Request): int { q.createdAt }

  /** The book a body's `bookId` names, if any. */
  function BookFor(books: seq<Books.Book>, bookId: Value): (r: Option<Books.Book>)
    ensures r.Some? ==> AsId(bookId).Some? && r.value in books && r.value.id == AsId(bookId).value
    ensures r.None? <==> AsId(bookId).None? || Books.FindBook(books, AsId(bookId).value).None?
  {
    match AsId(bookId)
    case None => None
    case Some(id) => Books.FindBook(books, id)
  }

  /** `Request.findOne({ book, requester, status: { $in: ['pending', 'accepted'] } })` finds something. */
  function HasActive(requests: seq<Request>, book: Id, requester: Id): (b: bool)
    ensures b <==> exists i :: 0 <= i < |requests| && requests[i].book == book &&
                              requests[i].requester == requester && IsActive(requests[i].status)
  {
    if requests == [] then false
    else
      (requests[0].book == book && requests[0].requester == requester && IsActive(requests[0].status))
      || HasActive(requests[1..], book, requester)
  }

  /**
   * What creating a request answers, given the books and requests stored
   * before the call. The checks run in order and the first failing one
   * decides: both `bookId` and `message` given, then the book exists, then
   * the caller does not own it, then the caller has no active request for it.
   * Only when every check passes is a request made: pending, sold by the
   * book's owner, with contact details defaulting to the empty string.
   */
  function Decide(books: seq<Books.Book>, requests: seq<Request>, body: CreateBody,
                  requesterId: Id, newId: Id, now: int): (r: CreateOutcome)
    ensures r == BadRequest <==> !Truthy(body.bookId) || !Truthy(body.message)
    ensures r == NotFound <==>
      Truthy(body.bookId) && Truthy(body.message) && BookFor(books, body.bookId).None?
    ensures r == SelfRequest <==>
      && Truthy(body.bookId) && Truthy(body.message) && BookFor(books, body.bookId).Some?
      && BookFor(books, body.bookId).value.user == requesterId
    ensures r == Duplicate <==>
      && Truthy(body.bookId) && Truthy(body.message) && BookFor(books, body.bookId).Some?
      && BookFor(books, body.bookId).value.user != requesterId
      && HasActive(requests, BookFor(books, body.bookId).value.id, requesterId)
    ensures r.Created? ==>
      && BookFor(books, body.bookId).Some?
      && var book := BookFor(books, body.bookId).value;
      && r.request == Request(newId, book.id, book.user, requesterId, body.message,
                              Or(body.contactDetails, Str("")), Pending, now, now)
      && r.request.seller != r.request.requester
      && Conforms(r.request)
  {
    if !Truthy(body.bookId) || !Truthy(body.message) then BadRequest
    else
      match BookFor(books, body.bookId)
      case None => NotFound
      case Some(book) =>
        if book.user == requesterId then SelfRequest
        else if HasActive(requests, book.id, requesterId) then Duplicate
        else
          var doc := RequestDoc(book.id, book.user, requesterId, body.message,
                                Or(body.contactDetails, Str("")), Str("pending"));
          CastStatusRoundTrip(Pending);
          TruthyIsPresent(body.message);
          assert NewRequest(newId, doc, now).Success?;
          Created(NewRequest(newId, doc, now).value)
  }

  /**
   * `GET /api/requests/incoming`: exactly the requests whose seller is `userId`,
   * each once per occurrence in the store, newest first.
   */
  function Incoming(requests: seq<Request>, userId: Id): (r: seq<Request>)
    ensures forall q :: multiset(r)[q] == if q.seller == userId then multiset(requests)[q] else 0
    ensures forall q :: q in r <==> q in requests && q.seller == userId
    ensures NewestFirst(r, CreatedAt)
  {
    SortNewestFirst(Keep(requests, (q: Request) => q.seller == userId), CreatedAt)
  }

  /**
   * `GET /api/requests/outgoing`: exactly the requests whose requester is
   * `userId`, each once per occurrence in the store, newest first.
   */
  function Outgoing(requests: seq<Request>, userId: Id): (r: seq<Request>)
    ensures forall q :: multiset(r)[q] == if q.requester == userId then multiset(requests)[q] else 0
    ensures forall q :: q in r <==> q in requests && q.requester == userId
    ensures NewestFirst(r, CreatedAt)
  {
    SortNewestFirst(Keep(requests, (q: Request) => q.requester == userId), CreatedAt)
  }

  /** No two requests share an id. */
  predicate UniqueIds(requests: seq<Request>)
  {
    forall i, j :: 0 <= i < j < |requests| ==> requests[i].id != requests[j].id
  }

  /** At most one active request per book and requester. */
  predicate AtMostOneActive(requests: seq<Request>)
  {
    forall i, j :: 0 <= i < j < |requests| && requests[i].book == requests[j].book &&
                   requests[i].requester == requests[j].requester ==>
                   !(IsActive(requests[i].status) && IsActive(requests[j].status))
  }

  /** What holds of the stored requests between calls. */
  predicate LedgerInvariant(requests: seq<Request>)
  {
    && UniqueIds(requests)
    && AtMostOneActive(requests)
    && forall i :: 0 <= i < |requests| ==>
         Conforms(requests[i]) && requests[i].seller != requests[i].requester
  }

  /** Creating a request keeps the ledger's invariant. */
  lemma CreateKeepsInvariant(books: seq<Books.Book>, requests: seq<Request>, body: CreateBody,
                             requesterId: Id, newId: Id, now: int)
    requires LedgerInvariant(requests)
    requires forall i :: 0 <= i < |requests| ==> requests[i].id != newId
    ensures var r := Decide(books, requests, body, requesterId, newId, now);
      r.Created? ==> LedgerInvariant(requests + [r.request])
  {
  }

  /**
   * Only active requests matter: creation answers the same on the whole
   * store as on its pending and accepted requests alone, so declined and
   * cancelled requests, wherever they are stored, never block a new one.
   */
  lemma {:induction false} InactiveDoNotBlock(books: seq<Books.Book>, requests: seq<Request>,
                                               body: CreateBody, requesterId: Id, newId: Id, now: int)
    ensures Decide(books, requests, body, requesterId, newId, now) ==
            Decide(books, Keep(requests, (q: Request) => IsActive(q.status)), body, requesterId, newId, now)
  {
    var active := Keep(requests, (q: Request) => IsActive(q.status));
    forall book: Id, requester: Id
      ensures HasActive(requests, book, requester) == HasActive(active, book, requester)
    {
      if HasActive(requests, book, requester) {
        var i :| 0 <= i < |requests| && requests[i].book == book &&
                 requests[i].requester == requester && IsActive(requests[i].status);
        assert requests[i] in active;
        var j :| 0 <= j < |active| && active[j] == requests[i];
      }
      if HasActive(active, book, requester) {
        var j :| 0 <= j < |active| && active[j].book == book &&
                 active[j].requester == requester && IsActive(active[j].status);
        assert active[j] in requests;
        var i :| 0 <= i < |requests| && requests[i] == active[j];
      }
    }
  }

  /**
   * A user's incoming and outgoing lists never share a request, because no
   * stored request has the same seller and requester.
   */
  lemma InboxesDisjoint(requests: seq<Request>, userId: Id)
    requires LedgerInvariant(requests)
    ensures forall q :: q in Incoming(requests, userId) ==> q !in Outgoing(requests, userId)
  {
  }

  /** A new request appears in its seller's incoming list and its requester's outgoing list. */
  lemma CreatedIsListed(books: seq<Books.Book>, requests: seq<Request>, body: CreateBody,
                        requesterId: Id, newId: Id, now: int)
    ensures var r := Decide(books, requests, body, requesterId, newId, now);
      r.Created? ==>
        && r.request in Incoming(requests + [r.request], r.request.seller)
        && r.request in Outgoing(requests + [r.request], requesterId)
  {
  }

  class Ledger {

    var requests: seq<Request>

    ghost predicate Valid()
      reads this
    {
      LedgerInvariant(requests)
    }

    constructor ()
      ensures Valid() && requests == []
    {
      requests := [];
    }

    /**
     * `POST /api/requests` by the authenticated `requesterId`. `newId` and
     * `now` are the id and timestamp the database assigns to a new request.
     * A failed check leaves the store as it was; a passed one appends exactly
     * the created request.
     */
    method CreateRequest(catalogue: Books.Catalogue, body: CreateBody, requesterId: Id,
                         newId: Id, now: int) returns (r: CreateOutcome)
      requires Valid()
      requires forall i :: 0 <= i < |requests| ==> requests[i].id != newId
      modifies this
      ensures Valid()
      ensures r == Decide(catalogue.books, old(requests), body, requesterId, newId, now)
      ensures requests == if r.Created? then old(requests) + [r.request] else old(requests)
    {
      if !Truthy(body.bookId) || !Truthy(body.message) {
        return BadRequest;
      }
      var found := BookFor(catalogue.books, body.bookId);
      if found.None? {
        return NotFound;
      }
      var book := found.value;
      if book.user == requesterId {
        return SelfRequest;
      }
      if HasActive(requests, book.id, requesterId) {
        return Duplicate;
      }
      var doc := RequestDoc(book.id, book.user, requesterId, body.message,
                            Or(body.contactDetails, Str("")), Str("pending"));
      CastStatusRoundTrip(Pending);
      TruthyIsPresent(body.message);
      var built := NewRequest(newId, doc, now);
      r := Created(built.value);
      CreateKeepsInvariant(catalogue.books, requests, body, requesterId, newId, now);
      requests := requests + [r.request];
    }
  }
}
