/**
 * The swap-request record: its fields, the status enumeration with its
 * default, and the schema's checks on a new document (required fields and
 * the enumeration), applied when a request is saved.
 */
module RequestModel {

  import opened Wrappers
  import opened JsValues

  /** The four values the schema's `status` enumeration admits. */
  datatype Status = Pending | Accepted | Declined | Cancelled

  /** The string a status is stored as. */
  function Name(st: Status): string
  {
    match st
    case Pending => "pending"
    case Accepted => "accepted"
    case Declined => "declined"
    case Cancelled => "cancelled"
  }

  /** A request is active while it is pending or accepted. */
  predicate IsActive(st: Status)
  {
    st == Pending || st == Accepted
  }

  /**
   * A stored request. `book`, `seller` and `requester` are references by id;
   * `createdAt` and `updatedAt` are the schema's automatic timestamps.
   */
  datatype Request = Request(
    id: Id,
    book: Id,
    seller: Id,
    requester: Id,
    message: Value,
    contactDetails: Value,
    status: Status,
    createdAt: int,
    updatedAt: int)

  /** The object handed to the model's constructor before it is saved. */
  datatype RequestDoc = RequestDoc(
    book: Id,
    seller: Id,
    requester: Id,
    message: Value,
    contactDetails: Value,
    status: Value)

  /** A required string path is satisfied by any value but a missing one, `null` or `""`. */
  predicate Present(v: Value)
  {
    v != Undefined && v != Null && v != Str("")
  }

  /** What the schema guarantees of every stored request. */
  predicate Conforms(q: Request)
  {
    Present(q.message)
  }

  /**
   * The status path: a missing value takes the default, anything else must be
   * one of the enumeration's strings.
   */
  function CastStatus(v: Value): (r: Result<Status, string>)
    ensures v == Undefined ==> r == Success(Pending)
    ensures r.Success? ==> v == Undefined || v == Str(Name(r.value))
  {
    match v
    case Undefined => Success(Pending)
    case Str(s) =>
      if s == "pending" then Success(Pending)
      else if s == "accepted" then Success(Accepted)
      else if s == "declined" then Success(Declined)
      else if s == "cancelled" then Success(Cancelled)
      else Failure("`" + s + "` is not a valid enum value for path `status`.")
    case _ => Failure("Path `status` is not a valid enum value.")
  }

  /** Each status's stored name reads back as that status, and no two statuses share a name. */
  lemma CastStatusRoundTrip(st: Status)
    ensures CastStatus(Str(Name(st))) == Success(st)
    ensures forall other: Status :: Name(other) == Name(st) ==> other == st
  {
    match st
    case Pending =>
    case Accepted => assert Name(st)[0] == 'a';
    case Declined => assert Name(st)[0] == 'd';
    case Cancelled => assert Name(st)[0] == 'c';
  }

  /**
   * Validation and construction of a new request document: `message` is
   * required, `status` defaults to pending and must lie in the enumeration,
   * `contactDetails` is optional. Both timestamps are set to `now`.
   */
  function NewRequest(id: Id, doc: RequestDoc, now: int): (r: Result<Request, string>)
    ensures r.Success? <==> Present(doc.message) && CastStatus(doc.status).Success?
    ensures r.Success? ==> Conforms(r.value)
    ensures r.Success? ==>
      r.value == Request(id, doc.book, doc.seller, doc.requester, doc.message,
                         doc.contactDetails, CastStatus(doc.status).value, now, now)
  {
    if !Present(doc.message) then Failure("Path `message` is required.")
    else
      match CastStatus(doc.status)
      case Failure(e) => Failure(e)
      case Success(st) =>
        Success(Request(id, doc.book, doc.seller, doc.requester, doc.message,
                        doc.contactDetails, st, now, now))
  }

  /** A value the controllers treat as given (truthy) always satisfies a required path. */
  lemma TruthyIsPresent(v: Value)
    ensures Truthy(v) ==> Present(v)
  {
  }
}
