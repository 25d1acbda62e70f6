/**
 * A client of the model: the listing and swap-request flows a user goes
 * through, with every answer derived from the operations' contracts alone.
 */
module Scenario {

  import opened Wrappers
  import opened JsValues
  import opened RequestModel
  import opened Requests
  import opened AuthGate
  import Books

  method SignIn()
  {
    // Carol's token is accepted; a header without the prefix is not.
    var verify := (t: string) => if t == "ct" then Some(Decoded(Some(Caller("carol")))) else None;
    var gate := Authenticate(Some("Bearer ct"), verify);
    assert Word("ct") == "ct";
    assert gate == Authorized(Some(Caller("carol")));
    gate := Authenticate(Some("ct"), verify);
    assert gate == Unauthorized("Token format is invalid");
  }

  /** Alice lists a book, so that other users can ask for it. */
  method ListBook() returns (catalogue: Books.Catalogue)
    ensures fresh(catalogue) && catalogue.Valid()
    ensures |catalogue.books| == 1 && catalogue.books[0].id == "b1"
    ensures catalogue.books[0].user == "alice" && catalogue.books[0].title == Str("Dune")
  {

    // Alice lists a book; a listing without a price is refused.
    catalogue := new Books.Catalogue();
    var input := Books.BookInput(Str("Dune"), Str("Herbert"), Undefined, Undefined, Str("good"),
                                 Num(5.0), Undefined, Undefined);
    var noPrice := catalogue.AddBook(input.(price := Undefined), None, "alice", "b1", 1);
    assert noPrice == Books.MissingFields && catalogue.books == [];
    var added := catalogue.AddBook(input, None, "alice", "b1", 1);
    assert added.Added? && added.book.available == Bool(true) && added.book.imageUrl == Null;

  }

  method RequestBook()
  {
    var catalogue := ListBook();
    // Carol asks for it; asking again while the first request is pending is refused.
    var ledger := new Ledger();
    assert BookFor(catalogue.books, Str("b1")) == Some(catalogue.books[0]);
    var first := ledger.CreateRequest(catalogue, CreateBody(Str("b1"), Str("interested"), Undefined),
                                      "carol", "r1", 2);
    assert first.Created?;
    assert first.request.status == Pending && first.request.seller == "alice";
    assert first.request.contactDetails == Str("");
    var again := ledger.CreateRequest(catalogue, CreateBody(Str("b1"), Str("still keen"), Undefined),
                                      "carol", "r2", 3);
    assert again == Duplicate && |ledger.requests| == 1;

  }

  method RefusedRequests()
  {
    var catalogue := ListBook();
    var ledger := new Ledger();
    assert BookFor(catalogue.books, Str("b1")) == Some(catalogue.books[0]);
    assert BookFor(catalogue.books, Str("b9")) == None;
    // Alice cannot ask for her own book; an empty message or an unknown book is refused.
    var own := ledger.CreateRequest(catalogue, CreateBody(Str("b1"), Str("mine"), Undefined),
                                    "alice", "r3", 4);
    assert own == SelfRequest;
    var empty := ledger.CreateRequest(catalogue, CreateBody(Str("b1"), Str(""), Undefined),
                                      "dave", "r4", 5);
    assert empty == BadRequest;
    var unknown := ledger.CreateRequest(catalogue, CreateBody(Str("b9"), Str("hi"), Undefined),
                                        "dave", "r5", 6);
    assert unknown == NotFound && ledger.requests == [];
  }

  method EditAndRemove()
  {
    var catalogue := ListBook();
    // Only Alice may change or remove her listing; an empty title is ignored, a zero price is not.
    var edit := catalogue.UpdateBook("b1", Books.NoChanges.(price := Num(0.0)), "carol");
    assert edit == Books.NotOwner;
    edit := catalogue.UpdateBook("b1", Books.NoChanges.(title := Str(""), price := Num(0.0)), "alice");
    assert edit.Updated? && edit.book.title == Str("Dune") && edit.book.price == Num(0.0);
    var removal := catalogue.DeleteBook("b1", "alice");
    assert removal == Books.Deleted && catalogue.books == [];
  }
}
