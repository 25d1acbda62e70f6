/**
 * The book catalogue: listing, lookup, and the owner-only operations that add,
 * update and delete listings. The collection is held in memory by the class
 * `Catalogue`; each book remembers the user who listed it.
 */
module Books {

  import opened Wrappers
  import opened JsValues
  import opened Listing

  /**
   * A listing, with the fields the controller writes. `user` is the owner;
   * `createdAt` is the creation timestamp the listing is sorted by.
   */
  datatype Book = Book(
    id: Id,
    title: Value,
    author: Value,
    genre: Value,
    description: Value,
    condition: Value,
    price: Value,
    available: Value,
    imageUrl: Value,
    user: Id,
    createdAt: int)

  /** The fields a client may send when adding or updating a book. */
  datatype BookInput = BookInput(
    title: Value,
    author: Value,
    genre: Value,
    description: Value,
    condition: Value,
    price: Value,
    available: Value,
    imageUrl: Value)

  /** An update body that sends nothing. */
  const NoChanges := BookInput(Undefined, Undefined, Undefined, Undefined, Undefined,
                               Undefined, Undefined, Undefined)

  datatype AddReply = MissingFields | Added(book: Book)

  datatype EditReply = BookNotFound | NotOwner | Updated(book: Book) | Deleted

  function CreatedAt(b: Book): int { b.createdAt }

  /**
   * What every stored book satisfies: title, author and condition were given
   * (truthy) when it was added and can only be replaced by truthy values;
   * price, availability and image were set and can only be replaced by values
   * that are not `undefined`.
   */
  predicate WellFormed(b: Book)
  {
    && Truthy(b.title) && Truthy(b.author) && Truthy(b.condition)
    && b.price != Undefined && b.available != Undefined && b.imageUrl != Undefined
  }

  predicate UniqueIds(books: seq<Book>)
  {
    forall i, j :: 0 <= i < j < |books| ==> books[i].id != books[j].id
  }

  /** The position of the book with id `id`, the first one if there were several. */
  function IndexOf(books: seq<Book>, id: Id): (r: Option<nat>)
    ensures r.Some? ==> r.value < |books| && books[r.value].id == id
    ensures r.Some? ==> forall j :: 0 <= j < r.value ==> books[j].id != id
    ensures r.None? <==> forall j :: 0 <= j < |books| ==> books[j].id != id
  {
    if books == [] then None
    else if books[0].id == id then Some(0)
    else
      match IndexOf(books[1..], id)
      case None => None
      case Some(k) => Some(k + 1)
  }

  /** `Book.findById(id)`: the book with that id, or nothing when there is none. */
  function FindBook(books: seq<Book>, id: Id): (r: Option<Book>)
    ensures r.Some? ==> r.value in books && r.value.id == id
    ensures r.None? <==> forall j :: 0 <= j < |books| ==> books[j].id != id
    ensures UniqueIds(books) ==> forall b :: b in books && b.id == id ==> r == Some(b)
  {
    match IndexOf(books, id)
    case None => None
    case Some(i) => Some(books[i])
  }

  /** The list answered to `GET /api/books`: every book, newest first. */
  function AllBooks(books: seq<Book>): (r: seq<Book>)
    ensures multiset(r) == multiset(books)
    ensures NewestFirst(r, CreatedAt)
  {
    SortNewestFirst(books, CreatedAt)
  }

  /** `if (x) field = x`: a falsy value leaves the field as it was. */
  function IfTruthy(given: Value, current: Value): Value
  {
    if Truthy(given) then given else current
  }

  /** `if (x !== undefined) field = x`: even `null`, `0`, `false` and `""` are applied. */
  function IfDefined(given: Value, current: Value): Value
  {
    if given != Undefined then given else current
  }

  /**
   * The book after an update body is merged into it. Title, author,
   * description, genre and condition take the new value only when it is
   * truthy; price, availability and image take it whenever it is not
   * `undefined`; the id, the owner and the timestamp never change.
   */
  function Merge(b: Book, u: BookInput): (r: Book)
    ensures r.id == b.id && r.user == b.user && r.createdAt == b.createdAt
    ensures r.title == (if Truthy(u.title) then u.title else b.title)
    ensures r.author == (if Truthy(u.author) then u.author else b.author)
    ensures r.description == (if Truthy(u.description) then u.description else b.description)
    ensures r.genre == (if Truthy(u.genre) then u.genre else b.genre)
    ensures r.condition == (if Truthy(u.condition) then u.condition else b.condition)
    ensures r.price == (if u.price == Undefined then b.price else u.price)
    ensures r.available == (if u.available == Undefined then b.available else u.available)
    ensures r.imageUrl == (if u.imageUrl == Undefined then b.imageUrl else u.imageUrl)
  {
    b.(title := IfTruthy(u.title, b.title),
       author := IfTruthy(u.author, b.author),
       description := IfTruthy(u.description, b.description),
       genre := IfTruthy(u.genre, b.genre),
       condition := IfTruthy(u.condition, b.condition),
       price := IfDefined(u.price, b.price),
       available := IfDefined(u.available, b.available),
       imageUrl := IfDefined(u.imageUrl, b.imageUrl))
  }

  /** An update never breaks what stored books satisfy. */
  lemma MergeWellFormed(b: Book, u: BookInput)
    requires WellFormed(b)
    ensures WellFormed(Merge(b, u))
  {
  }

  /** Applying the same update twice is the same as applying it once. */
  lemma MergeIdempotent(b: Book, u: BookInput)
    ensures Merge(Merge(b, u), u) == Merge(b, u)
  {
  }

  /** An empty update body leaves the book as it was. */
  lemma MergeNothing(b: Book)
    ensures Merge(b, NoChanges) == b
  {
  }

  /** `Book.findByIdAndDelete(id)`: the collection without the book of that id. */
  function Without(books: seq<Book>, id: Id): (r: seq<Book>)
    ensures forall b :: b in r <==> b in books && b.id != id
    ensures (forall j :: 0 <= j < |books| ==> books[j].id != id) ==> r == books
    ensures UniqueIds(books) ==> UniqueIds(r)
    ensures UniqueIds(books) && (exists j :: 0 <= j < |books| && books[j].id == id) ==>
      |r| == |books| - 1
  {
    if books == [] then []
    else if books[0].id == id then Without(books[1..], id)
    else [books[0]] + Without(books[1..], id)
  }

  /** Replacing a book by a well-formed one with the same id keeps the collection valid. */
  lemma ReplaceKeepsValid(books: seq<Book>, i: nat, b: Book)
    requires i < |books| && UniqueIds(books) && forall k :: 0 <= k < |books| ==> WellFormed(books[k])
    requires b.id == books[i].id && WellFormed(b)
    ensures var r := books[i := b]; UniqueIds(r) && forall k :: 0 <= k < |r| ==> WellFormed(r[k])
  {
  }

  class Catalogue {

    var books: seq<Book>

    ghost predicate Valid()
      reads this
    {
      UniqueIds(books) && forall i :: 0 <= i < |books| ==> WellFormed(books[i])
    }

    constructor ()
      ensures Valid() && books == []
    {
      books := [];
    }

    /**
     * `POST /api/books`: title, author and condition must be truthy and price
     * must be given. `file` is the name of the uploaded image, if any;
     * `newId` and `now` are the id and timestamp the database assigns.
     */
    method AddBook(input: BookInput, file: Option<string>, userId: Id, newId: Id, now: int)
      returns (r: AddReply)
      requires Valid()
      requires forall j :: 0 <= j < |books| ==> books[j].id != newId
      modifies this
      ensures Valid()
      ensures r == MissingFields <==>
        !Truthy(input.title) || !Truthy(input.author) || !Truthy(input.condition) ||
        input.price == Undefined
      ensures r == MissingFields ==> books == old(books)
      ensures r.Added? ==> books == old(books) + [r.book]
      ensures r.Added? ==>
        r.book == Book(newId, input.title, input.author, input.genre, input.description,
                       input.condition, input.price,
                       if input.available != Undefined then input.available else Bool(true),
                       if file.Some? then Str("/uploads/" + file.value) else Null,
                       userId, now)
    {
      if !Truthy(input.title) || !Truthy(input.author) || !Truthy(input.condition) ||
         input.price == Undefined
      {
        return MissingFields;
      }
      var imageUrl := Null;
      if file.Some? {
        imageUrl := Str("/uploads/" + file.value);
      }
      var book := Book(newId, input.title, input.author, input.genre, input.description,
                       input.condition, input.price,
                       if input.available != Undefined then input.available else Bool(true),
                       imageUrl, userId, now);
      books := books + [book];
      r := Added(book);
    }

    /**
     * `PUT /api/books/:id`: the book must exist and belong to `userId`; the
     * fields of `input` are then merged into it one at a time.
     */
    method UpdateBook(bookId: Id, input: BookInput, userId: Id) returns (r: EditReply)
      requires Valid()
      modifies this
      ensures Valid()
      ensures r == BookNotFound <==> FindBook(old(books), bookId).None?
      ensures r == NotOwner <==>
        FindBook(old(books), bookId).Some? && FindBook(old(books), bookId).value.user != userId
      ensures !r.Updated? ==> books == old(books)
      ensures r.Updated? ==>
        && IndexOf(old(books), bookId).Some?
        && var i := IndexOf(old(books), bookId).value;
        && r.book == Merge(old(books)[i], input)
        && books == old(books)[i := r.book]
      ensures r != Deleted
    {
      var found := IndexOf(books, bookId);
      if found.None? {
        return BookNotFound;
      }
      var i := found.value;
      var book := books[i];
      if book.user != userId {
        return NotOwner;
      }
      var title, author, description, genre, condition :=
        book.title, book.author, book.description, book.genre, book.condition;
      var price, available, imageUrl := book.price, book.available, book.imageUrl;
      if Truthy(input.title) { title := input.title; }
      if Truthy(input.author) { author := input.author; }
      if Truthy(input.description) { description := input.description; }
      if Truthy(input.genre) { genre := input.genre; }
      if Truthy(input.condition) { condition := input.condition; }
      if input.price != Undefined { price := input.price; }
      if input.available != Undefined { available := input.available; }
      if input.imageUrl != Undefined { imageUrl := input.imageUrl; }
      book := book.(title := title, author := author, description := description, genre := genre,
                    condition := condition, price := price, available := available,
                    imageUrl := imageUrl);
      assert book == Merge(books[i], input);
      MergeWellFormed(books[i], input);
      ReplaceKeepsValid(books, i, book);
      books := books[i := book];
      r := Updated(book);
    }

    /** `DELETE /api/books/:id`: the book must exist and belong to `userId`. */
    method DeleteBook(bookId: Id, userId: Id) returns (r: EditReply)
      requires Valid()
      modifies this
      ensures Valid()
      ensures r == BookNotFound <==> FindBook(old(books), bookId).None?
      ensures r == NotOwner <==>
        FindBook(old(books), bookId).Some? && FindBook(old(books), bookId).value.user != userId
      ensures r != Deleted ==> books == old(books)
      ensures r == Deleted ==> books == Without(old(books), bookId)
      ensures r == Deleted ==> |books| == |old(books)| - 1
      ensures !r.Updated?
    {
      var found := FindBook(books, bookId);
      if found.None? {
        return BookNotFound;
      }
      if found.value.user != userId {
        return NotOwner;
      }
      books := Without(books, bookId);
      r := Deleted;
    }
  }
}
