/**
  The book controller: turns identifier texts and JSON payloads into store
  operations and classifies failures as an invalid identifier or a missing
  book. Each operation returns the next store together with its outcome.
 */
module Controller {
  import opened Options
  import opened Json
  import opened Books
  import opened Database
  import opened IntText

  const InvalidIdMessage := "无效的书籍ID"
  const NotFoundMessage := "找不到指定的书籍"
  /** The prefix of the create failure message; the exception's text follows it. */
  const CreateFailedMessage := "创建书籍失败: "

  /**
    The outcome of a controller call: a value, an error message (Python's
    `(None, error)` pair), or an exception that escapes the call.
   */
  datatype Outcome<+T> = Done(value: T) | Failed(message: string) | Raised

  /** `get_all_books`: the dict form of every stored book, in store order. */
  function GetAllBooks(s: Store): (r: seq<map<string, Value>>)
    requires WellFormed(s)
    ensures |r| == |s.order| == |s.books|
    ensures forall i :: 0 <= i < |r| ==> r[i].Keys == FieldKeys && FromDict(r[i]) == List(s)[i]
  {
    WellFormedSize(s);
    var r := seq(|s.order|, i requires 0 <= i < |s.order| => ToDict(s.books[s.order[i]]));
    assert forall i :: 0 <= i < |r| ==> r[i].Keys == FieldKeys && FromDict(r[i]) == List(s)[i] by {
      forall i | 0 <= i < |r|
        ensures r[i].Keys == FieldKeys && FromDict(r[i]) == List(s)[i]
      {
        FromDictToDict(s.books[s.order[i]]);
      }
    }
    r
  }

  /** The listing is the dict form of the stored books, position by position in store order. */
  lemma GetAllBooksInOrder(s: Store)
    requires WellFormed(s)
    ensures forall i :: 0 <= i < |s.order| ==> GetAllBooks(s)[i] == ToDict(s.books[s.order[i]])
  {
    var r := GetAllBooks(s);
    forall i | 0 <= i < |s.order|
      ensures r[i] == ToDict(s.books[s.order[i]])
    {
      ToDictFromDictKeys(r[i]);
    }
  }

  /**
    `get_book`: an unparsable identifier is invalid, a parsed one without a
    book is not found, otherwise the book's dict form.
   */
  function GetBook(s: Store, idText: string): (r: Outcome<map<string, Value>>)
    ensures !r.Raised?
    ensures ParseInt(idText).None? ==> r == Failed(InvalidIdMessage)
    ensures ParseInt(idText).Some? && IntKey(ParseInt(idText).value) !in s.books ==> r == Failed(NotFoundMessage)
    ensures r.Done? <==> ParseInt(idText).Some? && IntKey(ParseInt(idText).value) in s.books
    ensures r.Done? ==> r.value == ToDict(s.books[IntKey(ParseInt(idText).value)])
    ensures r.Done? ==> FromDict(r.value) == s.books[IntKey(ParseInt(idText).value)]
  {
    match ParseInt(idText)
    case None => Failed(InvalidIdMessage)
    case Some(id) =>
      match Find(s, id)
      case Some(b) => Done(ToDict(b))
      case None => Failed(NotFoundMessage)
  }

  /** Whether the payload's identifier is one a dict cannot hash (a list or an object). */
  predicate UnhashableId(fields: map<string, Value>)
  {
    Get(fields, "id").Arr? || Get(fields, "id").Obj?
  }

  /**
    `create_book`: incomplete payloads are accepted, missing fields becoming
    null. The result carries the identifier the store kept or assigned. A
    payload that is not an object, or whose identifier cannot be hashed,
    raises inside the call; the controller catches it and nothing changes.
   */
  function CreateBook(s: Store, payload: Value): (r: (Store, Outcome<map<string, Value>>))
    requires WellFormed(s)
    ensures WellFormed(r.0)
    ensures Valid(s) ==> Valid(r.0)
    ensures !r.1.Raised?
    ensures r.1.Failed? <==> !payload.Obj? || UnhashableId(payload.fields)
    ensures r.1.Failed? ==> r.0 == s && r.1.message == CreateFailedMessage
    ensures r.1.Done? ==>
      && r.1.value.Keys == FieldKeys
      && (forall k :: k in FieldKeys && k != "id" ==> r.1.value[k] == Get(payload.fields, k))
      && !r.1.value["id"].Null?
      && KeyOf(r.1.value["id"]).Some?
      && var k := KeyOf(r.1.value["id"]).value;
      && k in r.0.books && ToDict(r.0.books[k]) == r.1.value
      && r.0.books == s.books[k := FromDict(r.1.value)]
      && (k in s.books ==> r.0.order == s.order)
      && (k !in s.books ==> r.0.order == s.order + [k])
    ensures r.1.Done? && Get(payload.fields, "id").Null? ==>
      r.1.value["id"] == Num(s.nextId) && r.0.nextId == s.nextId + 1
    ensures r.1.Done? && !Get(payload.fields, "id").Null? ==>
      r.1.value["id"] == Get(payload.fields, "id") && r.0.nextId == s.nextId
  {
    if !payload.Obj? then (s, Failed(CreateFailedMessage))
    else
      var b := FromDict(payload.fields);
      AddKeepsValid(s, b);
      ReplacingIdKeepsFields(payload.fields, Num(s.nextId));
      match Add(s, b)
      case None => (s, Failed(CreateFailedMessage))
      case Some((s', stored)) => (s', Done(ToDict(stored)))
  }

  /**
    `update_book`: the identifier is parsed first; then the payload becomes a
    whole new book (fields it omits become null, nothing is merged from the
    old record) whose identifier is forced to the parsed one. A payload that
    is not an object raises AttributeError, which nothing catches.
   */
  function UpdateBook(s: Store, idText: string, payload: Value): (r: (Store, Outcome<map<string, Value>>))
    requires WellFormed(s)
    ensures WellFormed(r.0)
    ensures Valid(s) ==> Valid(r.0)
    ensures !r.1.Done? ==> r.0 == s
    ensures ParseInt(idText).None? ==> r.1 == Failed(InvalidIdMessage)
    ensures ParseInt(idText).Some? ==> (r.1.Raised? <==> !payload.Obj?)
    ensures ParseInt(idText).Some? && payload.Obj? ==>
      (r.1.Done? <==> IntKey(ParseInt(idText).value) in s.books) &&
      (r.1.Failed? ==> r.1.message == NotFoundMessage)
    ensures r.1.Done? ==>
      var id := ParseInt(idText).value;
      && payload.Obj?
      && r.1.value.Keys == FieldKeys
      && r.1.value["id"] == Num(id)
      && (forall k :: k in FieldKeys && k != "id" ==> r.1.value[k] == Get(payload.fields, k))
      && r.0.order == s.order
      && r.0.nextId == s.nextId
      && r.0.books == s.books[IntKey(id) := FromDict(r.1.value)]
  {
    match ParseInt(idText)
    case None => (s, Failed(InvalidIdMessage))
    case Some(id) =>
      if !payload.Obj? then (s, Raised)
      else
        var book := FromDict(payload.fields);
        UpdateKeepsValid(s, id, book);
        ReplacingIdKeepsFields(payload.fields, Num(id));
        var (s', found) := Update(s, id, book);
        if found then (s', Done(ToDict(book.(id := Num(id)))))
        else (s, Failed(NotFoundMessage))
  }

  /**
    `delete_book`: an unparsable identifier is invalid, a parsed one without
    a book is not found; otherwise exactly that book is removed.
   */
  function DeleteBook(s: Store, idText: string): (r: (Store, Outcome<()>))
    requires WellFormed(s)
    ensures WellFormed(r.0)
    ensures Valid(s) ==> Valid(r.0)
    ensures !r.1.Raised?
    ensures !r.1.Done? ==> r.0 == s
    ensures ParseInt(idText).None? ==> r.1 == Failed(InvalidIdMessage)
    ensures r.1.Done? <==> ParseInt(idText).Some? && IntKey(ParseInt(idText).value) in s.books
    ensures ParseInt(idText).Some? && !r.1.Done? ==> r.1 == Failed(NotFoundMessage)
    ensures r.1.Done? ==>
      && r.0.books == s.books - {IntKey(ParseInt(idText).value)}
      && r.0.order == Without(s.order, IntKey(ParseInt(idText).value))
      && r.0.nextId == s.nextId
  {
    match ParseInt(idText)
    case None => (s, Failed(InvalidIdMessage))
    case Some(id) =>
      DeleteKeepsValid(s, id);
      var (s', found) := Delete(s, id);
      if found then (s', Done(())) else (s, Failed(NotFoundMessage))
  }

  // ---------------------------------------------------------------------
  // Properties relating the controller operations

  /** An identifier that is not an integer text fails every by-id operation as invalid, touching nothing. */
  lemma InvalidIdRejected(s: Store, idText: string, payload: Value)
    requires WellFormed(s) && ParseInt(idText).None?
    ensures GetBook(s, idText) == Failed(InvalidIdMessage)
    ensures UpdateBook(s, idText, payload) == (s, Failed(InvalidIdMessage))
    ensures DeleteBook(s, idText) == (s, Failed(InvalidIdMessage))
  {
  }

  /** "abc" in particular is an invalid identifier, not a missing book. */
  lemma AbcIsInvalid(s: Store, payload: Value)
    requires WellFormed(s)
    ensures GetBook(s, "abc") == Failed(InvalidIdMessage)
    ensures UpdateBook(s, "abc", payload) == (s, Failed(InvalidIdMessage))
    ensures DeleteBook(s, "abc") == (s, Failed(InvalidIdMessage))
  {
    ParseIntRejects();
  }

  /** A well-formed identifier with no book is not found by any by-id operation, and nothing changes. */
  lemma MissingBookNotFound(s: Store, id: int, payload: map<string, Value>)
    requires WellFormed(s) && IntKey(id) !in s.books
    ensures GetBook(s, Show(id)) == Failed(NotFoundMessage)
    ensures UpdateBook(s, Show(id), Obj(payload)) == (s, Failed(NotFoundMessage))
    ensures DeleteBook(s, Show(id)) == (s, Failed(NotFoundMessage))
  {
    ParseShow(id);
  }

  /**
    A created book without identifier is found again under the identifier it
    was given, and reads back as what the create returned.
   */
  lemma CreateThenGet(s: Store, payload: map<string, Value>)
    requires WellFormed(s) && Get(payload, "id").Null?
    ensures var (s', r) := CreateBook(s, Obj(payload));
      && r.Done?
      && r.value["id"] == Num(s.nextId)
      && GetBook(s', Show(s.nextId)) == Done(r.value)
  {
    var (s', r) := CreateBook(s, Obj(payload));
    ParseShow(s.nextId);
    assert s'.books[IntKey(s.nextId)] == FromDict(r.value);
    FromDictToDict(s'.books[IntKey(s.nextId)]);
    ToDictFromDictKeys(r.value);
  }

  /**
    On a store whose counter is ahead of every integer key, a create without
    identifier appends exactly one book, numbered with the counter, and
    leaves the counter ahead.
   */
  lemma CreateWithoutIdAppends(s: Store, payload: map<string, Value>)
    requires WellFormed(s) && CounterAhead(s) && Get(payload, "id").Null?
    ensures var s' := CreateBook(s, Obj(payload)).0;
      var r := CreateBook(s, Obj(payload)).1;
      var stored := FromDict(payload).(id := Num(s.nextId));
      && IntKey(s.nextId) !in s.books
      && s'.order == s.order + [IntKey(s.nextId)]
      && s'.books == s.books[IntKey(s.nextId) := stored]
      && s'.nextId == s.nextId + 1
      && CounterAhead(s')
      && r == Done(ToDict(stored))
  {
    var b := FromDict(payload);
    assert b.id.Null?;
    AddFreshAppends(s, b);
    assert CreateBook(s, Obj(payload)) == (Add(s, b).value.0, Done(ToDict(Add(s, b).value.1)));
  }

  /** A dict with exactly the five keys is the dict form of its own decoding. */
  lemma ToDictFromDictKeys(d: map<string, Value>)
    requires d.Keys == FieldKeys
    ensures ToDict(FromDict(d)) == d
  {
    ToDictFromDict(d);
  }

  /** After a successful delete the same identifier is not found. */
  lemma DeleteThenGet(s: Store, idText: string)
    requires WellFormed(s)
    ensures DeleteBook(s, idText).1.Done? ==>
      GetBook(DeleteBook(s, idText).0, idText) == Failed(NotFoundMessage)
  {
  }

  /**
    Update replaces rather than merges: a field the payload omits is null
    afterwards, whatever the old record held.
   */
  lemma UpdateReplaces(s: Store, idText: string, payload: map<string, Value>, k: string)
    requires WellFormed(s) && ParseInt(idText).Some? && IntKey(ParseInt(idText).value) in s.books
    requires k in FieldKeys && k != "id" && k !in payload
    ensures var (s', r) := UpdateBook(s, idText, Obj(payload));
      && r.Done? && r.value[k] == Null
      && ToDict(s'.books[IntKey(ParseInt(idText).value)])[k] == Null
  {
    var (s', r) := UpdateBook(s, idText, Obj(payload));
    ToDictFromDictKeys(r.value);
  }

  /** The identifier inside an update payload is ignored: the path's identifier wins. */
  lemma UpdateIgnoresPayloadId(s: Store, idText: string, payload: map<string, Value>, v: Value)
    requires WellFormed(s) && ParseInt(idText).Some?
    ensures UpdateBook(s, idText, Obj(payload["id" := v])) == UpdateBook(s, idText, Obj(payload))
  {
    var id := ParseInt(idText).value;
    var b1 := FromDict(payload["id" := v]);
    var b2 := FromDict(payload);
    assert b1.(id := Num(id)) == b2.(id := Num(id));
  }
}
