/**
  The book record and its codec to and from a JSON object (a dict).

  A book has five fields. Python does not type them: whatever JSON value sits
  under a key of the payload is carried into the field as is, so every field
  here is a `Value`, and a missing key becomes null.
 */
module Books {
  import opened Json

  datatype Book = Book(id: Value, title: Value, author: Value, publicationYear: Value, isbn: Value)

  /** The keys of a book's dict form; the identifier travels under "id". */
  const FieldKeys: set<string> := {"id", "title", "author", "publication_year", "isbn"}

  /** `Book.to_dict`. */
  function ToDict(b: Book): (d: map<string, Value>)
    ensures d.Keys == FieldKeys
    ensures d["id"] == b.id
  {
    map[
      "id" := b.id,
      "title" := b.title,
      "author" := b.author,
      "publication_year" := b.publicationYear,
      "isbn" := b.isbn
    ]
  }

  /** `Book.from_dict`: reads the five known keys, each defaulting to null. */
  function FromDict(d: map<string, Value>): (b: Book)
    ensures forall k :: k in FieldKeys ==> ToDict(b)[k] == Get(d, k)
  {
    Book(
      Get(d, "id"),
      Get(d, "title"),
      Get(d, "author"),
      Get(d, "publication_year"),
      Get(d, "isbn")
    )
  }

  /** Giving a decoded payload another identifier leaves its other four fields as the payload had them. */
  lemma ReplacingIdKeepsFields(d: map<string, Value>, v: Value)
    ensures forall k :: k in FieldKeys && k != "id" ==> ToDict(FromDict(d).(id := v))[k] == Get(d, k)
  {
  }

  /** A key of the payload absent from it becomes a null field of the book. */
  lemma MissingKeysBecomeNull(d: map<string, Value>, k: string)
    requires k in FieldKeys && k !in d
    ensures ToDict(FromDict(d))[k] == Null
  {
  }

  /** Decoding the dict form of a book gives back the same book, field for field. */
  lemma FromDictToDict(b: Book)
    ensures FromDict(ToDict(b)) == b
  {
  }

  /**
    Encoding a decoded payload keeps exactly the five known keys, fills the
    absent ones with null and drops every other key of the payload.
   */
  lemma ToDictFromDict(d: map<string, Value>)
    ensures ToDict(FromDict(d)) == map k | k in FieldKeys :: Get(d, k)
    ensures d.Keys == FieldKeys ==> ToDict(FromDict(d)) == d
  {
    var e := ToDict(FromDict(d));
    var m := map k | k in FieldKeys :: Get(d, k);
    assert e.Keys == m.Keys;
    assert forall k :: k in e ==> e[k] == m[k];
    if d.Keys == FieldKeys {
      assert m.Keys == d.Keys;
      assert forall k :: k in m ==> m[k] == d[k];
    }
  }

  /** Keys outside the five known ones, "book_id" among them, do not affect the decoded book. */
  lemma UnknownKeysIgnored(d: map<string, Value>, k: string, v: Value)
    requires k !in FieldKeys
    ensures FromDict(d[k := v]) == FromDict(d)
  {
  }

  /** The identifier is read from "id" and never from "book_id". */
  lemma IdentifierReadFromId(d: map<string, Value>, v: Value)
    ensures FromDict(d["book_id" := v]).id == Get(d, "id")
    ensures FromDict(d["id" := v]).id == v
  {
    UnknownKeysIgnored(d, "book_id", v);
  }

  /** A payload with only a title and an author decodes to a book whose other fields are null. */
  lemma TitleAndAuthorOnly(title: Value, author: Value)
    ensures FromDict(map["title" := title, "author" := author]) == Book(Null, title, author, Null, Null)
  {
  }
}
