# Book service core in Dafny

A model of the server side of a small in-memory book CRUD service, written
in Python on top of `http.server`. Four layers are modelled, each as pure
functions over immutable data.

- **Book codec** (`Books`). It covers `Book.to_dict` and `Book.from_dict`.
  A book has five untyped fields. Each is a JSON `Value`, and a key missing
  from the payload becomes null.
- **Store** (`Database`). This is Python's insertion-ordered dict from
  identifier to book, plus the `next_id` counter. The dict is modelled as the
  sequence of its keys in insertion order next to a `map`. A boolean
  identifier lands on the same key as `0`/`1`, as it does in Python. A list
  or object identifier cannot be hashed: the dict assignment raises
  `TypeError`.
- **Controller** (`Controller`). It parses the identifier text with Python's
  `int` (`IntText`) and classifies failures as an invalid identifier or a
  missing book. Each call returns the next store and an `Outcome`: a value,
  an error message, or an exception that escapes the call.
- **Request handler** (`Paths`, `View`). This layer covers `urlparse(...).path`,
  `strip('/')`, `split('/')`, identifier extraction, body parsing, the
  `{data?, message?}` envelope, and the routing table of
  `do_GET`/`do_POST`/`do_PUT`/`do_DELETE`. A request whose exception nothing
  catches gets `NoReply`; the server writes nothing back in that case.
  `Dispatch` is the whole handler as a total function of the store and the
  request.

`Traces` serves sequences of requests one after another, as the
single-threaded server does. It proves identifier allocation over whole
traces, the start-up seeding of three sample books, and short create,
list and delete sequences on a fresh store.

All files are verified together; there is no `Main`.

Some behaviour of the code is easy to miss. The model follows it:

- An identifier that `int` refuses gets 404 on the by-id routes, not 400.
  The handler maps every controller failure there to 404
  (`server/views/book_view.py:75,105,121`).
- A successful delete sends 204 with the empty envelope `{}` and no message
  (`server/views/book_view.py:119`).
- Three malformed inputs escape the handler in the model, and the request
  gets no response (`NoReply`). GET and DELETE never read the body, so the
  first two arise only on the routes that do:
  - a `Content-Length` that `int` refuses, on POST `/books` or on PUT
    `/books/<id>` with an identifier in the path
    (`server/views/book_view.py:53,84,100`);
  - a positive `Content-Length` whose body is not UTF-8, on the same two
    routes (`server/views/book_view.py:55`);
  - a PUT payload that is not an object, under an identifier that `int`
    accepts (`server/controllers/book_controller.py:37`). Under an
    identifier `int` refuses, the controller answers "invalid identifier"
    first and the request gets 404 (`server/controllers/book_controller.py:33-35`).

  In the code, two more decoder errors escape in the same way: an over-long
  integer literal and a very deeply nested document. The model does not
  cover them (see "Left out").
- There is no lock around the store. `HTTPServer` serves one request at a
  time, so the model is sequential.
- A stored identifier is whatever JSON value the payload carries.
  `Database.KeyOf` covers strings, booleans and unhashable values as well as
  integers.

## Model

| member | source | states |
|---|---|---|
| Books.ToDict | server/models/book.py:9-16 | The dict form has exactly the keys id, title, author, publication_year and isbn, and "id" carries the book's identifier. |
| Books.FromDict | server/models/book.py:18-26 | Every one of the five known keys of the decoded book's dict form holds the payload's value under that key, or null when the payload lacks it. |
| Books.MissingKeysBecomeNull | server/models/book.py:21-25 | A known key absent from the payload is null in the decoded book. |
| Books.FromDictToDict | server/models/book.py:9-26 | Decoding the dict form of any book gives back the same book, field for field. |
| Books.ToDictFromDict | server/models/book.py:11-16 | Encoding a decoded payload keeps exactly the five known keys, with null for absent ones, and drops every other key; a payload with exactly the five keys comes back unchanged. |
| Books.UnknownKeysIgnored | server/models/book.py:20-26 | Adding or changing any key outside the five known ones does not change the decoded book. |
| Books.IdentifierReadFromId | server/models/book.py:21 | The identifier comes from "id": setting "book_id" leaves it unchanged, setting "id" sets it. |
| Books.TitleAndAuthorOnly | server/models/book.py:18-26 | A payload with only a title and an author decodes to a book whose id, year and isbn are null. |
| Json.Get | server/models/book.py:21-25 | A present key gives its value; a non-null answer means the key is present, so an absent key reads as null. |
| Database.KeyOf | server/models/database.py:16 | A non-null identifier has a dict key exactly when it is hashable (not a list or object). An integer is its own key, a string its own string key, and `True` and `False` share the keys of 1 and 0. |
| Database.Empty | server/models/database.py:2-4 | A new store has no books, its counter is 1, it satisfies the store invariant, and the counter is ahead of every key. |
| Database.Find | server/models/database.py:9-10 | A lookup answers a book exactly when the key is present, and then the stored book. |
| Database.List | server/models/database.py:6-7 | The listing has one book per stored key, as many as the map holds, and position i holds the book under the i-th key in insertion order. |
| Database.ListHoldsEveryBook | server/models/database.py:6-7 | Every stored book appears in the listing. |
| Database.Put | server/models/database.py:16 | Assigning a key sets the map entry; a present key keeps its place in the order, and a new key goes last. |
| Database.Add | server/models/database.py:12-17 | A book without identifier is stored under the counter's value and the counter advances by one. A book with an identifier keeps it and the counter stays. Either way it replaces any book under that key, with the order rule of dict assignment. An unhashable identifier fails. |
| Database.Update | server/models/database.py:19-24 | The answer is true exactly when the key is present. Then only that entry changes, to the new book with its id forced to the key. Otherwise the store is untouched. |
| Database.Without | server/models/database.py:28 | Removing a key from the order keeps exactly the other keys, without introducing duplicates. On a duplicate-free order exactly the position holding the key goes, and the remaining keys keep their relative order. |
| Database.Delete | server/models/database.py:26-30 | The answer is true exactly when the key is present. Then exactly that key leaves the map and the order. Otherwise nothing changes. The counter never moves. |
| Database.AddKeepsValid | server/models/database.py:12-17 | Add keeps the invariant that every key is the key of its own book's identifier. |
| Database.UpdateKeepsValid | server/models/database.py:19-24 | Update keeps the invariant that every key is the key of its own book's identifier. |
| Database.DeleteKeepsValid | server/models/database.py:26-30 | Delete keeps the invariant that every key is the key of its own book's identifier. |
| Database.AddFreshAppends | server/models/database.py:12-17 | With the counter ahead of every integer key, a book without identifier takes a free key. The listing becomes the old listing plus that book, numbered with the counter, and the counter stays ahead. |
| Database.ListAppends | server/models/database.py:16 | Storing a book under a new key makes the listing the old listing followed by that book. |
| Database.AddGivenIdCounterAhead | server/models/database.py:13-16 | A caller-supplied identifier keeps the counter ahead exactly when it is not an integer at or beyond the counter. |
| Database.UpdateKeepsCounterAhead | server/models/database.py:19-24 | Update never brings an integer key up to the counter. |
| Database.DeleteKeepsCounterAhead | server/models/database.py:26-30 | Delete never brings an integer key up to the counter. |
| Database.PutExistingKeepsPosition | server/models/database.py:16 | Assigning a present key changes only that key's position in the listing, to the new book. |
| Database.UpdateKeepsPosition | server/models/database.py:19-24 | A successful update keeps the order. The updated book stays in its position with its id forced to the key, and every other position is unchanged. |
| Database.DeleteThenFind | server/models/database.py:26-30 | After deleting a present key the key is not found and the listing is one shorter. |
| Database.CounterMonotone | server/models/database.py:13-15 | Add advances the counter by one exactly when the book had no identifier, and by zero otherwise. Update and delete never move it. |
| Database.CallerIdCollides | server/models/database.py:13-16 | The counter does not skip caller-supplied identifiers. After a book with id 2 and two books without identifier, the second of those gets id 2 and replaces the caller's book, leaving two books. |
| IntText.ParseInt | server/controllers/book_controller.py:13-16 | int accepts a text exactly when it is a digit run (digits with single underscores between them), optionally after one sign. |
| IntText.ParseIntValue | server/controllers/book_controller.py:13-16 | For every accepted text, the value is the number its digits spell with the underscores dropped, negated after a minus. |
| IntText.AcceptedShape | server/controllers/book_controller.py:13-16 | Every accepted text is non-empty and made only of signs, digits and underscores, and a negative value comes only from a leading minus. |
| IntText.ParseRun | server/controllers/book_controller.py:13-16 | Every unsigned digit run reads as its value. |
| IntText.ParseSignedRun | server/controllers/book_controller.py:13-16 | A sign followed by any digit run reads as the run's value, negated after a minus. |
| IntText.ParseShow | server/controllers/book_controller.py:13-16 | Every integer written in decimal reads back through int as itself. |
| IntText.ParseShowNatural | server/controllers/book_controller.py:13-16 | Every non-negative integer written in decimal reads back as itself. |
| IntText.ParseShowNegative | server/controllers/book_controller.py:13-16 | Every negative integer written with its minus sign reads back as itself. |
| IntText.ParseIntRejects | server/controllers/book_controller.py:13-16 | int refuses "abc", the empty text, a bare sign and a doubled underscore. |
| IntText.ParseIntAccepts | server/controllers/book_controller.py:13-16 | int accepts "1", "12", "+7", "-3", "007", "1_0" and "1_000" as 1, 12, 7, -3, 7, 10 and 1000. |
| IntText.AcceptsPlain | server/controllers/book_controller.py:13-16 | int reads "1" and "12" as 1 and 12. |
| IntText.AcceptsSigned | server/controllers/book_controller.py:13-16 | int reads "+7" as 7 and "-3" as -3. |
| IntText.AcceptsLeadingZeros | server/controllers/book_controller.py:13-16 | int reads "007" as 7. |
| IntText.AcceptsUnderscore | server/controllers/book_controller.py:13-16 | int reads "1_0" as 10 and "1_000" as 1000. |
| IntText.RunValueDigits | server/controllers/book_controller.py:13-16 | For every run of digits and underscores, the value is that of its digits alone: underscores carry no value. |
| IntText.LeadingZeroValue | server/controllers/book_controller.py:13-16 | Putting a zero in front of any run of digits and underscores leaves its value unchanged. |
| IntText.SignedParse | server/controllers/book_controller.py:13-16 | For every digit run, a leading plus parses to the same answer as the bare run, and a leading minus to its negation. |
| IntText.LeadingZeroParse | server/controllers/book_controller.py:13-16 | For every digit run, a leading zero is accepted and parses to the same value. |
| Controller.GetAllBooks | server/controllers/book_controller.py:8-10 | The listing has one dict per stored book, each with exactly the five keys and decoding to the book at that position of the store's order. |
| Controller.GetAllBooksInOrder | server/controllers/book_controller.py:8-10 | Position i of the listing is the dict form of the book under the i-th key in insertion order. |
| Controller.GetBook | server/controllers/book_controller.py:12-21 | An unparsable identifier is invalid and a parsed one without a book is not found. Otherwise the answer is exactly the stored book's dict form. It never raises. |
| Controller.CreateBook | server/controllers/book_controller.py:23-28 | Creation fails exactly when the payload is not an object or its identifier cannot be hashed, and then nothing changes. Otherwise the answer keeps the payload's fields (null where missing), reports the identifier the store kept or assigned, and is what the store now holds under that key. Every other stored book is kept, and the key keeps its place in the order or, when new, goes last. The counter advances only for a payload without identifier. |
| Controller.UpdateBook | server/controllers/book_controller.py:30-41 | An unparsable identifier is invalid. With a parsed identifier, a non-object payload raises. Otherwise the update succeeds exactly when the book exists, and fails as not found with nothing changed when it does not. On success the stored and returned book carries the parsed identifier and exactly the payload's other fields, with no merge. |
| Controller.DeleteBook | server/controllers/book_controller.py:43-52 | An unparsable identifier is invalid. Deletion succeeds exactly when the parsed identifier's book exists. It then removes only that book from the map and only its position from the order, the other keys keeping their relative order. A failure changes nothing, and the counter never moves. |
| Controller.InvalidIdRejected | server/controllers/book_controller.py:13-16 | Any identifier int refuses fails get, update and delete as invalid, leaving the store untouched. |
| Controller.AbcIsInvalid | server/controllers/book_controller.py:13-16 | "abc" is reported as an invalid identifier, not a missing book, by get, update and delete. |
| Controller.MissingBookNotFound | server/controllers/book_controller.py:18-21 | The decimal text of an identifier without a book is not found by get, update and delete, and the store is untouched. |
| Controller.CreateThenGet | server/controllers/book_controller.py:23-27 | A create without identifier succeeds under the counter's value, and getting that identifier answers exactly what the create returned. |
| Controller.CreateWithoutIdAppends | server/controllers/book_controller.py:23-27 | With the counter ahead, a create without identifier appends exactly one key, the counter's value. It stores the payload under that key, advances the counter, and answers the stored book's dict form. |
| Controller.DeleteThenGet | server/controllers/book_controller.py:43-52 | After a successful delete, getting the same identifier is not found. |
| Controller.UpdateReplaces | server/controllers/book_controller.py:37-40 | A field the update payload omits is null afterwards, both in the answer and in the store, whatever the old record held. |
| Controller.UpdateIgnoresPayloadId | server/controllers/book_controller.py:37-40 | Whatever "id" the update payload carries, the outcome is the same: the path's identifier wins. |
| Paths.UrlPath | server/views/book_view.py:46 | The parsed path is a prefix of the request path holding no '?' or '#'. It ends where the path ends or at the first '?' or '#', and is the whole path when it has neither. |
| Paths.LStrip | server/views/book_view.py:47 | Stripping leading slashes removes a prefix made only of slashes and leaves a text that does not start with one. |
| Paths.RStrip | server/views/book_view.py:47 | Stripping trailing slashes removes a suffix made only of slashes and leaves a text that does not end with one. |
| Paths.Strip | server/views/book_view.py:47 | Neither end of the stripped text is a slash. A text of slashes alone strips to nothing, and a slash-free text is left as it is. |
| Paths.StripSlice | server/views/book_view.py:47 | The stripped text is the slice of the original that a run of leading slashes precedes and a run of trailing slashes follows. |
| Paths.Split | server/views/book_view.py:47 | Splitting on '/' gives at least one segment and no segment holds a slash. |
| Paths.JoinSplit | server/views/book_view.py:47 | Joining the segments of a split with '/' gives back the text. |
| Paths.SplitJoin | server/views/book_view.py:47 | Splitting the join of slash-free segments gives back the segments. |
| Paths.PathId | server/views/book_view.py:45-50 | An extracted identifier is non-empty and slash-free. |
| Paths.PathIdMeaning | server/views/book_view.py:45-50 | The extracted identifier is id exactly when, after the leading slashes, the path starts with books/ and id, followed by its end or a slash; later segments are ignored. |
| Paths.BookPathYieldsId | server/views/book_view.py:45-50 | The client's path /books/ followed by a plain identifier extracts exactly that identifier. |
| View.ParseBody | server/views/book_view.py:52-57 | A missing or non-positive length gives the empty object. A positive length with a JSON document gives exactly that document. Text that is not JSON is the caught decode error. A bad length or bad UTF-8 escapes. |
| View.Send | server/views/book_view.py:32-43 | The reply has the given status. The envelope has "data" exactly when there is data and "message" exactly when there is a message, holding them and nothing else. |
| View.BookList | server/views/book_view.py:65-66 | The list data holds the book dicts, one object per book, in order. |
| View.ShowId | server/views/book_view.py:71-75 | An identifier that parses to a stored book gives 200 whose data is that book's dict form. Every other identifier gives 404 with no data, and its message is the controller's: "invalid identifier" when int refuses the text, else "not found". |
| View.ShowBook | server/views/book_view.py:67-77 | A stored book gives 200 whose data is that book's dict form. No identifier in the path gives 400 with the invalid-path message. Every other case gives 404 with the controller's invalid-identifier or not-found message. Failures carry no data. |
| View.DoGet | server/views/book_view.py:59-79 | /books gives 200 with the list. /books/... gives 200 exactly when the book is found, with the stored book's dict form as data. It gives 400 with the invalid-path message exactly when no identifier can be extracted, and otherwise 404 with the controller's invalid-identifier or not-found message. Any other path gives 404 with the no-resource message. Failures carry no data. |
| View.DoPost | server/views/book_view.py:81-93 | Only the raw path /books creates. It gives 201 exactly when the body decodes to an object with a hashable identifier. The store is then the one the controller's create leaves, and the data is the created book's dict form. An undecodable body gives 400 with the invalid-JSON message, a create failure 400 with the create-failure message. It gives 404, with the no-resource message, exactly when the raw path is not /books, and 400 exactly on /books when the body is not JSON, is not an object or carries an unhashable identifier. Only a 201 changes the store, advancing the counter only to report the new identifier. |
| View.PutBook | server/views/book_view.py:98-107 | With an identifier from the path: 200 exactly when it parses, its book exists and the body is an object. The store is then the one the controller's update leaves, and the data is the updated book's dict form. 400 with the invalid-JSON message exactly when the body is not JSON. No response on an escaping error. Otherwise 404 with the controller's invalid-identifier or not-found message. Only a 200 changes the store. |
| View.DoPut | server/views/book_view.py:95-111 | The /books/ prefix is required, else 404. 200 exactly when the book is found and the body is an object. The store is then the one the controller's update leaves, and the data is the updated book's dict form. A missing identifier gives 400 with the invalid-path message, an undecodable body 400 with the invalid-JSON message. A controller failure gives 404 with its invalid-identifier or not-found message. Only a 200 changes the store, and the counter never moves. |
| View.RemoveId | server/views/book_view.py:116-121 | An identifier that parses to a stored book gives 204 with the empty envelope, and the store is the one the controller's delete leaves, without that book. Every other identifier gives 404 with the controller's invalid-identifier or not-found message and changes nothing. |
| View.DoDelete | server/views/book_view.py:113-125 | The /books/ prefix is required, else 404. 204 with the empty envelope exactly when the book is found. The store is then the one the controller's delete leaves, without that book. A missing identifier gives 400 with the invalid-path message, and a controller failure 404 with its invalid-identifier or not-found message. A failure changes nothing. |
| View.Dispatch | server/views/book_view.py:59-125 | The statuses are 200, 201, 204, 400 and 404. Every failure carries a message and no data and leaves the store as it was. A POST gets 404 exactly when its raw path is not /books. GET never changes the store, and the invariant is kept. The counter moves only on a 201 POST, by one, and that reply reports the old counter value as the new identifier. |
| Traces.Run | server/views/book_view.py:59-125 | Serving requests in order gives one response per request, keeps the invariant, and never lowers the counter. |
| Traces.IssuedAreConsecutive | server/models/database.py:13-15 | Whatever the requests, deletes included, the identifiers handed out are exactly the consecutive integers from the counter's starting value to its final value. |
| Traces.IssuedNeverReused | server/models/database.py:13-15 | The identifiers handed out over any trace are strictly increasing, so none is handed out twice. |
| Traces.AnonymousCreatesNumbered | server/views/book_view.py:81-89 | Creates without identifier served in a row all answer 201, numbered consecutively from the counter. |
| Traces.AnonymousCreatesCount | server/models/database.py:13-15 | N creates without identifier advance the counter by exactly N. |
| Traces.AnonymousCreateStep | server/views/book_view.py:81-89 | One create without identifier answers 201 with the counter's value and advances the counter by one. |
| Traces.CreateAll | server/server.py:51-52 | Seeding creates each payload in turn through the controller and keeps the store well formed. Its counter, order, kept books and numbering are stated by the four lemmas below. |
| Traces.CreateAllCounter | server/server.py:51-52 | Creating N payloads without identifier advances the counter by N and keeps it ahead. |
| Traces.CreateAllOrder | server/server.py:51-52 | Creating N payloads without identifier appends the keys counter, counter + 1, ... to the order. |
| Traces.CreateAllKeeps | server/server.py:51-52 | Creates without identifier keep every book already stored. |
| Traces.CreateAllNumbers | server/server.py:51-52 | The i-th create without identifier stores its payload, numbered counter + i, under that key. |
| Traces.SeededOrder | server/server.py:28-52 | The seeded store lists identifiers 1, 2 and 3 in order, and the next identifier is 4. |
| Traces.SeededBooks | server/server.py:28-52 | Under identifier i + 1 the seeded store holds the i-th sample book, with that identifier. |
| Traces.TwoCreatesStored | server/models/database.py:13-17 | Two creates without identifier on a fresh store store the payloads under 1 and 2, in that order, and the next identifier is 3. |
| Traces.TwoCreates | server/controllers/book_controller.py:23-27 | The two creates answer with identifiers 1 and 2 and with the dict forms of the books stored under them. |
| Traces.TwoCreatesListed | server/controllers/book_controller.py:8-27 | Listing after the two creates returns the two answers, the first one first. |
| Traces.DeleteFirstOfPair | server/controllers/book_controller.py:43-52 | On a store listing keys 1 and 2, deleting "1" succeeds and leaves only the book under 2 listed. |
| Traces.DeleteFirstOfTwo | server/models/database.py:26-30 | After the two creates, deleting 1 succeeds and leaves only the second book listed. |
| Traces.CreateAfterDelete | server/models/database.py:12-30 | After two creates and deleting 1, a third create gets identifier 3, not the freed 1. |

## Left out

- Sockets, `HTTPServer`, the daemon thread, logging and the busy-wait loop in `server/server.py` are I/O plumbing. Only the sample seeding is modelled, as `Traces.CreateAll` over the three sample payloads.
- The client (`client/cli.py`, `client/book_client.py`) is not part of this model. Only its `/books/<id>` path shape appears, in `Paths.BookPathYieldsId`.
- `BookView.create_handler_class` synthesises a handler class at run time to inject the controller. The model passes the store to `View.Dispatch` directly.
- Headers and status lines (`send_response`, `send_header`, `end_headers`) and the JSON encoding of the envelope are not modelled. A response is its status and its envelope as a map.
- Methods other than GET, POST, PUT and DELETE are answered by `http.server` itself with 501. They are not in `View.Method`.
- JSON decoding is abstracted. The body is a JSON value, text that is not JSON, or bytes that are not UTF-8. JSON numbers are integers; floats are not modelled.
- View.ParseBody: a `Content-Length` that `int` refuses is modelled as one abstract case, and `int`'s acceptance of surrounding whitespace in a header value is not modelled.
- View.ParseBody: `json.loads` can raise two exceptions besides `JSONDecodeError` on POST `/books` and PUT `/books/<id>`. One is `ValueError` for an integer literal longer than the interpreter's 4300-digit limit; the other is `RecursionError` for a very deeply nested document. The handlers catch only `JSONDecodeError` (`server/views/book_view.py:90,106`), so the code sends no response for such a body. The model treats every JSON document as a payload and answers it like any other.
- IntText.ParseInt: whitespace around the identifier and non-ASCII digits are not modelled. A request-line path cannot hold whitespace, and its Latin-1 characters have no other decimal digits. Python's limit on the length of an integer text is not modelled either. Since 3.11, and in the 3.7 to 3.10 security releases, `int` refuses more than 4300 digits with `ValueError`, and a request line can carry that many. For such an identifier the code answers "invalid identifier" (and a PUT with a non-object body gets 404), while the model parses it and answers "not found" (or no response for that PUT).
- Paths.UrlPath: `urlparse` also splits off `;` parameters, a `//` network location and a scheme; only the cut at `?` and `#` is modelled. So an absolute-form target such as `GET http://host/books`, which the code answers with the list (its parsed path is `/books`), gets 404 in the model.
- Controller.CreateBook: the failure message is modelled as its fixed prefix. The exception text that Python appends after it is not modelled.
- Concurrency: the server handles one request at a time, so `Traces.Run` serves requests strictly in order.
- The update tests (`tests/server/test_controllers.py:105-107`, `tests/test_integration.py:89-90`) expect omitted fields to be kept. The code replaces the whole record, and the model follows the code (`Controller.UpdateReplaces`).
- `update_book` with a payload that is not a JSON object raises `AttributeError`, which nothing catches. This is modelled as an escaping exception (`Raised`, then `NoReply`) rather than excluded by a precondition.
- `do_GET` routes on the parsed path; `do_POST`, `do_PUT` and `do_DELETE` test the raw path. The model keeps this asymmetry: a query string makes POST to `/books?x` a 404, while GET `/books?x` lists the books.
