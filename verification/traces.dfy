/**
  Sequences of requests served one after another, as the single-threaded
  HTTP server does, and what they do to identifier allocation.
 */
module Traces {
  import opened Options
  import opened Json
  import opened Books
  import opened Database
  import opened IntText
  import opened Controller
  import opened View

  /** Serve `reqs` in order: the final store and the response to each. */
  function Run(s: Store, reqs: seq<Request>): (r: (Store, seq<Response>))
    requires WellFormed(s)
    ensures WellFormed(r.0)
    ensures |r.1| == |reqs|
    ensures r.0.nextId >= s.nextId
    ensures Valid(s) ==> Valid(r.0)
    decreases |reqs|
  {
    if |reqs| == 0 then (s, [])
    else
      var (s1, resp) := Dispatch(s, reqs[0]);
      var (s2, rest) := Run(s1, reqs[1..]);
      (s2, [resp] + rest)
  }

  /** The identifiers the counter hands out while `reqs` are served, in order. */
  function Issued(s: Store, reqs: seq<Request>): seq<int>
    requires WellFormed(s)
    decreases |reqs|
  {
    if |reqs| == 0 then []
    else
      var s1 := Dispatch(s, reqs[0]).0;
      (if s1.nextId != s.nextId then [s.nextId] else []) + Issued(s1, reqs[1..])
  }

  /** The integers from `lo` up to, not including, `hi`. */
  function Range(lo: int, hi: int): (r: seq<int>)
    requires lo <= hi
    ensures |r| == hi - lo
    ensures forall i :: 0 <= i < |r| ==> r[i] == lo + i
  {
    seq(hi - lo, i requires 0 <= i < hi - lo => lo + i)
  }

  /**
    Whatever the requests (deletes included), the counter hands out the
    consecutive identifiers from its starting value up to its final value:
    strictly increasing, never repeated, with no gaps.
   */
  lemma {:induction false} IssuedAreConsecutive(s: Store, reqs: seq<Request>)
    requires WellFormed(s)
    ensures Issued(s, reqs) == Range(s.nextId, Run(s, reqs).0.nextId)
    decreases |reqs|
  {
    if |reqs| > 0 {
      var s1 := Dispatch(s, reqs[0]).0;
      IssuedAreConsecutive(s1, reqs[1..]);
      var fin := Run(s, reqs).0.nextId;
      assert Run(s1, reqs[1..]).0.nextId == fin;
      var head := if s1.nextId != s.nextId then [s.nextId] else [];
      assert Issued(s, reqs) == head + Issued(s1, reqs[1..]);
      if s1.nextId != s.nextId {
        assert s1.nextId == s.nextId + 1;
        RangeCons(s.nextId, fin);
      } else {
        assert head == [];
      }
    }
  }

  lemma RangeCons(lo: int, hi: int)
    requires lo < hi
    ensures [lo] + Range(lo + 1, hi) == Range(lo, hi)
  {
  }

  /** Hence an identifier the counter hands out is never handed out again. */
  lemma IssuedNeverReused(s: Store, reqs: seq<Request>)
    requires WellFormed(s)
    ensures forall i, j :: 0 <= i < j < |Issued(s, reqs)| ==> Issued(s, reqs)[i] < Issued(s, reqs)[j]
  {
    IssuedAreConsecutive(s, reqs);
  }

  /** A request creating a book from an object payload that names no identifier. */
  predicate AnonymousCreate(req: Request)
  {
    && req.verb == POST
    && req.path == "/books"
    && ParseBody(req.length, req.body).Payload?
    && ParseBody(req.length, req.body).value.Obj?
    && Get(ParseBody(req.length, req.body).value.fields, "id").Null?
  }

  /** The identifier a 201 response reports for the created book. */
  predicate CreatedWithId(resp: Response, id: int)
  {
    && resp.Reply? && resp.status == 201
    && "data" in resp.body && resp.body["data"].Obj?
    && "id" in resp.body["data"].fields
    && resp.body["data"].fields["id"] == Num(id)
  }

  /** `out` reports created books numbered `base`, `base + 1`, ... in order. */
  predicate NumberedFrom(out: seq<Response>, base: int)
    decreases |out|
  {
    |out| == 0 || (CreatedWithId(out[0], base) && NumberedFrom(out[1..], base + 1))
  }

  /** Numbered responses, read position by position. */
  lemma {:induction false} NumberedFromAt(out: seq<Response>, base: int)
    requires NumberedFrom(out, base)
    ensures forall i :: 0 <= i < |out| ==> CreatedWithId(out[i], base + i)
    decreases |out|
  {
    if |out| > 0 {
      var rest := out[1..];
      NumberedFromAt(rest, base + 1);
      forall i | 0 <= i < |out|
        ensures CreatedWithId(out[i], base + i)
      {
        if i > 0 {
          assert out[i] == rest[i - 1];
          assert base + 1 + (i - 1) == base + i;
        }
      }
    }
  }

  /**
    Creates without identifier, served one after another, all succeed and
    are numbered consecutively from the counter: from a fresh store, N of
    them get exactly the identifiers 1..N, in order.
   */
  lemma {:induction false} AnonymousCreatesNumbered(s: Store, reqs: seq<Request>)
    requires WellFormed(s)
    requires forall i :: 0 <= i < |reqs| ==> AnonymousCreate(reqs[i])
    ensures NumberedFrom(Run(s, reqs).1, s.nextId)
    decreases |reqs|
  {
    if |reqs| > 0 {
      var s1 := Dispatch(s, reqs[0]).0;
      var resp := Dispatch(s, reqs[0]).1;
      var tail := reqs[1..];
      assert s1.nextId == s.nextId + 1 && CreatedWithId(resp, s.nextId) by {
        AnonymousCreateStep(s, reqs[0]);
      }
      assert forall i :: 0 <= i < |tail| ==> AnonymousCreate(tail[i]) by {
        AnonymousTail(reqs);
      }
      AnonymousCreatesNumbered(s1, tail);
      var out := Run(s, reqs).1;
      assert out == [resp] + Run(s1, tail).1 by {
        RunCons(s, reqs);
      }
      assert out[0] == resp && out[1..] == Run(s1, tail).1;
    } else {
      assert Run(s, reqs).1 == [];
    }
  }

  /** N creates without identifier advance the counter by exactly N. */
  lemma {:induction false} AnonymousCreatesCount(s: Store, reqs: seq<Request>)
    requires WellFormed(s)
    requires forall i :: 0 <= i < |reqs| ==> AnonymousCreate(reqs[i])
    ensures Run(s, reqs).0.nextId == s.nextId + |reqs|
    decreases |reqs|
  {
    if |reqs| > 0 {
      var s1 := Dispatch(s, reqs[0]).0;
      var tail := reqs[1..];
      assert s1.nextId == s.nextId + 1 by {
        AnonymousCreateStep(s, reqs[0]);
      }
      assert forall i :: 0 <= i < |tail| ==> AnonymousCreate(tail[i]) by {
        AnonymousTail(reqs);
      }
      AnonymousCreatesCount(s1, tail);
      assert Run(s, reqs).0 == Run(s1, tail).0 by {
        RunCons(s, reqs);
      }
    }
  }

  lemma AnonymousTail(reqs: seq<Request>)
    requires |reqs| > 0
    requires forall i :: 0 <= i < |reqs| ==> AnonymousCreate(reqs[i])
    ensures forall i :: 0 <= i < |reqs[1..]| ==> AnonymousCreate(reqs[1..][i])
  {
    forall i | 0 <= i < |reqs[1..]|
      ensures AnonymousCreate(reqs[1..][i])
    {
      assert reqs[1..][i] == reqs[i + 1];
    }
  }

  /** One create without identifier answers 201 with the counter's value and advances it. */
  lemma AnonymousCreateStep(s: Store, req: Request)
    requires WellFormed(s) && AnonymousCreate(req)
    ensures Dispatch(s, req).0.nextId == s.nextId + 1
    ensures CreatedWithId(Dispatch(s, req).1, s.nextId)
  {
    var v := ParseBody(req.length, req.body).value;
    var (s', out) := CreateBook(s, v);
    assert !UnhashableId(v.fields);
    assert out.Done? && out.value["id"] == Num(s.nextId);
    assert Dispatch(s, req) == DoPost(s, req);
  }

  /** Serving a non-empty sequence is serving its head, then its tail. */
  lemma RunCons(s: Store, reqs: seq<Request>)
    requires WellFormed(s) && |reqs| > 0
    ensures var (s1, resp) := Dispatch(s, reqs[0]);
      && Run(s, reqs).0 == Run(s1, reqs[1..]).0
      && Run(s, reqs).1 == [resp] + Run(s1, reqs[1..]).1
  {
  }

  // ---------------------------------------------------------------------
  // Concrete scenarios

  /** The three sample books the server creates at start-up. */
  const SampleBooks: seq<map<string, Value>> := [
    map["title" := Str("Python编程"), "author" := Str("张三"),
        "publication_year" := Num(2020), "isbn" := Str("9787111612727")],
    map["title" := Str("深入理解计算机系统"), "author" := Str("李四"),
        "publication_year" := Num(2018), "isbn" := Str("9787111544937")],
    map["title" := Str("算法导论"), "author" := Str("王五"),
        "publication_year" := Num(2019), "isbn" := Str("9787111407010")]
  ]

  /** Create each payload in turn through the controller. */
  function CreateAll(s: Store, payloads: seq<map<string, Value>>): (r: Store)
    requires WellFormed(s)
    ensures WellFormed(r)
    decreases |payloads|
  {
    if |payloads| == 0 then s
    else CreateAll(CreateBook(s, Obj(payloads[0])).0, payloads[1..])
  }

  /** The integer keys `lo`, `lo + 1`, ..., `n` of them. */
  function KeyRange(lo: int, n: nat): (r: seq<Key>)
    ensures |r| == n
    ensures forall i :: 0 <= i < n ==> r[i] == IntKey(lo + i)
  {
    seq(n, i requires 0 <= i < n => IntKey(lo + i))
  }

  /** No payload names an identifier. */
  predicate Anonymous(payloads: seq<map<string, Value>>)
  {
    forall i :: 0 <= i < |payloads| ==> Get(payloads[i], "id").Null?
  }

  lemma AnonymousTailPayloads(payloads: seq<map<string, Value>>)
    requires |payloads| > 0 && Anonymous(payloads)
    ensures Get(payloads[0], "id").Null? && Anonymous(payloads[1..])
  {
    var tail := payloads[1..];
    forall i | 0 <= i < |tail| ensures Get(tail[i], "id").Null? {
      assert tail[i] == payloads[i + 1];
    }
  }

  /** Creates without identifier advance the counter once each and keep it ahead. */
  lemma {:induction false} CreateAllCounter(s: Store, payloads: seq<map<string, Value>>)
    requires WellFormed(s) && CounterAhead(s) && Anonymous(payloads)
    ensures CreateAll(s, payloads).nextId == s.nextId + |payloads|
    ensures CounterAhead(CreateAll(s, payloads))
    decreases |payloads|
  {
    if |payloads| > 0 {
      AnonymousTailPayloads(payloads);
      CreateWithoutIdAppends(s, payloads[0]);
      CreateAllCounter(CreateBook(s, Obj(payloads[0])).0, payloads[1..]);
    }
  }

  /** Creates without identifier append their keys, counter values in order, to the listing. */
  lemma {:induction false} CreateAllOrder(s: Store, payloads: seq<map<string, Value>>)
    requires WellFormed(s) && CounterAhead(s) && Anonymous(payloads)
    ensures CreateAll(s, payloads).order == s.order + KeyRange(s.nextId, |payloads|)
    decreases |payloads|
  {
    if |payloads| == 0 {
      assert s.order + KeyRange(s.nextId, 0) == s.order;
    } else {
      var s1 := CreateBook(s, Obj(payloads[0])).0;
      var tail := payloads[1..];
      assert WellFormed(s1) && CounterAhead(s1) && Anonymous(tail)
        && s1.nextId == s.nextId + 1 && s1.order == s.order + [IntKey(s.nextId)] by {
        AnonymousTailPayloads(payloads);
        CreateWithoutIdAppends(s, payloads[0]);
      }
      CreateAllOrder(s1, tail);
      assert CreateAll(s, payloads) == CreateAll(s1, tail);
      OrderStep(s.order, s.nextId, |payloads|, s1.nextId, |tail|);
    }
  }

  /** Appending key `lo` and then the keys from `lo + 1` appends the keys from `lo`. */
  lemma OrderStep(order: seq<Key>, lo: int, n: nat, lo1: int, n1: nat)
    requires lo1 == lo + 1 && n1 + 1 == n
    ensures (order + [IntKey(lo)]) + KeyRange(lo1, n1) == order + KeyRange(lo, n)
  {
    KeyRangeCons(lo, n);
    AppendAssoc(order, [IntKey(lo)], KeyRange(lo1, n1));
  }

  /** Creates without identifier keep every book already stored. */
  lemma {:induction false} CreateAllKeeps(s: Store, payloads: seq<map<string, Value>>, k: Key)
    requires WellFormed(s) && CounterAhead(s) && Anonymous(payloads) && k in s.books
    ensures k in CreateAll(s, payloads).books
    ensures CreateAll(s, payloads).books[k] == s.books[k]
    decreases |payloads|
  {
    if |payloads| > 0 {
      var s1 := CreateBook(s, Obj(payloads[0])).0;
      AnonymousTailPayloads(payloads);
      CreateWithoutIdAppends(s, payloads[0]);
      assert k != IntKey(s.nextId);
      CreateAllKeeps(s1, payloads[1..], k);
    }
  }

  /** The `i`-th create without identifier stores its payload under `n`, the counter's value plus `i`. */
  lemma {:induction false} CreateAllNumbers(s: Store, payloads: seq<map<string, Value>>, i: nat, n: int)
    requires WellFormed(s) && CounterAhead(s) && Anonymous(payloads) && i < |payloads|
    requires n == s.nextId + i
    ensures IntKey(n) in CreateAll(s, payloads).books
    ensures CreateAll(s, payloads).books[IntKey(n)] == FromDict(payloads[i]).(id := Num(n))
    decreases |payloads|, 1
  {
    if i == 0 {
      CreateAllFirst(s, payloads, n);
    } else {
      CreateAllLater(s, payloads, i, n);
    }
  }

  /** A later create of the batch is the `i - 1`-th create of the tail, run after the first. */
  lemma {:induction false} CreateAllLater(s: Store, payloads: seq<map<string, Value>>, i: nat, n: int)
    requires WellFormed(s) && CounterAhead(s) && Anonymous(payloads) && 0 < i < |payloads|
    requires n == s.nextId + i
    ensures IntKey(n) in CreateAll(s, payloads).books
    ensures CreateAll(s, payloads).books[IntKey(n)] == FromDict(payloads[i]).(id := Num(n))
    decreases |payloads|, 0
  {
    var s1, tail, j := CreateAllShift(s, payloads, i, n);
    CreateAllNumbers(s1, tail, j, n);
  }

  /**
    Running a batch is running its tail after the first create, which
    advanced the counter by one; the `i`-th payload is the tail's `i - 1`-th.
   */
  lemma CreateAllShift(s: Store, payloads: seq<map<string, Value>>, i: nat, n: int)
    returns (s1: Store, tail: seq<map<string, Value>>, j: nat)
    requires WellFormed(s) && CounterAhead(s) && Anonymous(payloads) && 0 < i < |payloads|
    requires n == s.nextId + i
    ensures WellFormed(s1) && CounterAhead(s1) && Anonymous(tail)
    ensures |tail| + 1 == |payloads| && j < |tail| && tail[j] == payloads[i] && n == s1.nextId + j
    ensures CreateAll(s, payloads) == CreateAll(s1, tail)
  {
    s1 := CreateBook(s, Obj(payloads[0])).0;
    tail := payloads[1..];
    j := i - 1;
    AnonymousTailPayloads(payloads);
    CreateWithoutIdAppends(s, payloads[0]);
  }

  /** The first create without identifier stores its payload under the counter's value, and later ones keep it. */
  lemma CreateAllFirst(s: Store, payloads: seq<map<string, Value>>, n: int)
    requires WellFormed(s) && CounterAhead(s) && Anonymous(payloads) && 0 < |payloads|
    requires n == s.nextId
    ensures IntKey(n) in CreateAll(s, payloads).books
    ensures CreateAll(s, payloads).books[IntKey(n)] == FromDict(payloads[0]).(id := Num(n))
  {
    var s1 := CreateBook(s, Obj(payloads[0])).0;
    AnonymousTailPayloads(payloads);
    assert && CounterAhead(s1)
           && IntKey(n) in s1.books
           && s1.books[IntKey(n)] == FromDict(payloads[0]).(id := Num(n)) by {
      CreateWithoutIdAppends(s, payloads[0]);
    }
    assert CreateAll(s, payloads) == CreateAll(s1, payloads[1..]);
    CreateAllKeeps(s1, payloads[1..], IntKey(n));
  }

  lemma AppendAssoc(a: seq<Key>, b: seq<Key>, c: seq<Key>)
    ensures (a + b) + c == a + (b + c)
  {
  }

  lemma KeyRangeCons(lo: int, n: nat)
    requires n > 0
    ensures KeyRange(lo, n) == [IntKey(lo)] + KeyRange(lo + 1, n - 1)
  {
  }

  lemma KeyRangeFromOne()
    ensures KeyRange(1, 3) == [IntKey(1), IntKey(2), IntKey(3)]
  {
    var r := KeyRange(1, 3);
    assert r[0] == IntKey(1) && r[1] == IntKey(2) && r[2] == IntKey(3);
  }

  lemma SampleBooksAnonymous()
    ensures Anonymous(SampleBooks)
  {
  }

  /** The seeded store lists the sample books under identifiers 1, 2 and 3, in that order, and will hand out 4 next. */
  lemma SeededOrder()
    ensures CreateAll(Empty(), SampleBooks).order == [IntKey(1), IntKey(2), IntKey(3)]
    ensures CreateAll(Empty(), SampleBooks).nextId == 4
  {
    SampleBooksAnonymous();
    CreateAllCounter(Empty(), SampleBooks);
    CreateAllOrder(Empty(), SampleBooks);
    KeyRangeFromOne();
  }

  /** The seeded store holds the `i`-th sample book, with identifier `i + 1`, under key `i + 1`. */
  lemma SeededBooks(i: nat)
    requires i < |SampleBooks|
    ensures IntKey(i + 1) in CreateAll(Empty(), SampleBooks).books
    ensures CreateAll(Empty(), SampleBooks).books[IntKey(i + 1)] == FromDict(SampleBooks[i]).(id := Num(i + 1))
  {
    SampleBooksAnonymous();
    CreateAllNumbers(Empty(), SampleBooks, i, i + 1);
  }

  /**
    Two creates without identifier on a fresh store: the first is stored
    under 1, the second under 2, and the store lists exactly those keys.
   */
  lemma TwoCreatesStored(a: map<string, Value>, b: map<string, Value>)
    requires Get(a, "id").Null? && Get(b, "id").Null?
    ensures
      var s1 := CreateBook(Empty(), Obj(a)).0;
      var s2 := CreateBook(s1, Obj(b)).0;
      && s2.order == [IntKey(1), IntKey(2)] && s2.nextId == 3 && CounterAhead(s2)
      && IntKey(1) in s2.books && s2.books[IntKey(1)] == FromDict(a).(id := Num(1))
      && IntKey(2) in s2.books && s2.books[IntKey(2)] == FromDict(b).(id := Num(2))
  {
    var s0 := Empty();
    var s1 := CreateBook(s0, Obj(a)).0;
    assert && WellFormed(s1) && CounterAhead(s1)
           && s1.order == [IntKey(1)] && s1.nextId == 2
           && IntKey(1) in s1.books && s1.books[IntKey(1)] == FromDict(a).(id := Num(1)) by {
      CreateWithoutIdAppends(s0, a);
    }
    var s2 := CreateBook(s1, Obj(b)).0;
    assert && CounterAhead(s2)
           && s2.order == [IntKey(1)] + [IntKey(2)] && s2.nextId == 3
           && s2.books == s1.books[IntKey(2) := FromDict(b).(id := Num(2))] by {
      CreateWithoutIdAppends(s1, b);
    }
    PairDisplay(IntKey(1), IntKey(2));
  }

  /** The two creates answer with the dict forms of the two stored books, numbered 1 and 2. */
  lemma TwoCreates(a: map<string, Value>, b: map<string, Value>)
    requires Get(a, "id").Null? && Get(b, "id").Null?
    ensures
      var s1 := CreateBook(Empty(), Obj(a)).0;
      var s2 := CreateBook(s1, Obj(b)).0;
      var ra := CreateBook(Empty(), Obj(a)).1;
      var rb := CreateBook(s1, Obj(b)).1;
      && ra.Done? && ra.value["id"] == Num(1)
      && rb.Done? && rb.value["id"] == Num(2)
      && ra.value == ToDict(s2.books[IntKey(1)])
      && rb.value == ToDict(s2.books[IntKey(2)])
  {
    TwoCreatesStored(a, b);
    var s0 := Empty();
    var s1 := CreateBook(s0, Obj(a)).0;
    assert CreateBook(s0, Obj(a)).1 == Done(ToDict(FromDict(a).(id := Num(1)))) && WellFormed(s1) && s1.nextId == 2 by {
      CreateWithoutIdAppends(s0, a);
    }
    assert CreateBook(s1, Obj(b)).1 == Done(ToDict(FromDict(b).(id := Num(2)))) by {
      CreateWithoutIdAppends(s1, b);
    }
  }

  /** After the two creates, listing the books returns the two answers, first one first. */
  lemma TwoCreatesListed(a: map<string, Value>, b: map<string, Value>)
    requires Get(a, "id").Null? && Get(b, "id").Null?
    ensures
      var s1 := CreateBook(Empty(), Obj(a)).0;
      var s2 := CreateBook(s1, Obj(b)).0;
      GetAllBooks(s2) == [CreateBook(Empty(), Obj(a)).1.value, CreateBook(s1, Obj(b)).1.value]
  {
    TwoCreatesStored(a, b);
    TwoCreates(a, b);
    ListingOfTwo(CreateBook(CreateBook(Empty(), Obj(a)).0, Obj(b)).0);
  }

  lemma PairDisplay(x: Key, y: Key)
    ensures [x] + [y] == [x, y]
  {
  }

  /** A store listing exactly two keys lists the dict forms of their two books. */
  lemma ListingOfTwo(s: Store)
    requires WellFormed(s) && |s.order| == 2
    ensures GetAllBooks(s) == [ToDict(s.books[s.order[0]]), ToDict(s.books[s.order[1]])]
  {
    GetAllBooksInOrder(s);
  }

  /** On a store listing keys 1 and 2, deleting "1" succeeds and leaves only the book under 2 listed. */
  lemma DeleteFirstOfPair(s: Store)
    requires WellFormed(s) && s.order == [IntKey(1), IntKey(2)]
    ensures DeleteBook(s, "1").1 == Done(())
    ensures GetAllBooks(DeleteBook(s, "1").0) == [ToDict(s.books[IntKey(2)])]
  {
    assert ParseInt("1") == Some(1) by {
      ParseIntAccepts();
    }
    var s' := DeleteBook(s, "1").0;
    assert s'.order == [IntKey(2)] by {
      assert s'.order == Without(s.order, IntKey(1));
    }
    assert s'.books[IntKey(2)] == s.books[IntKey(2)];
    ListingOfOne(s');
  }

  /** A store listing a single key lists the dict form of its one book. */
  lemma ListingOfOne(s: Store)
    requires WellFormed(s) && |s.order| == 1
    ensures GetAllBooks(s) == [ToDict(s.books[s.order[0]])]
  {
    GetAllBooksInOrder(s);
  }

  /** Continuing from `TwoCreates`: deleting 1 succeeds and leaves only B listed. */
  lemma DeleteFirstOfTwo(a: map<string, Value>, b: map<string, Value>)
    requires Get(a, "id").Null? && Get(b, "id").Null?
    ensures
      var s1 := CreateBook(Empty(), Obj(a)).0;
      var s2 := CreateBook(s1, Obj(b)).0;
      var rb := CreateBook(s1, Obj(b)).1;
      && DeleteBook(s2, "1").1 == Done(())
      && GetAllBooks(DeleteBook(s2, "1").0) == [rb.value]
  {
    TwoCreatesStored(a, b);
    TwoCreates(a, b);
    DeleteFirstOfPair(CreateBook(CreateBook(Empty(), Obj(a)).0, Obj(b)).0);
  }

  /** Continuing: a create after deleting 1 gets identifier 3, not the freed 1. */
  lemma CreateAfterDelete(a: map<string, Value>, b: map<string, Value>, c: map<string, Value>)
    requires Get(a, "id").Null? && Get(b, "id").Null? && Get(c, "id").Null?
    ensures
      var s1 := CreateBook(Empty(), Obj(a)).0;
      var s2 := CreateBook(s1, Obj(b)).0;
      var rc := CreateBook(DeleteBook(s2, "1").0, Obj(c)).1;
      rc.Done? && rc.value["id"] == Num(3)
  {
    TwoCreatesStored(a, b);
  }
}
