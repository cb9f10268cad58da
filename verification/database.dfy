/**
  The in-memory store: an insertion-ordered dict from identifier to book,
  plus the counter that hands out identifiers.

  Python's dict is modelled as the sequence of its keys in insertion order
  next to a map holding the values. Assigning to a key already present keeps
  its position; a new key goes to the end; deleting removes it from both.
 */
module Database {
  import opened Options
  import opened Json
  import opened Books

  /**
    A dict key. Python's dict identifies `True` with `1` and `False` with `0`,
    so a boolean identifier lands on the same key as the integer.
   */
  datatype Key = IntKey(n: int) | StrKey(s: string)

  /**
    The key a non-null identifier is stored under, or None when the value is
    unhashable (a JSON list or object) and the dict assignment raises TypeError.
   */
  function KeyOf(id: Value): (k: Option<Key>)
    requires !id.Null?
    ensures k.None? <==> id.Arr? || id.Obj?
    ensures id.Num? ==> k == Some(IntKey(id.n))
    ensures id.Bool? ==> k == Some(IntKey(if id.b then 1 else 0))
    ensures id.Str? ==> k == Some(StrKey(id.s))
  {
    match id
    case Bool(b) => Some(IntKey(if b then 1 else 0))
    case Num(n) => Some(IntKey(n))
    case Str(s) => Some(StrKey(s))
    case Arr(_) => None
    case Obj(_) => None
  }

  datatype Store = Store(order: seq<Key>, books: map<Key, Book>, nextId: int)

  predicate NoDuplicates(keys: seq<Key>)
  {
    forall i, j :: 0 <= i < j < |keys| ==> keys[i] != keys[j]
  }

  /** The order sequence lists every key of the map exactly once. */
  predicate WellFormed(s: Store)
  {
    && NoDuplicates(s.order)
    && (forall k :: k in s.books ==> k in s.order)
    && (forall k :: k in s.order ==> k in s.books)
  }

  /** Every key is the key of its book's own identifier. */
  predicate KeysMatchIds(s: Store)
  {
    forall k :: k in s.books ==> !s.books[k].id.Null? && KeyOf(s.books[k].id) == Some(k)
  }

  /** The store invariant kept by every operation. */
  predicate Valid(s: Store)
  {
    WellFormed(s) && KeysMatchIds(s) && s.nextId >= 1
  }

  /**
    No integer key has reached the counter yet, so the next identifier the
    counter hands out is free. Only a caller-supplied identifier can break this.
   */
  predicate CounterAhead(s: Store)
  {
    forall k :: k in s.books && k.IntKey? ==> k.n < s.nextId
  }

  /** `Database()`: no books, and the counter starts at 1. */
  function Empty(): (s: Store)
    ensures Valid(s) && CounterAhead(s)
    ensures s.books == map[] && s.nextId == 1
  {
    Store([], map[], 1)
  }

  /**
    `get_all_books`: every stored book exactly once, in the dict's insertion
    order.
   */
  function List(s: Store): (r: seq<Book>)
    requires WellFormed(s)
    ensures |r| == |s.order| == |s.books|
    ensures forall i :: 0 <= i < |r| ==> s.order[i] in s.books && r[i] == s.books[s.order[i]]
  {
    WellFormedSize(s);
    seq(|s.order|, i requires 0 <= i < |s.order| => s.books[s.order[i]])
  }

  /** Every stored book appears in the listing. */
  lemma ListHoldsEveryBook(s: Store, k: Key)
    requires WellFormed(s) && k in s.books
    ensures s.books[k] in List(s)
  {
    var i :| 0 <= i < |s.order| && s.order[i] == k;
    assert List(s)[i] == s.books[k];
  }

  /** The order has as many entries as the map has keys. */
  lemma WellFormedSize(s: Store)
    requires WellFormed(s)
    ensures |s.order| == |s.books|
  {
    var keys := set k | k in s.order;
    assert keys == s.books.Keys;
    NoDuplicatesCard(s.order);
  }

  lemma {:induction false} NoDuplicatesCard(keys: seq<Key>)
    requires NoDuplicates(keys)
    ensures |set k | k in keys| == |keys|
  {
    if |keys| > 0 {
      var tail := keys[1..];
      NoDuplicatesCard(tail);
      assert (set k | k in keys) == (set k | k in tail) + {keys[0]};
      assert keys[0] !in tail;
    }
  }


  /** `get_book_by_id` on an integer identifier. */
  function Find(s: Store, id: int): (r: Option<Book>)
    ensures r.Some? <==> IntKey(id) in s.books
    ensures r.Some? ==> r.value == s.books[IntKey(id)]
  {
    if IntKey(id) in s.books then Some(s.books[IntKey(id)]) else None
  }

  /** `books[k] = b`: overwrite in place when `k` is present, else append. */
  function Put(s: Store, k: Key, b: Book): (r: Store)
    requires WellFormed(s)
    ensures WellFormed(r)
    ensures r.books == s.books[k := b] && r.nextId == s.nextId
    ensures k in s.books ==> r.order == s.order
    ensures k !in s.books ==> r.order == s.order + [k]
  {
    if k in s.books then s.(books := s.books[k := b])
    else Store(s.order + [k], s.books[k := b], s.nextId)
  }

  /**
    `add_book`: a book without identifier gets the counter's value and the
    counter advances; a book with one keeps it and the counter stays. Either
    way the book is stored under its key, replacing any book already there.
    None is the TypeError of an unhashable identifier; nothing changes then.
   */
  function Add(s: Store, b: Book): (r: Option<(Store, Book)>)
    requires WellFormed(s)
    ensures r.None? <==> b.id.Arr? || b.id.Obj?
    ensures b.id.Null? ==> r.Some? && r.value.1 == b.(id := Num(s.nextId)) && r.value.0.nextId == s.nextId + 1
    ensures !b.id.Null? && r.Some? ==> r.value.1 == b && r.value.0.nextId == s.nextId
    ensures r.Some? ==>
      var (s', stored) := r.value;
      && WellFormed(s')
      && KeyOf(stored.id).Some?
      && s'.books == s.books[KeyOf(stored.id).value := stored]
      && (KeyOf(stored.id).value in s.books ==> s'.order == s.order)
      && (KeyOf(stored.id).value !in s.books ==> s'.order == s.order + [KeyOf(stored.id).value])
  {
    if b.id.Null? then
      var stored := b.(id := Num(s.nextId));
      Some((Put(s.(nextId := s.nextId + 1), IntKey(s.nextId), stored), stored))
    else
      match KeyOf(b.id)
      case None => None
      case Some(k) => Some((Put(s, k, b), b))
  }

  /**
    `update_book`: on a present key the book, its identifier forced to that
    key, replaces the stored one and the answer is true; on an absent key the
    answer is false and the store is untouched.
   */
  function Update(s: Store, id: int, b: Book): (r: (Store, bool))
    requires WellFormed(s)
    ensures r.1 <==> IntKey(id) in s.books
    ensures !r.1 ==> r.0 == s
    ensures r.1 ==> r.0 == s.(books := s.books[IntKey(id) := b.(id := Num(id))])
    ensures WellFormed(r.0)
  {
    if IntKey(id) in s.books then (s.(books := s.books[IntKey(id) := b.(id := Num(id))]), true)
    else (s, false)
  }

  /** The first position of `k` in `keys`. */
  function IndexOf(keys: seq<Key>, k: Key): (p: nat)
    requires k in keys
    ensures p < |keys| && keys[p] == k && k !in keys[..p]
  {
    if keys[0] == k then 0
    else
      var p := IndexOf(keys[1..], k);
      assert keys[..p + 1] == [keys[0]] + keys[1..][..p];
      p + 1
  }

  /**
    `keys` with `k` taken out. The other keys keep their relative order: on
    a duplicate-free listing, exactly the one position holding `k` goes.
   */
  function Without(keys: seq<Key>, k: Key): (r: seq<Key>)
    ensures forall x :: x in r <==> x in keys && x != k
    ensures NoDuplicates(keys) ==> NoDuplicates(r)
    ensures k !in keys ==> r == keys
    ensures k in keys && NoDuplicates(keys) ==> r == keys[..IndexOf(keys, k)] + keys[IndexOf(keys, k) + 1..]
  {
    if |keys| == 0 then []
    else
      var rest := Without(keys[1..], k);
      var r := if keys[0] == k then rest else [keys[0]] + rest;
      WithoutStepMembers(keys, k, rest, r);
      WithoutStepNoDuplicates(keys, k, rest, r);
      if keys[0] == k then
        DroppedHeadPosition(keys, k, rest);
        r
      else
        KeptHeadDropsPosition(keys, k, rest);
        r
  }

  /** `Without`'s membership clause carries over from the tail to the whole listing. */
  lemma WithoutStepMembers(keys: seq<Key>, k: Key, rest: seq<Key>, r: seq<Key>)
    requires |keys| > 0 && r == if keys[0] == k then rest else [keys[0]] + rest
    requires forall x :: x in rest <==> x in keys[1..] && x != k
    ensures forall x :: x in r <==> x in keys && x != k
  {
    assert keys == [keys[0]] + keys[1..];
  }

  /** `Without`'s no-duplicates clause carries over from the tail to the whole listing. */
  lemma WithoutStepNoDuplicates(keys: seq<Key>, k: Key, rest: seq<Key>, r: seq<Key>)
    requires |keys| > 0 && r == if keys[0] == k then rest else [keys[0]] + rest
    requires forall x :: x in rest ==> x in keys[1..]
    requires NoDuplicates(keys[1..]) ==> NoDuplicates(rest)
    ensures NoDuplicates(keys) ==> NoDuplicates(r)
  {
    if NoDuplicates(keys) {
      var tail := keys[1..];
      assert NoDuplicates(tail) by {
        forall i, j | 0 <= i < j < |tail| ensures tail[i] != tail[j] {
          assert keys[i + 1] == tail[i] && keys[j + 1] == tail[j];
        }
      }
      if keys[0] != k {
        assert keys[0] !in rest by {
          forall j | 0 <= j < |tail| ensures tail[j] != keys[0] {
            assert keys[j + 1] == tail[j];
          }
        }
        forall i, j | 0 <= i < j < |r| ensures r[i] != r[j] {
          if i == 0 {
            assert r[j] == rest[j - 1];
          } else {
            assert r[i] == rest[i - 1] && r[j] == rest[j - 1];
          }
        }
      }
    }
  }

  /** The step of `Without`'s order clause for a listing whose head is `k`. */
  lemma DroppedHeadPosition(keys: seq<Key>, k: Key, rest: seq<Key>)
    requires |keys| > 0 && keys[0] == k
    requires k !in keys[1..] ==> rest == keys[1..]
    ensures NoDuplicates(keys) ==> k !in keys[1..]
    ensures NoDuplicates(keys) ==> rest == keys[..IndexOf(keys, k)] + keys[IndexOf(keys, k) + 1..]
  {
    if NoDuplicates(keys) {
      assert k !in keys[1..] by {
        forall j | 0 <= j < |keys[1..]| ensures keys[1..][j] != k {
          assert keys[j + 1] != keys[0];
        }
      }
      assert keys[..0] + keys[1..] == keys[1..];
    }
  }

  /** The step of `Without`'s order clause for a listing whose head is kept. */
  lemma KeptHeadDropsPosition(keys: seq<Key>, k: Key, rest: seq<Key>)
    requires |keys| > 0 && keys[0] != k
    requires k in keys[1..] && NoDuplicates(keys[1..]) ==>
      rest == keys[1..][..IndexOf(keys[1..], k)] + keys[1..][IndexOf(keys[1..], k) + 1..]
    ensures k in keys && NoDuplicates(keys) ==>
      [keys[0]] + rest == keys[..IndexOf(keys, k)] + keys[IndexOf(keys, k) + 1..]
  {
    if k in keys && NoDuplicates(keys) {
      var tail := keys[1..];
      var q := IndexOf(tail, k);
      assert IndexOf(keys, k) == q + 1;
      assert NoDuplicates(tail);
      assert keys[..q + 1] == [keys[0]] + tail[..q];
      assert keys[q + 2..] == tail[q + 1..];
    }
  }

  /**
    `delete_book`: a present key leaves both the map and the order and the
    answer is true; an absent key gives false and no change. The counter is
    never touched.
   */
  function Delete(s: Store, id: int): (r: (Store, bool))
    requires WellFormed(s)
    ensures r.1 <==> IntKey(id) in s.books
    ensures !r.1 ==> r.0 == s
    ensures r.1 ==> r.0.books == s.books - {IntKey(id)} && r.0.order == Without(s.order, IntKey(id))
    ensures r.0.nextId == s.nextId
    ensures WellFormed(r.0)
  {
    if IntKey(id) in s.books then
      (Store(Without(s.order, IntKey(id)), s.books - {IntKey(id)}, s.nextId), true)
    else (s, false)
  }

  // ---------------------------------------------------------------------
  // Properties of the store operations

  /** Every operation keeps the store invariant. */
  lemma AddKeepsValid(s: Store, b: Book)
    requires WellFormed(s)
    ensures Valid(s) && Add(s, b).Some? ==> Valid(Add(s, b).value.0)
  {
  }

  lemma UpdateKeepsValid(s: Store, id: int, b: Book)
    requires WellFormed(s)
    ensures Valid(s) ==> Valid(Update(s, id, b).0)
  {
  }

  lemma DeleteKeepsValid(s: Store, id: int)
    requires WellFormed(s)
    ensures Valid(s) ==> Valid(Delete(s, id).0)
  {
  }

  /**
    On a store whose counter is ahead of every integer key, a book without
    identifier takes a free key: it is appended to the listing, nothing is
    overwritten, and the counter stays ahead.
   */
  lemma AddFreshAppends(s: Store, b: Book)
    requires WellFormed(s) && CounterAhead(s) && b.id.Null?
    ensures var (s', stored) := Add(s, b).value;
      && IntKey(s.nextId) !in s.books
      && List(s') == List(s) + [stored]
      && stored.id == Num(s.nextId)
      && CounterAhead(s')
  {
    var (s', stored) := Add(s, b).value;
    var k := IntKey(s.nextId);
    assert k !in s.books;
    ListAppends(s, s', k, stored);
  }

  /** Storing a book under a new key appends it to the listing. */
  lemma ListAppends(s: Store, s': Store, k: Key, b: Book)
    requires WellFormed(s) && WellFormed(s') && k !in s.books
    requires s'.order == s.order + [k] && s'.books == s.books[k := b]
    ensures List(s') == List(s) + [b]
  {
    var l, l' := List(s), List(s');
    forall i | 0 <= i < |l'|
      ensures l'[i] == (l + [b])[i]
    {
      ListAppendsAt(s, s', k, b, i);
    }
  }

  lemma ListAppendsAt(s: Store, s': Store, k: Key, b: Book, i: nat)
    requires WellFormed(s) && WellFormed(s') && k !in s.books
    requires s'.order == s.order + [k] && s'.books == s.books[k := b]
    requires i < |s'.order|
    ensures List(s')[i] == (List(s) + [b])[i]
  {
    if i < |s.order| {
      assert s'.order[i] == s.order[i] != k;
    }
  }

  /** A caller-supplied identifier keeps the counter ahead exactly when it is not an integer at or beyond the counter. */
  lemma AddGivenIdCounterAhead(s: Store, b: Book)
    requires WellFormed(s) && CounterAhead(s) && !b.id.Null? && KeyOf(b.id).Some?
    ensures CounterAhead(Add(s, b).value.0) <==> !(KeyOf(b.id).value.IntKey? && KeyOf(b.id).value.n >= s.nextId)
  {
  }

  lemma UpdateKeepsCounterAhead(s: Store, id: int, b: Book)
    requires WellFormed(s) && CounterAhead(s)
    ensures CounterAhead(Update(s, id, b).0)
  {
  }

  lemma DeleteKeepsCounterAhead(s: Store, id: int)
    requires WellFormed(s) && CounterAhead(s)
    ensures CounterAhead(Delete(s, id).0)
  {
  }

  /**
    Storing under a key already present keeps its position in the listing:
    only that position changes.
   */
  lemma PutExistingKeepsPosition(s: Store, k: Key, b: Book)
    requires WellFormed(s) && k in s.books
    ensures |List(Put(s, k, b))| == |List(s)|
    ensures forall i :: 0 <= i < |s.order| ==>
      List(Put(s, k, b))[i] == (if s.order[i] == k then b else List(s)[i])
  {
  }

  /** A successful update keeps the updated book's position and every other book. */
  lemma UpdateKeepsPosition(s: Store, id: int, b: Book)
    requires WellFormed(s) && IntKey(id) in s.books
    ensures var s' := Update(s, id, b).0;
      && s'.order == s.order
      && |List(s')| == |List(s)|
      && forall i :: 0 <= i < |s.order| ==>
        List(s')[i] == (if s.order[i] == IntKey(id) then b.(id := Num(id)) else List(s)[i])
  {
    PutExistingKeepsPosition(s, IntKey(id), b.(id := Num(id)));
  }

  /** After a successful delete the identifier is not found, and the listing is one shorter. */
  lemma DeleteThenFind(s: Store, id: int)
    requires WellFormed(s) && IntKey(id) in s.books
    ensures Find(Delete(s, id).0, id).None?
    ensures |List(Delete(s, id).0)| == |List(s)| - 1
  {
    var s' := Delete(s, id).0;
    WithoutShortens(s.order, IntKey(id));
  }

  lemma {:induction false} WithoutShortens(keys: seq<Key>, k: Key)
    requires NoDuplicates(keys) && k in keys
    ensures |Without(keys, k)| == |keys| - 1
  {
    if keys[0] == k {
      assert k !in keys[1..];
    } else {
      WithoutShortens(keys[1..], k);
    }
  }

  /** The counter never goes down, and only a create without identifier moves it. */
  lemma CounterMonotone(s: Store, b: Book, id: int)
    requires WellFormed(s)
    ensures Add(s, b).Some? ==> Add(s, b).value.0.nextId == s.nextId + (if b.id.Null? then 1 else 0)
    ensures Update(s, id, b).0.nextId == s.nextId
    ensures Delete(s, id).0.nextId == s.nextId
  {
  }

  /**
    The counter can collide with a caller-supplied identifier: storing a book
    with id 2 into a fresh store, then two books without identifier, makes the
    second of those replace the first book.
   */
  lemma CallerIdCollides(a: Book, b: Book, c: Book)
    requires a.id == Num(2) && b.id.Null? && c.id.Null?
    ensures var s1 := Add(Empty(), a).value.0;
      var s2 := Add(s1, b).value.0;
      var (s3, stored) := Add(s2, c).value;
      && stored.id == Num(2)
      && s3.books[IntKey(2)] == stored
      && |s3.books| == 2
  {
    var s1 := Add(Empty(), a).value.0;
    var s2 := Add(s1, b).value.0;
    var s3 := Add(s2, c).value.0;
    assert s2.books.Keys == {IntKey(2), IntKey(1)};
    assert s3.books.Keys == {IntKey(2), IntKey(1)};
  }
}
