/** Vocabulary shared by every component: optional values, results, bytes, and
    facts about finite sets and sequences. */
module Basics {

  datatype Option<+T> = None | Some(value: T)

  datatype Result<+T, +E> = Ok(value: T) | Err(error: E)

  newtype byte = x: int | 0 <= x < 256

  type bytes = seq<byte>

  function Min(a: int, b: int): int { if a < b then a else b }

  function Max(a: int, b: int): int { if a < b then b else a }

  /** Counting is monotone: a part is never larger than the whole. */
  lemma SubsetSize<T>(part: set<T>, whole: set<T>)
    requires part <= whole
    ensures |part| <= |whole|
    decreases part
  {
    if part != {} {
      var x :| x in part;
      SubsetSize(part - {x}, whole - {x});
    }
  }

  /** Dividing by a product is dividing twice. */
  lemma DivideTwice(v: nat, base: nat, high: nat)
    requires base > 0 && high > 0
    ensures base * high > 0 && v / (base * high) == v / base / high
    ensures v % (base * high) == base * (v / base % high) + v % base
  {
    Divided(v, base);
    Divided(v / base, high);
    Bounded(base, high, 0, 0);
    PartsOf(v, base, high, base * high, v / base, v % base, v / base / high, v / base % high);
  }

  lemma PartsOf(v: nat, base: nat, high: nat, size: nat, a: nat, d: nat, q: nat, r: nat)
    requires v == base * a + d && d < base && a == high * q + r && r < high && size == base * high && size > 0
    ensures v / size == q && v % size == base * r + d
  {
    Distribute(base, high, q, r);
    Bounded(base, high, r, d);
    Divided(v, size);
    OneRemainder(size, v / size, v % size, q, base * r + d);
  }

  lemma Divided(v: nat, size: nat)
    requires size > 0
    ensures v == size * (v / size) + v % size && v % size < size
  {
  }

  lemma Distribute(base: nat, high: nat, q: nat, r: nat)
    ensures base * (high * q + r) == base * high * q + base * r
  {
  }

  lemma Bounded(base: nat, high: nat, r: nat, d: nat)
    requires r < high && d < base
    ensures base * r + d < base * high
  {
    assert base * (r + 1) <= base * high;
  }

  lemma OneRemainder(size: nat, a: nat, b: nat, q: nat, r: nat)
    requires size * a + b == size * q + r && b < size && r < size
    ensures a == q && b == r
  {
    Grows(size, a + 1, q);
    Grows(size, q + 1, a);
  }

  lemma Grows(size: nat, a: nat, b: nat)
    ensures a <= b ==> size * a <= size * b
  {
  }

  lemma SliceOfSuffix<T>(s: seq<T>, at: nat, from: nat, to: nat)
    requires at + from <= at + to <= |s|
    ensures s[at..][from..to] == s[at + from..at + to] && s[at..][to..] == s[at + to..]
  {
  }

  lemma Regroup<T>(a: seq<T>, b: seq<T>, c: seq<T>)
    ensures a + (b + c) == a + b + c
  {
  }

  /** The bytes of a list of chunks, in order. */
  function Concat<T>(chunks: seq<seq<T>>): (all: seq<T>) {
    if chunks == [] then [] else chunks[0] + Concat(chunks[1..])
  }

  lemma {:induction false} ConcatAppend<T>(front: seq<seq<T>>, back: seq<seq<T>>)
    ensures Concat(front + back) == Concat(front) + Concat(back)
  {
    if front == [] {
      assert front + back == back;
    } else {
      ConcatAppend(front[1..], back);
      assert (front + back)[1..] == front[1..] + back;
    }
  }

  lemma ConcatSnoc<T>(front: seq<seq<T>>, last: seq<T>)
    ensures Concat(front + [last]) == Concat(front) + last
  {
    ConcatAppend(front, [last]);
    assert Concat([last]) == last + Concat<T>([]);
  }
}
