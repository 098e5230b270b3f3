/**
 Byte strings that are read as one self-delimiting item after another: the log,
 a block and an index are all such strings. `next` says what the first item of a
 byte string is.
 */
module Frames {
  import opened Bytes
  import opened Records

  datatype Next<+R, +E> = Stop | Bad(error: E) | Frame(item: R, size: nat)

  datatype Parsed<+R> = Parsed(items: seq<R>, length: nat)

  function Cons<R, E>(r: R, size: nat, rest: Result<Parsed<R>, E>): Result<Parsed<R>, E>
  {
    match rest
    case Err(e) => Err(e)
    case Ok(v) => Ok(Parsed([r] + v.items, size + v.length))
  }

  function Prepend<R, E>(rs: seq<R>, size: nat, rest: Result<Parsed<R>, E>): Result<Parsed<R>, E>
  {
    match rest
    case Err(e) => Err(e)
    case Ok(v) => Ok(Parsed(rs + v.items, size + v.length))
  }

  /** The items at the front of `data`, and how many bytes they take. */
  function ReadAll<R, E>(next: Bytes -> Next<R, E>, data: Bytes): Result<Parsed<R>, E>
    decreases |data|
  {
    match next(data)
    case Stop => Ok(Parsed([], 0))
    case Bad(e) => Err(e)
    case Frame(r, size) =>
      if 0 < size <= |data| then Cons(r, size, ReadAll(next, data[size..])) else Ok(Parsed([], 0))
  }

  function EncodeAll<R>(encode: R -> Bytes, rs: seq<R>): Bytes
    decreases |rs|
  {
    if rs == [] then [] else encode(rs[0]) + EncodeAll(encode, rs[1..])
  }

  ghost predicate Agree<R, E>(next: Bytes -> Next<R, E>, other: Bytes -> Next<R, E>, d: Bytes, e: Bytes)
  {
    next(d).Frame? && 0 < next(d).size <= |d| && next(d).size <= |e| && e[..next(d).size] == d[..next(d).size]
    ==> other(e) == next(d)
  }

  /** The first item depends on its own bytes alone, and two readers agree on it. */
  ghost predicate Local<R, E>(next: Bytes -> Next<R, E>, other: Bytes -> Next<R, E>)
  {
    forall d, e :: Agree(next, other, d, e)
  }

  /** An encoded item is read as itself, whatever follows it. */
  ghost predicate Reads<R, E>(next: Bytes -> Next<R, E>, encode: R -> Bytes, r: R)
  {
    |encode(r)| > 0 && forall rest :: next(encode(r) + rest) == Frame(r, |encode(r)|)
  }

  lemma NothingBefore<R, E>(rest: Result<Parsed<R>, E>)
    ensures Prepend([], 0, rest) == rest
  {
    if rest.Ok? {
      assert [] + rest.value.items == rest.value.items;
    }
  }

  lemma NothingAfter<R, E>(rs: seq<R>, size: nat)
    ensures Prepend<R, E>(rs, size, Ok(Parsed([], 0))) == Ok(Parsed(rs, size))
  {
    assert rs + [] == rs;
  }

  lemma PrependError<R, E>(rs: seq<R>, size: nat)
    ensures forall e: E :: Prepend(rs, size, Err(e)) == Err(e)
  {
  }

  lemma PrependCons<R, E>(rs: seq<R>, n: nat, r: R, size: nat, rest: Result<Parsed<R>, E>)
    ensures Prepend(rs, n, Cons(r, size, rest)) == Prepend(rs + [r], n + size, rest)
  {
    if rest.Ok? {
      assert rs + ([r] + rest.value.items) == rs + [r] + rest.value.items;
    }
  }

  lemma ConsPrepend<R, E>(r: R, size: nat, rs: seq<R>, n: nat, rest: Result<Parsed<R>, E>)
    ensures Cons(r, size, Prepend(rs, n, rest)) == Prepend([r] + rs, size + n, rest)
  {
    if rest.Ok? {
      assert [r] + (rs + rest.value.items) == [r] + rs + rest.value.items;
    }
  }

  /** Encoded items are read back, whatever follows them. */
  lemma {:induction false} ReadEncoded<R, E>(next: Bytes -> Next<R, E>, encode: R -> Bytes, rs: seq<R>, rest: Bytes)
    requires forall r | r in rs :: Reads(next, encode, r)
    ensures ReadAll(next, EncodeAll(encode, rs) + rest) == Prepend(rs, |EncodeAll(encode, rs)|, ReadAll(next, rest))
    decreases |rs|
  {
    if rs == [] {
      assert EncodeAll(encode, rs) + rest == rest;
      NothingBefore(ReadAll(next, rest));
    } else {
      var head, tail := encode(rs[0]), EncodeAll(encode, rs[1..]);
      assert Reads(next, encode, rs[0]);
      assert (head + tail) + rest == head + (tail + rest);
      assert (head + (tail + rest))[|head|..] == tail + rest;
      ReadEncoded(next, encode, rs[1..], rest);
      ConsPrepend(rs[0], |head|, rs[1..], |tail|, ReadAll(next, rest));
      assert rs == [rs[0]] + rs[1..];
    }
  }

  lemma KeptParts(data: Bytes, size: nat, length: nat, more: Bytes)
    requires size + length <= |data|
    ensures (data[..size + length] + more)[..size] == data[..size]
    ensures (data[..size + length] + more)[size..] == data[size..][..length] + more
  {
  }

  /** The bytes that were read are whole items: anything may follow them. */
  lemma {:induction false} ReadThen<R, E>(next: Bytes -> Next<R, E>, other: Bytes -> Next<R, E>, data: Bytes,
          more: Bytes)
    requires Local(next, other) && ReadAll(next, data).Ok?
    ensures var v := ReadAll(next, data).value;
            && v.length <= |data|
            && ReadAll(other, data[..v.length] + more) == Prepend(v.items, v.length, ReadAll(other, more))
    decreases |data|
  {
    var v := ReadAll(next, data).value;
    if next(data).Frame? && 0 < next(data).size <= |data| {
      var size := next(data).size;
      ReadThen(next, other, data[size..], more);
      var w := ReadAll(next, data[size..]).value;
      var kept := data[..v.length] + more;
      KeptParts(data, size, w.length, more);
      assert Agree(next, other, data, kept);
      ConsPrepend(next(data).item, size, w.items, w.length, ReadAll(other, more));
    } else {
      assert data[..v.length] + more == more;
      NothingBefore(ReadAll(other, more));
    }
  }
}
