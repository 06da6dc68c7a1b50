/** Reading and writing bytes piece by piece.  A `Format` stands for the codec of one primitive
    or payload type, which is not modelled further: it reads back what it wrote, whatever
    follows, and always consumes something. */
module Bincode {
  import opened MachineInts

  type Bytes = seq<U8>

  datatype Decoded<T> = Read(value: T, rest: Bytes) | UnexpectedEnd | Invalid

  /** Both fail, and in the same way. */
  predicate FailAlike<A, B>(a: Decoded<A>, b: Decoded<B>) {
    (a.UnexpectedEnd? && b.UnexpectedEnd?) || (a.Invalid? && b.Invalid?)
  }

  datatype Format<!T> = Format(put: T -> Bytes, get: Bytes -> Decoded<T>)

  ghost predicate ReadsBack<T>(f: Format<T>, x: T, rest: Bytes) {
    f.get(f.put(x) + rest) == Read(x, rest)
  }

  ghost predicate Consumes<T>(f: Format<T>, bytes: Bytes) {
    match f.get(bytes)
    case Read(_, rest) => |rest| < |bytes|
    case _ => true
  }

  ghost predicate PrefixCode<T(!new)>(f: Format<T>) {
    (forall x, rest {:trigger ReadsBack(f, x, rest)} :: ReadsBack(f, x, rest)) &&
    (forall bytes {:trigger Consumes(f, bytes)} :: Consumes(f, bytes))
  }

  /** At the end of the input a format finds too little, and a zero byte reads as `zero`. */
  ghost predicate ReadsPadding<T(!new)>(f: Format<T>, zero: T) {
    f.get([]) == UnexpectedEnd && forall rest: Bytes :: f.get([0] + rest) == Read(zero, rest)
  }

  function PutAll<T>(f: Format<T>, xs: seq<T>): Bytes {
    if xs == [] then [] else PutAll(f, xs[..|xs| - 1]) + f.put(xs[|xs| - 1])
  }

  function GetMany<T>(f: Format<T>, n: nat, bytes: Bytes): Decoded<seq<T>> {
    if n == 0 then Read([], bytes)
    else
      match GetMany(f, n - 1, bytes)
      case UnexpectedEnd => UnexpectedEnd
      case Invalid => Invalid
      case Read(xs, rest) =>
        match f.get(rest)
        case Read(x, rest') => Read(xs + [x], rest')
        case UnexpectedEnd => UnexpectedEnd
        case Invalid => Invalid
  }

  lemma {:induction false} ManyReadBack<T(!new)>(f: Format<T>, xs: seq<T>, rest: Bytes)
    requires PrefixCode(f)
    ensures GetMany(f, |xs|, PutAll(f, xs) + rest) == Read(xs, rest)
  {
    if xs != [] {
      var n := |xs| - 1;
      var init, last := PutAll(f, xs[..n]), f.put(xs[n]);
      assert PutAll(f, xs) + rest == init + (last + rest);
      ManyReadBack(f, xs[..n], last + rest);
      assert ReadsBack(f, xs[n], rest);
      assert xs == xs[..n] + [xs[n]];
    } else {
      assert PutAll(f, xs) + rest == rest;
    }
  }

  lemma {:induction false} ManyConsume<T(!new)>(f: Format<T>, n: nat, bytes: Bytes)
    requires PrefixCode(f)
    ensures match GetMany(f, n, bytes)
            case Read(xs, rest) => |xs| == n && |rest| <= |bytes|
            case _ => true
  {
    if n > 0 {
      ManyConsume(f, n - 1, bytes);
      var r := GetMany(f, n - 1, bytes);
      if r.Read? { assert Consumes(f, r.rest); }
    }
  }

  lemma {:induction false} FailureStays<T>(f: Format<T>, k: nat, n: nat, bytes: Bytes)
    requires k <= n && !GetMany(f, k, bytes).Read?
    ensures GetMany(f, n, bytes) == GetMany(f, k, bytes)
  {
    if k < n { FailureStays(f, k, n - 1, bytes); }
  }

  /** An encoding loop. */
  method WriteAll<T>(f: Format<T>, xs: seq<T>) returns (bytes: Bytes)
    ensures bytes == PutAll(f, xs)
  {
    bytes := [];
    for i := 0 to |xs|
      invariant bytes == PutAll(f, xs[..i])
    {
      assert xs[..i + 1][..i] == xs[..i];
      bytes := bytes + f.put(xs[i]);
    }
    assert xs[..|xs|] == xs;
  }

  /** A decoding loop: `n` items, or the first failure. */
  method ReadMany<T>(f: Format<T>, n: nat, bytes: Bytes) returns (r: Decoded<seq<T>>)
    ensures r == GetMany(f, n, bytes)
  {
    var xs, rest := [], bytes;
    for i := 0 to n
      invariant GetMany(f, i, bytes) == Read(xs, rest)
    {
      var next := f.get(rest);
      if !next.Read? {
        FailureStays(f, i + 1, n, bytes);
        return if next.UnexpectedEnd? then UnexpectedEnd else Invalid;
      }
      xs, rest := xs + [next.value], next.rest;
    }
    return Read(xs, rest);
  }
}
