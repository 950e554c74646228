/**
 * Count-prefixed lists: the source preallocates a slice of the declared
 * length and fills it slot by slot in stream order, stopping at the first
 * element that fails to decode. `Repeat` is the specification of such a
 * loop; `ParseCounted` adds the u2 count that precedes the elements.
 */
module Lists {
  import opened Types

  /** An element decoder never moves the position backwards. */
  ghost predicate Advances<T>(item: nat -> Parsed<T>) {
    forall p: nat :: item(p).Ok? ==> p <= item(p).value.1
  }

  /** `n` elements decoded by `item`, one after the other from `p`. */
  function Repeat<T>(item: nat -> Parsed<T>, p: nat, n: nat): (r: Parsed<seq<T>>)
    ensures r.Ok? ==> |r.value.0| == n
    ensures r.Ok? && Advances(item) ==> p <= r.value.1
    decreases n
  {
    if n == 0 then Ok(([], p))
    else
      var (x, p1) :- item(p);
      var (xs, q) :- Repeat(item, p1, n - 1);
      Ok(([x] + xs, q))
  }

  /** A u2 element count followed by that many elements. */
  function ParseCounted<T>(s: seq<U1>, item: nat -> Parsed<T>, p: nat): (r: Parsed<seq<T>>)
    ensures r.Ok? ==> ParseU2(s, p).Ok? && |r.value.0| == ParseU2(s, p).value.0 as int
    ensures r.Ok? && Advances(item) ==> p + 2 <= r.value.1
  {
    var (n, p1) :- ParseU2(s, p);
    Repeat(item, p1, n as nat)
  }

  /** The elements `xs` already stored, ahead of what decoding the rest gives. */
  function Prepend<T>(xs: seq<T>, r: Parsed<seq<T>>): Parsed<seq<T>> {
    match r
    case Ok((ys, q)) => Ok((xs + ys, q))
    case Err(e) => Err(e)
  }

  lemma PrependNothing<T>(r: Parsed<seq<T>>)
    ensures Prepend([], r) == r
  {
    if r.Ok? {
      assert [] + r.value.0 == r.value.0;
    }
  }

  lemma PrependPrepend<T>(xs: seq<T>, x: T, r: Parsed<seq<T>>)
    ensures Prepend(xs, Prepend([x], r)) == Prepend(xs + [x], r)
  {
    if r.Ok? {
      assert xs + ([x] + r.value.0) == (xs + [x]) + r.value.0;
    }
  }

  /** A loop that fills a list of `n` elements decoded from `start` has
      stored `done` and decodes the rest from `p`. */
  ghost predicate RepeatSoFar<T>(item: nat -> Parsed<T>, start: nat, n: nat, done: seq<T>, p: nat) {
    |done| <= n && Repeat(item, start, n) == Prepend(done, Repeat(item, p, n - |done|))
  }

  /** One step of that loop: the next element is decoded at `p`, with
      outcome `x` and the position left at `q`. */
  lemma RepeatStep<T>(item: nat -> Parsed<T>, start: nat, n: nat, done: seq<T>, p: nat, x: Result<T>, q: nat)
    requires RepeatSoFar(item, start, n, done, p) && |done| < n
    requires Mirrors(x, q, item(p))
    ensures x.Err? ==> Repeat(item, start, n) == Err(x.error)
    ensures x.Ok? ==> RepeatSoFar(item, start, n, done + [x.value], q)
  {
    if x.Ok? {
      PrependPrepend(done, x.value, Repeat(item, q, n - |done| - 1));
    }
  }

  /** The loop starts with nothing stored and ends with the whole list. */
  lemma RepeatEnds<T>(item: nat -> Parsed<T>, start: nat, n: nat, done: seq<T>, p: nat)
    ensures RepeatSoFar(item, start, n, [], start)
    ensures RepeatSoFar(item, start, n, done, p) && |done| == n ==> Repeat(item, start, n) == Ok((done, p))
  {
    PrependNothing(Repeat(item, start, n));
    if RepeatSoFar(item, start, n, done, p) && |done| == n {
      assert done + [] == done;
    }
  }

  /** Decoding `n + m` elements is decoding `n`, then `m` more from where
      the first `n` ended; a failure among the first `n` is the result. */
  lemma {:induction false} RepeatSplit<T>(item: nat -> Parsed<T>, p: nat, n: nat, m: nat)
    ensures Repeat(item, p, n + m) ==
            match Repeat(item, p, n)
            case Err(e) => Err(e)
            case Ok((xs, q)) => Prepend(xs, Repeat(item, q, m))
    decreases n
  {
    if n == 0 {
      match Repeat(item, p, m)
      case Err(_) =>
      case Ok((ys, _)) => assert [] + ys == ys;
    } else {
      match item(p)
      case Err(_) =>
      case Ok((x, p1)) =>
        RepeatSplit(item, p1, n - 1, m);
        match Repeat(item, p1, n - 1)
        case Err(_) =>
        case Ok((xs, q)) =>
          match Repeat(item, q, m)
          case Err(_) =>
          case Ok((ys, _)) => assert [x] + (xs + ys) == ([x] + xs) + ys;
    }
  }

  /** Decoding stops at the first element that fails: when the first `k`
      elements decode and element `k` does not, the list fails with its error. */
  lemma RepeatStopsAtFirstFailure<T>(item: nat -> Parsed<T>, p: nat, k: nat, n: nat)
    requires k < n && Repeat(item, p, k).Ok?
    requires item(Repeat(item, p, k).value.1).Err?
    ensures Repeat(item, p, n) == Err(item(Repeat(item, p, k).value.1).error)
  {
    RepeatSplit(item, p, k, n - k);
  }

  /** Elements are kept in stream order: element `i` of the list is the one
      decoded right after the first `i`. */
  lemma RepeatInOrder<T>(item: nat -> Parsed<T>, p: nat, n: nat, i: nat)
    requires Repeat(item, p, n).Ok? && i < n
    ensures Repeat(item, p, i).Ok?
    ensures item(Repeat(item, p, i).value.1).Ok?
    ensures item(Repeat(item, p, i).value.1).value.0 == Repeat(item, p, n).value.0[i]
  {
    RepeatSplit(item, p, i, n - i);
    var (xs, q) := Repeat(item, p, i).value;
    assert Repeat(item, p, n) == Prepend(xs, Repeat(item, q, n - i));
  }

  /** Cutting the input leaves a list that ends before the cut unchanged and
      turns one that needs bytes past it into a ShortRead, provided each
      element decoder does. */
  lemma {:induction false} RepeatTruncated<T>(item: nat -> Parsed<T>, cut: nat -> Parsed<T>, p: nat, n: nat, k: nat)
    requires p <= k && Advances(item)
    requires forall q: nat :: TruncatedAgrees(item(q), cut(q), k)
    ensures TruncatedAgrees(Repeat(item, p, n), Repeat(cut, p, n), k)
    decreases n
  {
    if n > 0 {
      assert TruncatedAgrees(item(p), cut(p), k);
      match item(p)
      case Err(_) =>
      case Ok((x, p1)) =>
        if p1 <= k {
          RepeatTruncated(item, cut, p1, n - 1, k);
        }
    }
  }

  /** The weaker form of RepeatTruncated, for element decoders that may
      report a cut with an error other than ShortRead. */
  lemma {:induction false} RepeatTruncatedFails<T>(item: nat -> Parsed<T>, cut: nat -> Parsed<T>, p: nat, n: nat, k: nat)
    requires p <= k && Advances(item)
    requires forall q: nat :: q <= k ==> TruncatedFails(item(q), cut(q), k)
    ensures TruncatedFails(Repeat(item, p, n), Repeat(cut, p, n), k)
    decreases n
  {
    if n > 0 {
      assert TruncatedFails(item(p), cut(p), k);
      match item(p)
      case Err(_) =>
      case Ok((x, p1)) =>
        if p1 <= k {
          RepeatTruncatedFails(item, cut, p1, n - 1, k);
        }
    }
  }

  lemma CountedTruncated<T>(s: seq<U1>, item: nat -> Parsed<T>, cut: nat -> Parsed<T>, p: nat, k: nat)
    requires k <= |s| && Advances(item)
    requires forall q: nat :: TruncatedAgrees(item(q), cut(q), k)
    ensures TruncatedAgrees(ParseCounted(s, item, p), ParseCounted(s[..k], cut, p), k)
  {
    PrimitivesTruncated(s, p, 0, k);
    if ParseU2(s, p).Ok? && p + 2 <= k {
      var (n, p1) := ParseU2(s, p).value;
      RepeatTruncated(item, cut, p1, n as nat, k);
    }
  }
}
