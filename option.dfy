/**
 * The `Option` type of a small functional-programming utility: a value that
 * is either present (`Some`) or absent (`None`), the curried combinators
 * `map`, `flatMap` and `getOrElse`, and two consumers, a safe integer parse
 * and a pipeline that halves the parsed integer or falls back to zero.
 */
module Options {
  import opened EcmaParseInt

  /**
   * The tagged union: `Some(value)` or `None`. The factories `some(value)`
   * and `none()` are the two constructors; a value of the datatype is
   * immutable and has exactly one of the two tags.
   */
  datatype Option<A> = Some(value: A) | None

  // ---------------------------------------------------------------------
  // The curried combinators: each returns the function that does the case
  // split on the tag.
  // ---------------------------------------------------------------------

  /** `map(f)`: apply `f` under `Some`, keep `None`. */
  function Map<A, B>(f: A -> B): Option<A> -> Option<B> {
    (oa: Option<A>) => if oa.Some? then Some(f(oa.value)) else None
  }

  /** `flatMap(f)`: hand the value under `Some` to `f`, keep `None`. */
  function FlatMap<A, B>(f: A -> Option<B>): Option<A> -> Option<B> {
    (oa: Option<A>) => if oa.Some? then f(oa.value) else None
  }

  /** `getOrElse(fallback)`: the value under `Some`, or `fallback` for `None`. */
  function GetOrElse<A>(fallback: A): Option<A> -> A {
    (oa: Option<A>) => if oa.Some? then oa.value else fallback
  }

  // ---------------------------------------------------------------------
  // The defining equations and the laws that follow from them.
  // ---------------------------------------------------------------------

  lemma MapSome<A, B>(f: A -> B, a: A)
    ensures Map(f)(Some(a)) == Some(f(a))
  {
  }

  lemma MapNone<A, B>(f: A -> B)
    ensures Map(f)(None) == None
  {
  }

  /** Functor identity: mapping the identity changes nothing. */
  lemma MapIdentity<A>(o: Option<A>)
    ensures Map((a: A) => a)(o) == o
  {
  }

  /** Functor composition: two maps are one map of the composition. */
  lemma MapComposition<A, B, C>(f: A -> B, g: B -> C, o: Option<A>)
    ensures Map(g)(Map(f)(o)) == Map((a: A) => g(f(a)))(o)
  {
  }

  lemma FlatMapSome<A, B>(f: A -> Option<B>, a: A)
    ensures FlatMap(f)(Some(a)) == f(a)
  {
  }

  lemma FlatMapNone<A, B>(f: A -> Option<B>)
    ensures FlatMap(f)(None) == None
  {
  }

  /** Binding with the `Some` constructor gives back the input. */
  lemma FlatMapSomeIdentity<A>(o: Option<A>)
    ensures FlatMap((a: A) => Some(a))(o) == o
  {
  }

  /** Associativity of bind. */
  lemma FlatMapAssociative<A, B, C>(f: A -> Option<B>, g: B -> Option<C>, o: Option<A>)
    ensures FlatMap(g)(FlatMap(f)(o)) == FlatMap((a: A) => FlatMap(g)(f(a)))(o)
  {
  }

  /** `map` is `flatMap` of a function that always answers `Some`. */
  lemma MapIsFlatMap<A, B>(f: A -> B, o: Option<A>)
    ensures Map(f)(o) == FlatMap((a: A) => Some(f(a)))(o)
  {
  }

  lemma GetOrElseSome<A>(d: A, x: A)
    ensures GetOrElse(d)(Some(x)) == x
  {
  }

  lemma GetOrElseNone<A>(d: A)
    ensures GetOrElse(d)(None) == d
  {
  }

  /** The composition law of `getOrElse` with `map`, on both tags. */
  lemma GetOrElseAfterMap<A, B>(d: B, f: A -> B, o: Option<A>)
    ensures o.Some? ==> GetOrElse(d)(Map(f)(o)) == f(o.value)
    ensures o.None? ==> GetOrElse(d)(Map(f)(o)) == d
  {
  }

  // ---------------------------------------------------------------------
  // The consumers.
  // ---------------------------------------------------------------------

  /** `parseIntOption(s)`: `Number.parseInt(s, 10)`, with NaN as `None`. */
  function ParseIntOption(s: string): Option<int> {
    var n := ParseInt(s);
    if n.NaN? then None else Some(n.value)
  }

  /**
   * `parseIntOption` on a string split into white space, an optional sign,
   * the longest run of digits and the rest: `None` exactly when there are no
   * digits, otherwise the signed value of the digits.
   */
  lemma ParseIntOptionCanonical(ws: string, sg: string, d: string, rest: string)
    requires Canonical(ws, sg, d, rest)
    ensures ParseIntOption(ws + sg + d + rest) ==
            if d == [] then None else Some(SignValue(sg) * DigitsValue(d))
  {
    ParseIntCanonical(ws, sg, d, rest);
  }

  /**
   * `parseIntOption(s)` is `None` exactly when, after the leading white space
   * and an optional sign, `s` does not go on with a decimal digit.
   */
  lemma ParseIntOptionNoneIff(s: string)
    ensures ParseIntOption(s) == None <==>
            var u := DropSign(TrimStart(s)); u == [] || !IsDigit(u[0])
  {
  }

  /** `parseIntOption` reads back every integer from its decimal rendering. */
  lemma ParseIntOptionShow(n: int)
    ensures ParseIntOption(Show(n)) == Some(n)
  {
    ParseIntShow(n);
  }

  /**
   * `safeHalfFromString(s)`: parse, halve without truncation, fall back to
   * zero. A JavaScript number halved is exact, so the half is a `real`.
   */
  function SafeHalfFromString(s: string): (h: real)
    ensures ParseIntOption(s).None? ==> h == 0.0
    ensures ParseIntOption(s).Some? ==> 2.0 * h == ParseIntOption(s).value as real
  {
    GetOrElse(0.0)(Map((n: int) => n as real / 2.0)(ParseIntOption(s)))
  }

  /** Halving the decimal rendering of an integer gives exactly half of it. */
  lemma SafeHalfShow(n: int)
    ensures SafeHalfFromString(Show(n)) == n as real / 2.0
  {
    ParseIntOptionShow(n);
  }
}
