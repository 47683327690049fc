# Option: a verified model

This project models `type_script/src/option.ts`, a small functional-programming
utility. It declares an `Option<A>` tagged union with a payload-carrying
`Some(value)` and an empty `None`, and the two factories `some` and `none`.
It also declares three curried combinators: `map(f)` applies `f` under
`Some`, `flatMap(f)` hands the value under `Some` to an `f` that itself
answers an `Option`, and `getOrElse(fallback)` takes the value out or falls
back. Two consumers use them. `parseIntOption(s)` wraps
`Number.parseInt(s, 10)` and turns NaN into `None`. `safeHalfFromString(s)`
parses, halves and falls back to `0`.

The model has three modules:

- `Options` (`option.dfy`) holds the whole of `option.ts`. The datatype
  `Option<A> = Some(value: A) | None` takes its constructor names from the
  `_tag` values, and those constructors are the `some`/`none` factories.
  `Map`, `FlatMap` and `GetOrElse` are curried: each returns the function
  value that does the case split, as in the source. `ParseIntOption` and
  `SafeHalfFromString` are the consumers. Beside them are lemmas for the
  defining equations, the functor and monad laws, the `getOrElse`/`map`
  composition law, and a full description of what `parseIntOption` returns.
- `EcmaParseInt` (`parse_int.dfy`) models `Number.parseInt(s, 10)` from the
  JavaScript library. The source calls it but does not contain it. The model
  follows ECMA-262, section 19.2.5 "parseInt ( string, radix )", for radix 10.
  It removes leading white space and line terminators. A leading `-` sets the
  sign, and one `+` or `-` is dropped. The longest run of decimal digits is
  kept. No digits gives NaN; otherwise the result is the signed value of the
  digits. The parse is a permissive prefix parse, so `"42abc"` reads as 42.
  Radix 10 does not strip a `0x` prefix (`"0x10"` reads as 0). White space
  after the sign is not skipped (`"+ 5"` is NaN). The result type
  `JsNumber = NaN | Integral(value)` keeps the `Number.isNaN` test of
  `option.ts` visible.
  The module also gives an independent description of every input. A string
  is white space, then an optional sign, then digits, then a tail that does
  not start with a digit (`Canonical`). `ParseIntCanonical` says what
  `parseInt` returns for each such split. `CanonicalExists` shows that every
  string has such a split. Together they describe `parseInt` on all strings.
  `Decimal`/`Show` render an integer in decimal; they are used only to state
  the round trip `parseInt(Show(n)) == n`.
- `OptionExamples` (`option_examples.dfy`) restates as lemmas the concrete
  cases of `type_script/src/option.test.ts`, plus further cases of the parse
  and the halving.

Inputs are values: there is no I/O, clock or randomness in the core. The
callbacks given to `map` and `flatMap` are total Dafny function values.

`parseIntOption` tests only `Number.isNaN` (`type_script/src/option.ts:24`),
so in JavaScript a digit run too long for a double gives `Some(Infinity)`.
The model's integers are unbounded, so that case does not arise in it (see
"Left out").

## Model

| member | source | states |
|---|---|---|
| Options.MapSome | type_script/src/option.ts:6-9 | `map(f)(some(a))` is `some(f(a))` |
| Options.MapNone | type_script/src/option.ts:6-9 | `map(f)(none)` is `none` for every `f` |
| Options.MapIdentity | type_script/src/option.ts:6-9 | mapping the identity returns the input unchanged, on both tags |
| Options.MapComposition | type_script/src/option.ts:6-9 | `map(g)(map(f)(o)) == map(g ∘ f)(o)` for every `o` |
| Options.FlatMapSome | type_script/src/option.ts:11-14 | `flatMap(f)(some(a))` is exactly `f(a)`, including when `f` answers `none` |
| Options.FlatMapNone | type_script/src/option.ts:11-14 | `flatMap(f)(none)` is `none` for every `f` |
| Options.FlatMapSomeIdentity | type_script/src/option.ts:11-14 | binding with `some` returns the input, for every `o` |
| Options.FlatMapAssociative | type_script/src/option.ts:11-14 | `flatMap(g)(flatMap(f)(o)) == flatMap(a => flatMap(g)(f(a)))(o)` |
| Options.MapIsFlatMap | type_script/src/option.ts:6-14 | `map(f)` agrees with `flatMap` of `a => some(f(a))` on every input |
| Options.GetOrElseSome | type_script/src/option.ts:16-19 | `getOrElse(d)(some(x))` is `x` whatever `d` is |
| Options.GetOrElseNone | type_script/src/option.ts:16-19 | `getOrElse(d)(none)` is `d` |
| Options.GetOrElseAfterMap | type_script/src/option.ts:6-19 | `getOrElse(d)(map(f)(o))` is `f(x)` for `o = some(x)` and `d` for `none` |
| Options.ParseIntOptionCanonical | type_script/src/option.ts:22-25 | for a string made of white space, an optional sign, the longest digit run and a tail: `none` iff there are no digits, else `some` of the signed value of the digits |
| Options.ParseIntOptionNoneIff | type_script/src/option.ts:22-25 | `parseIntOption(s)` is `none` exactly when `s` does not go on with a decimal digit after its leading white space and an optional sign |
| Options.ParseIntOptionShow | type_script/src/option.ts:22-25 | every integer is read back as `some(n)` from its decimal rendering |
| Options.SafeHalfFromString | type_script/src/option.ts:28-29 | the result is 0 when the parse gives `none`, and otherwise exactly half the parsed integer (twice the result is the integer, so no truncation) |
| Options.SafeHalfShow | type_script/src/option.ts:28-29 | on the decimal rendering of `n` the result is `n / 2` as a real |
| EcmaParseInt.TrimStart | type_script/src/option.ts:23 | the result is a suffix of the input, everything removed is white space, and the result does not start with white space |
| EcmaParseInt.DigitPrefix | type_script/src/option.ts:23 | the result is a prefix of the input, made only of digits, and is followed by the end of the input or a non-digit (the longest digit prefix) |
| EcmaParseInt.TrimStartSkips | type_script/src/option.ts:23 | white space followed by text that does not start with white space trims to exactly that text |
| EcmaParseInt.DigitPrefixStops | type_script/src/option.ts:23 | the digit prefix of digits followed by a non-digit is exactly those digits |
| EcmaParseInt.SignAndDigits | type_script/src/option.ts:23 | after an optional sign, dropping the sign leaves the digits and tail, and the sign read is -1 exactly for `-` |
| EcmaParseInt.ParseIntCanonical | type_script/src/option.ts:23 | `parseInt` on white space, optional sign, digits and a non-digit tail is NaN iff there are no digits, else the signed value of the digits |
| EcmaParseInt.CanonicalExists | type_script/src/option.ts:23 | every string splits into white space, optional sign, digits and a tail as `Canonical` describes |
| EcmaParseInt.ParseIntShow | type_script/src/option.ts:23 | `parseInt` reads every integer back from its decimal rendering |
| OptionExamples.MapIncrement | type_script/src/option.test.ts:12-18 | `map(x => x + 1)` gives `some(2)` on `some(1)` and `none` on `none` |
| OptionExamples.FlatMapNonZero | type_script/src/option.test.ts:20-24 | `flatMap(nonZero)` gives `some(5)` on `some(2)` and `none` on `some(0)` |
| OptionExamples.ParseIntOption42 | type_script/src/option.test.ts:27 | `parseIntOption("42")` is `some(42)` |
| OptionExamples.ParseIntOptionNope | type_script/src/option.test.ts:28 | `parseIntOption("nope")` is `none` |
| OptionExamples.ParseIntOptionMinus7 | type_script/src/option.ts:22-25 | `parseIntOption("-7")` is `some(-7)` |
| OptionExamples.ParseIntOptionPrefix | type_script/src/option.ts:22-25 | leading white space and `+` are skipped and the digits stop at the first non-digit: `" \t+12abc"` gives `some(12)` |
| OptionExamples.ParseIntOptionNoHexPrefix | type_script/src/option.ts:22-25 | radix 10 does not strip `0x`: `"0x10"` gives `some(0)` |
| OptionExamples.ParseIntOptionSpaceAfterSign | type_script/src/option.ts:22-25 | white space after the sign is not skipped: `"+ 5"` gives `none` |
| OptionExamples.SafeHalfFromString10 | type_script/src/option.test.ts:32 | `safeHalfFromString("10")` is 5 |
| OptionExamples.SafeHalfFromStringWat | type_script/src/option.test.ts:33 | `safeHalfFromString("wat")` is 0 |
| OptionExamples.SafeHalfFromString7 | type_script/src/option.ts:28-29 | `safeHalfFromString("7")` is 3.5: the halving does not truncate |

## Left out

- JavaScript `number` details are not modelled. Parsed values are unbounded integers, so digit runs beyond 2^53 do not lose precision and very long runs do not give `Infinity`. The model's `ParseInt("-0")` is `Integral(0)`; JavaScript gives `-0`, so `parseIntOption("-0")` is `some(-0)` there. Halves are exact `real`s.
- White space is the fixed set ECMA-262 calls WhiteSpace and LineTerminator. That is TAB, VT, FF, ZWNBSP, the space separators (category Zs) as listed in `EcmaParseInt.IsWhiteSpace`, LF, CR, LS and PS. Later Unicode versions could add more space separators.
- Strings are sequences of Unicode scalar values, not of UTF-16 code units. Every character the parse looks at lies in the Basic Multilingual Plane, so this does not change any result.
- Radixes other than 10 and `parseInt`'s `ToString` coercion of a non-string argument are left out: `option.ts` always passes a string and radix 10.
- Whether a callback is invoked on `None` cannot be observed: Dafny functions are pure and have no call count or spy. Only the value equations are stated.
- Callbacks that throw are left out, because Dafny function values are total.
- TypeScript typing details are left out: the `never` default type parameter of `none` and the arrow-function currying syntax. The curried combinators return Dafny function values.
- The vitest harness of `option.test.ts` is left out. Its assertions are the `OptionExamples` lemmas.
