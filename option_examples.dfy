/**
 * The cases option.test.ts asserts, plus further cases of the parse and the
 * halving, each proved from the model.
 */
module OptionExamples {
  import opened EcmaParseInt
  import opened Options

  /** `map(x => x + 1)` on `some(1)` and on `none()`. */
  lemma MapIncrement()
    ensures Map((x: int) => x + 1)(Some(1)) == Some(2)
    ensures Map((x: int) => x + 1)(None) == None
  {
  }

  /** The divider of the tests: `none` for zero, `some(10 / n)` otherwise. */
  function NonZero(n: real): Option<real> {
    if n == 0.0 then None else Some(10.0 / n)
  }

  /** `flatMap(nonZero)` on `some(2)` and on `some(0)`. */
  lemma FlatMapNonZero()
    ensures FlatMap(NonZero)(Some(2.0)) == Some(5.0)
    ensures FlatMap(NonZero)(Some(0.0)) == None
  {
    FlatMapSome(NonZero, 2.0);
    FlatMapSome(NonZero, 0.0);
  }

  /** `parseIntOption("42")` is `some(42)`. */
  lemma ParseIntOption42()
    ensures ParseIntOption("42") == Some(42)
  {
    assert DigitsValue("42") == 42 by {
      assert "42"[..1] == "4";
    }
    assert "42" == "" + "" + "42" + "";
    ParseIntOptionCanonical("", "", "42", "");
  }

  /** `parseIntOption("nope")` is `none()`. */
  lemma ParseIntOptionNope()
    ensures ParseIntOption("nope") == None
  {
    assert "nope" == "" + "" + "" + "nope";
    ParseIntOptionCanonical("", "", "", "nope");
  }

  /** `parseIntOption("-7")` is `some(-7)`. */
  lemma ParseIntOptionMinus7()
    ensures ParseIntOption("-7") == Some(-7)
  {
    assert DigitsValue("7") == 7;
    assert "-7" == "" + "-" + "7" + "";
    ParseIntOptionCanonical("", "-", "7", "");
  }

  /** Leading white space and a '+' are skipped; the digits end at the first non-digit. */
  lemma ParseIntOptionPrefix()
    ensures ParseIntOption(" \t+12abc") == Some(12)
  {
    assert DigitsValue("12") == 12 by {
      assert "12"[..1] == "1";
    }
    assert " \t+12abc" == " \t" + "+" + "12" + "abc";
    ParseIntOptionCanonical(" \t", "+", "12", "abc");
  }

  /** A radix-10 parse does not read "0x" as a hexadecimal prefix. */
  lemma ParseIntOptionNoHexPrefix()
    ensures ParseIntOption("0x10") == Some(0)
  {
    assert DigitsValue("0") == 0;
    assert "0x10" == "" + "" + "0" + "x10";
    ParseIntOptionCanonical("", "", "0", "x10");
  }

  /** White space after the sign is not skipped. */
  lemma ParseIntOptionSpaceAfterSign()
    ensures ParseIntOption("+ 5") == None
  {
    assert "+ 5" == "" + "+" + "" + " 5";
    ParseIntOptionCanonical("", "+", "", " 5");
  }

  /** `safeHalfFromString("10")` is 5. */
  lemma SafeHalfFromString10()
    ensures SafeHalfFromString("10") == 5.0
  {
    assert DigitsValue("10") == 10 by {
      assert "10"[..1] == "1";
    }
    assert "10" == "" + "" + "10" + "";
    ParseIntOptionCanonical("", "", "10", "");
  }

  /** `safeHalfFromString("wat")` is 0. */
  lemma SafeHalfFromStringWat()
    ensures SafeHalfFromString("wat") == 0.0
  {
    assert "wat" == "" + "" + "" + "wat";
    ParseIntOptionCanonical("", "", "", "wat");
  }

  /** `safeHalfFromString("7")` is 3.5: the halving does not truncate. */
  lemma SafeHalfFromString7()
    ensures SafeHalfFromString("7") == 3.5
  {
    assert DigitsValue("7") == 7;
    assert "7" == "" + "" + "7" + "";
    ParseIntOptionCanonical("", "", "7", "");
  }
}
