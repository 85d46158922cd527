/** The release-date format check of the create handler, the regular
    expression /^\d{4}-\d{2}-\d{2}$/. Without the `u` or `m` flag `\d` is
    an ASCII digit and `^`/`$` anchor at the ends of the whole input, so a
    pattern made of single-character atoms matches a string exactly when
    the string has one character per atom and each character fits its atom. */
module DateRegex {
  import opened Js

  datatype Atom = Digit | Literal(c: char)

  predicate AtomMatches(a: Atom, c: char) {
    match a
    case Digit => IsDigit(c)
    case Literal(l) => c == l
  }

  /** /^\d{4}-\d{2}-\d{2}$/ with the counted repetitions written out. */
  const DatePattern: seq<Atom> :=
    [Digit, Digit, Digit, Digit, Literal('-'), Digit, Digit, Literal('-'), Digit, Digit]

  /** `test` of an anchored pattern of single-character atoms. */
  function Test(pattern: seq<Atom>, s: string): (r: bool)
    ensures r ==> |s| == |pattern|
  {
    if pattern == [] then s == []
    else s != [] && AtomMatches(pattern[0], s[0]) && Test(pattern[1..], s[1..])
  }

  /** The pattern a YYYY-MM-DD string has: ten characters, digits except
      for a '-' at positions 4 and 7. */
  predicate IsDateShaped(s: string) {
    && |s| == 10
    && IsDigit(s[0]) && IsDigit(s[1]) && IsDigit(s[2]) && IsDigit(s[3])
    && s[4] == '-'
    && IsDigit(s[5]) && IsDigit(s[6])
    && s[7] == '-'
    && IsDigit(s[8]) && IsDigit(s[9])
  }

  /** An anchored atom pattern matches position by position. */
  lemma {:induction false} TestIsPositional(pattern: seq<Atom>, s: string)
    ensures Test(pattern, s) <==>
            |s| == |pattern| && forall i :: 0 <= i < |s| ==> AtomMatches(pattern[i], s[i])
    decreases |pattern|
  {
    if pattern != [] && s != [] {
      TestIsPositional(pattern[1..], s[1..]);
      if |s| == |pattern| && forall i :: 0 <= i < |s| ==> AtomMatches(pattern[i], s[i]) {
        assert forall i :: 0 <= i < |s| - 1 ==> AtomMatches(pattern[1..][i], s[1..][i]) by {
          forall i | 0 <= i < |s| - 1 ensures AtomMatches(pattern[1..][i], s[1..][i]) {
            assert AtomMatches(pattern[i + 1], s[i + 1]);
          }
        }
      }
      if Test(pattern, s) {
        forall i | 0 <= i < |s| ensures AtomMatches(pattern[i], s[i]) {
          if i > 0 { assert AtomMatches(pattern[1..][i - 1], s[1..][i - 1]); }
        }
      }
    }
  }

  /** The regular expression accepts exactly the date-shaped strings. */
  lemma TestDatePatternIsDateShaped(s: string)
    ensures Test(DatePattern, s) <==> IsDateShaped(s)
  {
    TestIsPositional(DatePattern, s);
    if IsDateShaped(s) {
      forall i | 0 <= i < |s| ensures AtomMatches(DatePattern[i], s[i]) {
      }
    }
    if Test(DatePattern, s) {
      assert AtomMatches(DatePattern[4], s[4]) && AtomMatches(DatePattern[7], s[7]);
      assert AtomMatches(DatePattern[0], s[0]) && AtomMatches(DatePattern[1], s[1]);
      assert AtomMatches(DatePattern[2], s[2]) && AtomMatches(DatePattern[3], s[3]);
      assert AtomMatches(DatePattern[5], s[5]) && AtomMatches(DatePattern[6], s[6]);
      assert AtomMatches(DatePattern[8], s[8]) && AtomMatches(DatePattern[9], s[9]);
    }
  }

  /** `test` converts its argument with String(): the numeral of a number
      is never date-shaped, whatever its sign. */
  lemma NumeralIsNotDateShaped(n: int)
    ensures !IsDateShaped(IntToString(n))
  {
    if n < 0 {
      assert IntToString(n)[0] == '-';
    } else {
      var s := NatToString(n);
      assert IntToString(n) == s;
      if |s| == 10 { assert IsDigit(s[4]); }
    }
  }

  /** Only a string, or an object or array whose string form is a date,
      gets past the format check: the Date constructor that follows it
      receives a string, or an object or array that it converts itself. */
  lemma DateShapedValueIsText(v: Value)
    requires Test(DatePattern, ToJsString(v))
    ensures v.Str? || v.Object?
    ensures IsDateShaped(ToJsString(v))
  {
    TestDatePatternIsDateShaped(ToJsString(v));
    if v.Num? {
      NumeralIsNotDateShaped(v.n);
    }
  }
}
