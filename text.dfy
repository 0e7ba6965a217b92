/** The string operations the rule sets and the break-event generator rely on:
    `toLowerCase`, `includes`, and the decimal rendering of an integer inside a
    template literal. */
module Text {

  predicate IsUpper(c: char) {
    'A' <= c <= 'Z'
  }

  /** `toLowerCase` on one character (ASCII letters only). */
  function LowerChar(c: char): (r: char)
    ensures r == 'm' <==> c == 'm' || c == 'M'
    ensures !IsUpper(c) ==> r == c
  {
    if IsUpper(c) then (c as int + 32) as char else c
  }

  /** `toLowerCase` on a string: no upper-case letter is left, each one is
      replaced by its lower-case partner, and every other character stays. */
  function ToLower(s: string): (r: string)
    ensures |r| == |s|
    ensures forall i :: 0 <= i < |s| ==> !IsUpper(r[i])
    ensures forall i :: 0 <= i < |s| && IsUpper(s[i]) ==> r[i] as int == s[i] as int + 32
    ensures forall i :: 0 <= i < |s| && !IsUpper(s[i]) ==> r[i] == s[i]
  {
    seq(|s|, i requires 0 <= i < |s| => LowerChar(s[i]))
  }

  lemma ToLowerConcat(a: string, b: string)
    ensures ToLower(a + b) == ToLower(a) + ToLower(b)
  {
  }

  lemma ToLowerIdempotent(s: string)
    ensures ToLower(ToLower(s)) == ToLower(s)
  {
  }

  /** `t` occurs in `s` starting at index `i`. */
  predicate OccursAt(s: string, t: string, i: int) {
    0 <= i && i + |t| <= |s| && s[i..i + |t|] == t
  }

  /** `s.includes(t)`. */
  predicate Contains(s: string, t: string) {
    exists i :: 0 <= i <= |s| - |t| && OccursAt(s, t, i)
  }

  /** The letters of `meal`, in either case, stand at `i` in `s`. */
  predicate MealLettersAt(s: string, i: int) {
    && 0 <= i && i + 4 <= |s|
    && (s[i] == 'm' || s[i] == 'M')
    && (s[i + 1] == 'e' || s[i + 1] == 'E')
    && (s[i + 2] == 'a' || s[i + 2] == 'A')
    && (s[i + 3] == 'l' || s[i + 3] == 'L')
  }

  /** A lower-cased string holds `meal` at `i` exactly when the original holds
      the four letters there in any mix of cases. */
  lemma MealLettersAtLower(s: string, i: int)
    ensures OccursAt(ToLower(s), "meal", i) <==> MealLettersAt(s, i)
  {
    var l := ToLower(s);
    if 0 <= i && i + 4 <= |s| {
      if l[i] == 'm' && l[i + 1] == 'e' && l[i + 2] == 'a' && l[i + 3] == 'l' {
        assert l[i..i + 4] == "meal";
      }
      if OccursAt(l, "meal", i) {
        assert l[i..i + 4][0] == l[i] && l[i..i + 4][1] == l[i + 1];
        assert l[i..i + 4][2] == l[i + 2] && l[i..i + 4][3] == l[i + 3];
      }
    }
  }

  /** The test `generateBreakEvents` applies to a recommendation:
      `rec.toLowerCase().includes('meal')`, which is a case-blind search for
      the word. */
  function MentionsMeal(rec: string): (r: bool)
    ensures r <==> exists i :: MealLettersAt(rec, i)
  {
    assert forall i :: OccursAt(ToLower(rec), "meal", i) <==> MealLettersAt(rec, i) by {
      forall i ensures OccursAt(ToLower(rec), "meal", i) <==> MealLettersAt(rec, i) {
        MealLettersAtLower(rec, i);
      }
    }
    Contains(ToLower(rec), "meal")
  }

  predicate IsDigit(c: char) {
    '0' <= c <= '9'
  }

  function DigitChar(d: int): (c: char)
    requires 0 <= d < 10
    ensures IsDigit(c)
  {
    ('0' as int + d) as char
  }

  /** The number a string of decimal digits denotes, most significant first. */
  function DigitsValue(s: string): int
    decreases |s|
  {
    if s == [] then 0 else DigitsValue(s[..|s| - 1]) * 10 + (s[|s| - 1] as int - '0' as int)
  }

  /** Decimal rendering of a natural number: digits only, denoting `n`, with
      no leading zero. */
  function NatToString(n: nat): (r: string)
    ensures |r| >= 1
    ensures forall i :: 0 <= i < |r| ==> IsDigit(r[i])
    ensures DigitsValue(r) == n
    ensures r[0] == '0' <==> n == 0
  {
    if n < 10 then [DigitChar(n)]
    else
      var p := NatToString(n / 10);
      assert (p + [DigitChar(n % 10)])[..|p|] == p;
      p + [DigitChar(n % 10)]
  }

  /** How a template literal renders an integer-valued number: a minus sign
      exactly for a negative number, then the decimal digits of its magnitude,
      with no leading zero. */
  function IntToString(n: int): (r: string)
    ensures |r| >= 1
    ensures forall i :: 0 <= i < |r| ==> IsDigit(r[i]) || r[i] == '-'
    ensures r[0] == '-' <==> n < 0
    ensures forall i :: 0 < i < |r| ==> IsDigit(r[i])
    ensures n >= 0 ==> DigitsValue(r) == n && (r[0] == '0' ==> |r| == 1)
    ensures n < 0 ==> |r| >= 2 && DigitsValue(r[1..]) == -n && r[1] != '0'
  {
    if n < 0 then
      var p := NatToString(-n);
      assert ("-" + p)[1..] == p;
      "-" + p
    else NatToString(n)
  }

  /** A string holding neither `m` nor `M` mentions no meal, whatever else it holds. */
  lemma NoMealWithoutM(s: string)
    requires 'm' !in s && 'M' !in s
    ensures !MentionsMeal(s)
  {
    forall i | 0 <= i < |s| ensures !MealLettersAt(s, i) {
      assert s[i] in s;
    }
  }

  /** The rendering of an integer holds no letter at all. */
  lemma IntToStringHasNoM(n: int)
    ensures 'm' !in IntToString(n) && 'M' !in IntToString(n)
  {
  }

  /** A lower-case `meal` inside a string survives `toLowerCase`. */
  lemma MealAt(s: string, i: int)
    requires 0 <= i && i + 4 <= |s|
    requires s[i] == 'm' && s[i + 1] == 'e' && s[i + 2] == 'a' && s[i + 3] == 'l'
    ensures MentionsMeal(s)
  {
    assert MealLettersAt(s, i);
  }

  /** Prefixing a string that mentions no meal with text holding no `m`/`M`
      keeps it free of `meal`. */
  lemma NoMealPrefix(a: string, b: string)
    requires 'm' !in a && 'M' !in a
    requires !MentionsMeal(b)
    ensures !MentionsMeal(a + b)
  {
    forall i | 0 <= i < |a + b| ensures !MealLettersAt(a + b, i) {
      if i < |a| {
        assert (a + b)[i] == a[i] && a[i] in a;
      } else {
        assert !MealLettersAt(b, i - |a|);
      }
    }
  }

  /** A string whose only `m`/`M` is its first character, followed by a
      character other than `e`/`E`, mentions no meal. */
  lemma NoMealLeadingM(c: char, d: char, rest: string)
    requires c == 'm' || c == 'M'
    requires d != 'e' && d != 'E' && d != 'm' && d != 'M'
    requires 'm' !in rest && 'M' !in rest
    ensures !MentionsMeal([c, d] + rest)
  {
    var s := [c, d] + rest;
    forall i | 2 <= i < |s| ensures !MealLettersAt(s, i) {
      assert s[i] == rest[i - 2] && rest[i - 2] in rest;
    }
  }
}
