/** Values shared by both versions of the page: optional values, JavaScript
    truthiness of strings, template-literal rendering of integers and
    `String.prototype.includes`. */
module Common {

  datatype Option<T> = None | Some(value: T)

  /** A possibly missing string is truthy in JavaScript exactly when it is
      present and not the empty string (`null`, `undefined` and `""` are falsy). */
  predicate Truthy(s: Option<string>) {
    s.Some? && s.value != ""
  }

  function DigitChar(d: nat): (c: char)
    requires d < 10
    ensures '0' <= c <= '9'
  {
    "0123456789"[d]
  }

  /** The decimal digits of `n`, as `${n}` renders a non-negative integer. */
  function NatToDecimal(n: nat): (s: string)
    ensures |s| >= 1
    ensures n >= 10 ==> |s| >= 2
    ensures forall i :: 0 <= i < |s| ==> '0' <= s[i] <= '9'
    decreases n
  {
    if n < 10 then [DigitChar(n)] else NatToDecimal(n / 10) + [DigitChar(n % 10)]
  }

  /** `${n}` for any integer: a minus sign before the digits of a negative one. */
  function IntToDecimal(n: int): (s: string)
    ensures |s| >= 1
    ensures s[0] == '-' <==> n < 0
  {
    if n < 0 then "-" + NatToDecimal(-n) else NatToDecimal(n)
  }

  /** Two different numbers never render to the same digits. */
  lemma {:induction false} NatToDecimalInjective(a: nat, b: nat)
    requires NatToDecimal(a) == NatToDecimal(b)
    ensures a == b
    decreases a
  {
    var s := NatToDecimal(a);
    if a < 10 && b < 10 {
      assert "0123456789"[a] == s[0] == "0123456789"[b];
    } else if a >= 10 && b >= 10 {
      var n := |s|;
      assert NatToDecimal(a / 10) == s[..n - 1] == NatToDecimal(b / 10);
      NatToDecimalInjective(a / 10, b / 10);
      assert "0123456789"[a % 10] == s[n - 1] == "0123456789"[b % 10];
    }
  }

  /** Two different integers never render to the same text, so ids built from
      distinct years are distinct. */
  lemma IntToDecimalInjective(a: int, b: int)
    requires IntToDecimal(a) == IntToDecimal(b)
    ensures a == b
  {
    var s := IntToDecimal(a);
    if a < 0 {
      assert NatToDecimal(-a) == s[1..] == NatToDecimal(-b);
      NatToDecimalInjective(-a, -b);
    } else {
      NatToDecimalInjective(a, b);
    }
  }

  /** Consecutive integers have opposite parity. JavaScript's `%` truncates
      toward zero, yet `i % 2 === 0` holds exactly when Dafny's `i % 2 == 0`
      does, for negative `i` too. */
  lemma ParityAlternates(i: int)
    ensures (i % 2 == 0) != ((i + 1) % 2 == 0)
  {
  }

  predicate StartsWith(s: string, prefix: string) {
    |prefix| <= |s| && s[..|prefix|] == prefix
  }

  /** `s.includes(sub)`, scanning from the left as the built-in does. */
  predicate Contains(s: string, sub: string)
    decreases |s|
  {
    StartsWith(s, sub) || (s != [] && Contains(s[1..], sub))
  }

  /** A text without the first character of `sub` cannot contain `sub`. */
  lemma {:induction false} FirstCharMissing(s: string, sub: string)
    requires sub != [] && sub[0] !in s
    ensures !Contains(s, sub)
    decreases |s|
  {
    if s != [] {
      assert s[0] != sub[0];
      FirstCharMissing(s[1..], sub);
    }
  }

  /** `sub` occurs in `s` starting at position `i`. */
  predicate OccursAt(s: string, sub: string, i: int) {
    0 <= i <= |s| - |sub| && s[i..i + |sub|] == sub
  }

  /** The scan finds `sub` exactly when it occurs at some position of `s`. */
  lemma {:induction false} ContainsIffOccurs(s: string, sub: string)
    ensures Contains(s, sub) <==> exists i :: OccursAt(s, sub, i)
    decreases |s|
  {
    if StartsWith(s, sub) {
      assert OccursAt(s, sub, 0);
    } else if s != [] {
      ContainsIffOccurs(s[1..], sub);
      if Contains(s[1..], sub) {
        var i :| OccursAt(s[1..], sub, i);
        assert OccursAt(s, sub, i + 1);
      }
      if i :| OccursAt(s, sub, i) {
        assert OccursAt(s[1..], sub, i - 1);
      }
    }
  }
}
