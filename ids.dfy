/** Identifier generation: the model of `uid(prefix)`.

    The application asks for identifiers in two scopes, "sec" for sections
    and "it" for items, and receives `prefix + "-" + <base-36 fragment>`.
    The fragment is random in the application; here it is the base-36
    rendering of a counter that the caller threads through, so that the
    oracle's one promise -- two calls never return the same identifier --
    can be stated and proved (UidInjective). */
module Ids {

  /** The scope tag passed to `uid`. */
  datatype Scope = Sec | It

  function Tag(scope: Scope): (t: string)
    ensures |t| >= 2 && '-' !in t
  {
    match scope
    case Sec => "sec"
    case It => "it"
  }

  /** The base-36 digit for `d`: '0'..'9' then 'a'..'z'. */
  function Digit(d: nat): (c: char)
    requires d < 36
    ensures c != '-'
  {
    if d < 10 then ('0' as int + d) as char else ('a' as int + d - 10) as char
  }

  /** The value of a base-36 digit; 0 for any other character. */
  function DigitValue(c: char): nat
  {
    if '0' <= c <= '9' then c as int - '0' as int
    else if 'a' <= c <= 'z' then c as int - 'a' as int + 10
    else 0
  }

  /** The base-36 rendering of `n`, most significant digit first, without leading zeros. */
  function Base36(n: nat): (s: string)
    ensures |s| >= 1 && '-' !in s
    decreases n
  {
    if n < 36 then [Digit(n)] else Base36(n / 36) + [Digit(n % 36)]
  }

  /** Reads a base-36 numeral back. */
  function ParseBase36(s: string): nat
  {
    if s == [] then 0 else ParseBase36(s[..|s| - 1]) * 36 + DigitValue(s[|s| - 1])
  }

  lemma DigitRoundTrip(d: nat)
    requires d < 36
    ensures DigitValue(Digit(d)) == d
  {
  }

  /** Reading the rendering of `n` gives `n` back. */
  lemma {:induction false} Base36RoundTrip(n: nat)
    ensures ParseBase36(Base36(n)) == n
    decreases n
  {
    if n < 36 {
      DigitRoundTrip(n);
      assert Base36(n) == [Digit(n)];
      assert Base36(n)[..0] == [];
    } else {
      var s := Base36(n);
      Base36RoundTrip(n / 36);
      DigitRoundTrip(n % 36);
      assert s[..|s| - 1] == Base36(n / 36);
      assert s[|s| - 1] == Digit(n % 36);
    }
  }

  /** The identifier the oracle hands out for counter value `n`. */
  function Uid(scope: Scope, n: nat): (id: string)
    ensures |id| > |Tag(scope)| + 1 && id[..|Tag(scope)|] == Tag(scope) && id[|Tag(scope)|] == '-'
  {
    Tag(scope) + "-" + Base36(n)
  }

  /** Distinct counter values or scopes give distinct identifiers. */
  lemma UidInjective(a: Scope, m: nat, b: Scope, n: nat)
    requires Uid(a, m) == Uid(b, n)
    ensures a == b && m == n
  {
    var u := Uid(a, m);
    var k := |Tag(a)| + 1;
    assert u[k..] == Base36(m) && u[k..] == Base36(n);
    Base36RoundTrip(m);
    Base36RoundTrip(n);
  }
}
