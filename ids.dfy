/**
 * Account identifiers. The wallet names the n-th account it creates
 * "user-" followed by n written in decimal. This module renders that text
 * and proves the rendering injective, which is what makes a freshly
 * generated identifier collision-free.
 */
module Ids {

  /** The decimal digit character for d. */
  function Digit(d: nat): (c: char)
    requires d < 10
    ensures '0' <= c <= '9'
  {
    "0123456789"[d]
  }

  lemma DigitInjective(a: nat, b: nat)
    requires a < 10 && b < 10 && Digit(a) == Digit(b)
    ensures a == b
  {
  }

  /** n in base ten, most significant digit first, without leading zeros. */
  function DecimalString(n: nat): (s: string)
    ensures 1 <= |s|
    ensures n < 10 <==> |s| == 1
    decreases n
  {
    if n < 10 then [Digit(n)] else DecimalString(n / 10) + [Digit(n % 10)]
  }

  /** Two numbers with the same decimal rendering are the same number. */
  lemma {:induction false} DecimalStringInjective(a: nat, b: nat)
    requires DecimalString(a) == DecimalString(b)
    ensures a == b
    decreases a
  {
    var sa, sb := DecimalString(a), DecimalString(b);
    if a < 10 {
      assert b < 10;
      DigitInjective(a, b);
    } else {
      assert 10 <= b;
      assert sa[|sa| - 1] == Digit(a % 10) && sb[|sb| - 1] == Digit(b % 10);
      DigitInjective(a % 10, b % 10);
      assert sa[..|sa| - 1] == DecimalString(a / 10);
      assert sb[..|sb| - 1] == DecimalString(b / 10);
      DecimalStringInjective(a / 10, b / 10);
    }
  }

  const UserIdPrefix: string := "user-"

  /** The identifier createUser gives the n-th account. */
  function UserIdOf(n: nat): (id: string)
    ensures |UserIdPrefix| < |id|
    ensures id[..|UserIdPrefix|] == UserIdPrefix
    ensures id[|UserIdPrefix|..] == DecimalString(n)
  {
    UserIdPrefix + DecimalString(n)
  }

  /** Distinct account numbers give distinct identifiers. */
  lemma UserIdInjective(a: nat, b: nat)
    requires UserIdOf(a) == UserIdOf(b)
    ensures a == b
  {
    DecimalStringInjective(a, b);
  }

  /** The ids createUser hands out for the first n accounts: "user-1" .. "user-n". */
  ghost function IdsUpTo(n: nat): set<string>
  {
    if n == 0 then {} else IdsUpTo(n - 1) + {UserIdOf(n)}
  }

  /** Every id among the first n differs from the id of a later account. */
  lemma {:induction false} NextIdNotIssued(n: nat, m: nat)
    requires n < m
    ensures UserIdOf(m) !in IdsUpTo(n)
  {
    if n > 0 {
      NextIdNotIssued(n - 1, m);
      if UserIdOf(m) == UserIdOf(n) {
        UserIdInjective(m, n);
      }
    }
  }
}
