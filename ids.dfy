/**
 * Record keys. Every event record is keyed by
 * `${chainId}_${blockNumber}_${logIndex}` and every vault share by
 * `${vault}-${user}`. Both keys are injective because the separator cannot
 * occur in the part before it.
 */
module Ids {

  predicate IsDigit(c: char) {
    '0' <= c <= '9'
  }

  predicate AllDigits(s: string) {
    forall i :: 0 <= i < |s| ==> IsDigit(s[i])
  }

  function DigitChar(d: nat): (c: char)
    requires d < 10
    ensures IsDigit(c) && c as int - '0' as int == d
  {
    ('0' as int + d) as char
  }

  /**
   * JavaScript's decimal rendering of a non-negative integer inside a
   * template literal: no sign, no leading zeros.
   */
  function Decimal(n: nat): (s: string)
    ensures |s| >= 1 && AllDigits(s)
    ensures s[0] == '0' ==> s == "0"
    decreases n
  {
    if n < 10 then [DigitChar(n)] else Decimal(n / 10) + [DigitChar(n % 10)]
  }

  /** The number a string of decimal digits denotes. */
  function DigitsValue(s: string): nat
    requires AllDigits(s)
  {
    if s == [] then 0
    else DigitsValue(s[..|s| - 1]) * 10 + (s[|s| - 1] as int - '0' as int)
  }

  /** Reading back a rendered number gives the number. */
  lemma {:induction false} DecimalRoundTrip(n: nat)
    ensures DigitsValue(Decimal(n)) == n
    decreases n
  {
    if n >= 10 {
      DecimalRoundTrip(n / 10);
      var s := Decimal(n);
      assert s[..|s| - 1] == Decimal(n / 10);
    }
  }

  lemma DecimalInjective(m: nat, n: nat)
    requires Decimal(m) == Decimal(n)
    ensures m == n
  {
    DecimalRoundTrip(m);
    DecimalRoundTrip(n);
  }

  /**
   * A key built as `a ++ [sep] ++ b` determines `a` and `b` when `a` cannot
   * contain `sep`: the first `sep` in the key ends `a`.
   */
  lemma {:induction false} SplitAtSeparator(a: string, b: string, c: string, d: string, sep: char)
    requires sep !in a && sep !in c
    requires a + [sep] + b == c + [sep] + d
    ensures a == c && b == d
  {
    var k := a + [sep] + b;
    assert forall i | 0 <= i < |a| :: k[i] == a[i] != sep;
    assert forall i | 0 <= i < |c| :: k[i] == c[i] != sep;
    assert k[|a|] == sep && k[|c|] == sep;
    assert |a| == |c|;
    assert a == k[..|a|] == c;
    assert b == k[|a| + 1..] == d;
  }

  lemma DigitsHaveNoUnderscore(s: string)
    requires AllDigits(s)
    ensures '_' !in s
  {
    assert forall i | 0 <= i < |s| :: s[i] != '_';
  }

  /** Digit strings joined by `_` hold exactly the two separators and digits otherwise. */
  lemma JoinedDigits(c: string, b: string, l: string)
    requires AllDigits(c) && AllDigits(b) && AllDigits(l)
    ensures var id := c + "_" + b + "_" + l;
      && (forall i :: 0 <= i < |id| ==> IsDigit(id[i]) || id[i] == '_')
      && multiset(id)['_'] == 2
  {
    DigitsHaveNoUnderscore(c);
    DigitsHaveNoUnderscore(b);
    DigitsHaveNoUnderscore(l);
    var id := c + "_" + b + "_" + l;
    assert multiset(id) == multiset(c) + multiset("_") + multiset(b) + multiset("_") + multiset(l);
    assert id == c + "_" + (b + "_" + l);
    forall i | 0 <= i < |id| ensures IsDigit(id[i]) || id[i] == '_' {
      if i < |c| {
        assert id[i] == c[i];
      } else if i > |c| + |b| + 1 {
        assert id[i] == l[i - |c| - |b| - 2];
      } else if |c| < i < |c| + |b| + 1 {
        assert id[i] == b[i - |c| - 1];
      }
    }
  }

  /** The key of the record every handler writes for a log. */
  function EventId(chainId: nat, blockNumber: nat, logIndex: nat): (id: string)
    ensures forall i :: 0 <= i < |id| ==> IsDigit(id[i]) || id[i] == '_'
    ensures multiset(id)['_'] == 2
  {
    JoinedDigits(Decimal(chainId), Decimal(blockNumber), Decimal(logIndex));
    Decimal(chainId) + "_" + Decimal(blockNumber) + "_" + Decimal(logIndex)
  }

  lemma EventIdParts(c: nat, b: nat, l: nat)
    ensures EventId(c, b, l) == Decimal(c) + ['_'] + (Decimal(b) + ['_'] + Decimal(l))
  {
  }

  /** Distinct (chain, block, log index) triples never share a record key. */
  lemma EventIdInjective(c1: nat, b1: nat, l1: nat, c2: nat, b2: nat, l2: nat)
    requires EventId(c1, b1, l1) == EventId(c2, b2, l2)
    ensures c1 == c2 && b1 == b2 && l1 == l2
  {
    EventIdParts(c1, b1, l1);
    EventIdParts(c2, b2, l2);
    DigitsHaveNoUnderscore(Decimal(c1));
    DigitsHaveNoUnderscore(Decimal(c2));
    SplitAtSeparator(Decimal(c1), Decimal(b1) + ['_'] + Decimal(l1),
                     Decimal(c2), Decimal(b2) + ['_'] + Decimal(l2), '_');
    DigitsHaveNoUnderscore(Decimal(b1));
    DigitsHaveNoUnderscore(Decimal(b2));
    SplitAtSeparator(Decimal(b1), Decimal(l1), Decimal(b2), Decimal(l2), '_');
    DecimalInjective(c1, c2);
    DecimalInjective(b1, b2);
    DecimalInjective(l1, l2);
  }

  /** Addresses are `0x`-prefixed hexadecimal, so they never contain `-`. */
  predicate SeparatorFree(address: string) {
    '-' !in address
  }

  /** The key of the share `user` holds in `vault`. */
  function ShareId(vault: string, user: string): string {
    vault + "-" + user
  }

  /** A share key starts with the vault, then the separator, and ends with the user. */
  lemma ShareIdParts(vault: string, user: string)
    ensures var id := ShareId(vault, user);
      && |id| == |vault| + 1 + |user|
      && id[..|vault|] == vault && id[|vault|] == '-' && id[|vault| + 1..] == user
  {
  }

  /** A share key names one (vault, user) pair when vault addresses are separator-free. */
  lemma ShareIdInjective(v1: string, u1: string, v2: string, u2: string)
    requires SeparatorFree(v1) && SeparatorFree(v2)
    requires ShareId(v1, u1) == ShareId(v2, u2)
    ensures v1 == v2 && u1 == u2
  {
    SplitAtSeparator(v1, u1, v2, u2, '-');
  }
}
