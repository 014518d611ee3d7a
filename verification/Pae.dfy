/** The pre-authentication encoding: the bytes a signature is made over. A signature names one payload type and one
    payload because the encoding does. A byte is a character below. */
module Pae {

  type Bytes = string

  const SPACE: Bytes := " "
  const VERSION: Bytes := "DSSEv1 "

  function Digit(d: nat): char
    requires d < 10
  {
    '0' + d as char
  }

  function Decimal(n: nat): Bytes {
    if n < 10 then [Digit(n)] else Decimal(n / 10) + [Digit(n % 10)]
  }

  /** A text after its length. */
  function Counted(text: Bytes): Bytes {
    Decimal(|text|) + SPACE + text
  }

  function Encode(payloadType: Bytes, payload: Bytes): Bytes {
    VERSION + Counted(payloadType) + SPACE + Counted(payload)
  }

  lemma {:induction false} DecimalHasNoSpace(n: nat)
    ensures ' ' !in Decimal(n) && Decimal(n) != []
  {
    if n >= 10 {
      DecimalHasNoSpace(n / 10);
    }
  }

  lemma {:induction false} DecimalInjective(a: nat, b: nat)
    requires Decimal(a) == Decimal(b)
    ensures a == b
  {
    DecimalHasNoSpace(a / 10);
    DecimalHasNoSpace(b / 10);
    var x, y := Decimal(a), Decimal(b);
    assert x[|x| - 1] == Digit(a % 10) && y[|y| - 1] == Digit(b % 10);
    if a >= 10 && b >= 10 {
      assert x[..|x| - 1] == Decimal(a / 10) && y[..|y| - 1] == Decimal(b / 10);
      DecimalInjective(a / 10, b / 10);
    }
  }

  /** What stands before the first space, and what after. */
  lemma SplitAtSpace(x: Bytes, rest: Bytes, x': Bytes, rest': Bytes)
    requires ' ' !in x && ' ' !in x' && x + SPACE + rest == x' + SPACE + rest'
    ensures x == x' && rest == rest'
  {
    var all := x + SPACE + rest;
    assert all[|x|] == ' ' && all[|x'|] == ' ';
    assert all[..|x|] == x && all[..|x'|] == x';
    assert forall i :: 0 <= i < |x| ==> all[i] == x[i];
    assert forall i :: 0 <= i < |x'| ==> all[i] == x'[i];
    assert all[|x| + 1..] == rest && all[|x'| + 1..] == rest';
  }

  /** A counted text says where it ends. */
  lemma CountedIsPrefixFree(a: Bytes, rest: Bytes, b: Bytes, rest': Bytes)
    requires Counted(a) + rest == Counted(b) + rest'
    ensures a == b && rest == rest'
  {
    DecimalHasNoSpace(|a|);
    DecimalHasNoSpace(|b|);
    assert Counted(a) + rest == Decimal(|a|) + SPACE + (a + rest);
    assert Counted(b) + rest' == Decimal(|b|) + SPACE + (b + rest');
    SplitAtSpace(Decimal(|a|), a + rest, Decimal(|b|), b + rest');
    DecimalInjective(|a|, |b|);
    assert (a + rest)[..|a|] == a && (b + rest')[..|b|] == b;
    assert (a + rest)[|a|..] == rest && (b + rest')[|b|..] == rest';
  }

  /** Two signed contents with one encoding are one content. */
  lemma EncodeInjective(t: Bytes, p: Bytes, t': Bytes, p': Bytes)
    requires Encode(t, p) == Encode(t', p')
    ensures t == t' && p == p'
  {
    hide Counted;
    assert Encode(t, p)[|VERSION|..] == Counted(t) + (SPACE + Counted(p));
    assert Encode(t', p')[|VERSION|..] == Counted(t') + (SPACE + Counted(p'));
    CountedIsPrefixFree(t, SPACE + Counted(p), t', SPACE + Counted(p'));
    assert (SPACE + Counted(p))[1..] + [] == Counted(p) + [];
    assert (SPACE + Counted(p'))[1..] + [] == Counted(p') + [];
    CountedIsPrefixFree(p, [], p', []);
  }
}
