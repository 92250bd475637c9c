/** The scoreline as the scanner compares it: the text `h:a` that Python's
    f-string formatting gives for two non-negative goal counts. The rule chain
    compares this text with literals such as "1:0"; the lemmas here show that
    such a comparison is the same as comparing the two goal counts. */
module Score {

  predicate IsDigit(c: char) {
    '0' <= c <= '9'
  }

  /** The character Python's str() writes for the decimal digit d. */
  function Digit(d: nat): (c: char)
    requires d < 10
    ensures IsDigit(c)
    ensures c as int - '0' as int == d
  {
    ('0' as int + d) as char
  }

  /** Decimal text of a non-negative integer, without leading zeros. */
  function DecimalText(n: nat): (s: string)
    ensures 1 <= |s|
    ensures |s| == 1 <==> n < 10
    ensures forall i :: 0 <= i < |s| ==> IsDigit(s[i])
  {
    if n < 10 then [Digit(n)] else DecimalText(n / 10) + [Digit(n % 10)]
  }

  /** Distinct numbers have distinct decimal texts. */
  lemma {:induction false} DecimalTextInjective(n: nat, m: nat)
    requires DecimalText(n) == DecimalText(m)
    ensures n == m
  {
    var p, q := DecimalText(n), DecimalText(m);
    if |p| == 1 {
      assert Digit(n) == p[0] == q[0] == Digit(m);
    } else {
      assert p == DecimalText(n / 10) + [Digit(n % 10)];
      assert q == DecimalText(m / 10) + [Digit(m % 10)];
      assert DecimalText(n / 10) == p[..|p| - 1] == q[..|q| - 1] == DecimalText(m / 10);
      DecimalTextInjective(n / 10, m / 10);
      assert Digit(n % 10) == p[|p| - 1] == q[|q| - 1] == Digit(m % 10);
    }
  }

  /** The scoreline `home:away` as the scanner formats it. */
  function ScoreText(home: nat, away: nat): string {
    DecimalText(home) + ":" + DecimalText(away)
  }

  /** Two scorelines are the same text exactly when both goal counts agree, so
      "10:0" is never "1:0" and "0:0" is only ever the goalless score. */
  lemma ScoreTextInjective(h1: nat, a1: nat, h2: nat, a2: nat)
    ensures ScoreText(h1, a1) == ScoreText(h2, a2) <==> h1 == h2 && a1 == a2
  {
    if ScoreText(h1, a1) == ScoreText(h2, a2) {
      var s := ScoreText(h1, a1);
      var p1, p2 := DecimalText(h1), DecimalText(h2);
      assert s[|p1|] == ':' && s[|p2|] == ':';
      assert forall i :: 0 <= i < |p1| ==> s[i] == p1[i];
      assert forall i :: 0 <= i < |p2| ==> s[i] == p2[i];
      assert |p1| == |p2|;
      assert p1 == s[..|p1|] == p2;
      DecimalTextInjective(h1, h2);
      assert DecimalText(a1) == s[|p1| + 1..] == DecimalText(a2);
      DecimalTextInjective(a1, a2);
    }
  }

  /** The literals the rule chain compares with are the formatted scorelines. */
  lemma ScoreLiterals()
    ensures ScoreText(0, 0) == "0:0" && ScoreText(1, 0) == "1:0"
    ensures ScoreText(0, 1) == "0:1" && ScoreText(1, 1) == "1:1"
  {
  }
}
