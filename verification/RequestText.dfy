/** The text whose digest is stored with an idempotency key: "from|to|amount". */
module RequestText {
  import opened Base
  import opened Domain

  const BAR: char := '|'

  function Digits(n: nat): (s: string)
    ensures s != "" && forall c | c in s :: '0' <= c <= '9'
  {
    var d := [('0' as int + n % 10) as char];
    if n < 10 then d else Digits(n / 10) + d
  }

  /** Go's %d. */
  function Decimal(n: int): string {
    if n < 0 then "-" + Digits(-n) else Digits(n)
  }

  function HashText(r: Request): string {
    r.from + [BAR] + r.to + [BAR] + Decimal(r.amount)
  }

  /** The number that a row of digits stands for, in base ten. */
  function Value(s: string): int {
    if s == "" then 0 else Value(s[..|s| - 1]) * 10 + (s[|s| - 1] as int - '0' as int)
  }

  /** Printing and reading back. */
  lemma {:induction false} ValueOfDigits(n: nat)
    ensures Value(Digits(n)) == n
    ensures n > 0 ==> Digits(n)[0] != '0'
  {
    var s := Digits(n);
    assert s[|s| - 1] == ('0' as int + n % 10) as char;
    if n < 10 {
      assert s[..|s| - 1] == "";
    } else {
      assert s[..|s| - 1] == Digits(n / 10);
      ValueOfDigits(n / 10);
    }
  }

  lemma DecimalSign(n: int)
    ensures n < 0 <==> Decimal(n)[0] == '-'
    ensures BAR !in Decimal(n)
  {
    if n >= 0 {
      assert Decimal(n)[0] in Digits(n);
    }
  }

  lemma DecimalInjective(m: int, n: int)
    requires Decimal(m) == Decimal(n)
    ensures m == n
  {
    DecimalSign(m);
    DecimalSign(n);
    if m < 0 {
      assert Decimal(m)[1..] == Digits(-m) && Decimal(n)[1..] == Digits(-n);
      ValueOfDigits(-m);
      ValueOfDigits(-n);
    } else {
      ValueOfDigits(m);
      ValueOfDigits(n);
    }
  }

  lemma LaterBarIsInTail(a: string, x: string, b: string, y: string)
    requires a + [BAR] + x == b + [BAR] + y && |a| < |b|
    ensures BAR in x
  {
    assert (a + [BAR] + x)[|b|] == x[|b| - |a| - 1];
  }

  /** Cutting a text at a bar that is the last one on both sides. */
  lemma LastBarSplits(a: string, x: string, b: string, y: string)
    requires a + [BAR] + x == b + [BAR] + y
    requires BAR !in x && BAR !in y
    ensures a == b && x == y
  {
    var s := a + [BAR] + x;
    if |a| < |b| {
      LaterBarIsInTail(a, x, b, y);
    } else if |b| < |a| {
      LaterBarIsInTail(b, y, a, x);
    } else {
      assert s[..|a|] == a && s[..|b|] == b;
      assert s[|a| + 1..] == x && s[|b| + 1..] == y;
    }
  }

  /** `p` and `q` spell the same pair text because a bar in `p`'s source id moves into `q`'s destination id. */
  predicate BarMoves(p: Request, q: Request) {
    && |q.from| < |p.from|
    && p.from[..|q.from|] == q.from
    && p.from[|q.from|] == BAR
    && q.to == p.from[|q.from| + 1..] + [BAR] + p.to
  }

  lemma BarMovesMeansSamePairText(p: Request, q: Request)
    requires BarMoves(p, q)
    ensures p.from + [BAR] + p.to == q.from + [BAR] + q.to
    ensures BAR in p.from && BAR in q.to
  {
    var m := p.from[|q.from| + 1..];
    assert p.from == q.from + [BAR] + m;
    assert p.from[|q.from|] in p.from && q.to[|m|] in q.to;
    assert q.from + [BAR] + m + [BAR] + p.to == q.from + [BAR] + (m + [BAR] + p.to);
  }

  lemma SamePairTextMeansBarMoves(p: Request, q: Request)
    requires p.from + [BAR] + p.to == q.from + [BAR] + q.to
    requires |q.from| < |p.from|
    ensures BarMoves(p, q)
  {
    var s := p.from + [BAR] + p.to;
    assert s[..|q.from|] == q.from && s[..|p.from|] == p.from;
    assert s[|q.from|] == BAR;
    var m := p.from[|q.from| + 1..];
    assert p.from == q.from + [BAR] + m;
    assert s == q.from + [BAR] + (m + [BAR] + p.to);
    assert s[|q.from| + 1..] == m + [BAR] + p.to;
    assert s[|q.from| + 1..] == q.to;
  }

  /** Exact account of the conflict test: two requests get the same text if and only if they ask for the
      same amount between the same wallets, or for the same amount with a bar moved between the ids. */
  lemma SameTextIff(p: Request, q: Request)
    ensures HashText(p) == HashText(q) <==>
      p.amount == q.amount && ((p.from == q.from && p.to == q.to) || BarMoves(p, q) || BarMoves(q, p))
  {
    var pp, qq := p.from + [BAR] + p.to, q.from + [BAR] + q.to;
    assert HashText(p) == pp + [BAR] + Decimal(p.amount) && HashText(q) == qq + [BAR] + Decimal(q.amount);
    if HashText(p) == HashText(q) {
      DecimalSign(p.amount);
      DecimalSign(q.amount);
      LastBarSplits(pp, Decimal(p.amount), qq, Decimal(q.amount));
      DecimalInjective(p.amount, q.amount);
      if |p.from| == |q.from| {
        assert pp[..|p.from|] == p.from && qq[..|q.from|] == q.from;
        assert pp[|p.from| + 1..] == p.to && qq[|q.from| + 1..] == q.to;
      } else if |q.from| < |p.from| {
        SamePairTextMeansBarMoves(p, q);
      } else {
        SamePairTextMeansBarMoves(q, p);
      }
    }
    if BarMoves(p, q) {
      BarMovesMeansSamePairText(p, q);
    }
    if BarMoves(q, p) {
      BarMovesMeansSamePairText(q, p);
    }
  }

  lemma EqualTextMeansSameOrBars(p: Request, q: Request)
    requires HashText(p) == HashText(q)
    ensures p.amount == q.amount
    ensures || (p.from == q.from && p.to == q.to)
            || (BAR in p.from && BAR in q.to)
            || (BAR in q.from && BAR in p.to)
  {
    SameTextIff(p, q);
    if BarMoves(p, q) {
      BarMovesMeansSamePairText(p, q);
    } else if BarMoves(q, p) {
      BarMovesMeansSamePairText(q, p);
    }
  }

  /** The stored text tells `p` apart from every other request that passes validation. */
  ghost predicate Identified(p: Request) {
    forall q: Request | WellFormed(q) && HashText(p) == HashText(q) ::
      p.from == q.from && p.to == q.to && p.amount == q.amount
  }

  function PairText(p: Request): string { p.from + [BAR] + p.to }

  /** Cutting the pair text at the bar at `i`, and not where it was put together, leaves two ids that could be sent. */
  predicate CutsElsewhere(p: Request, i: nat) {
    var s := PairText(p);
    0 < i < |s| - 1 && i != |p.from| && s[i] == BAR && s[..i] != s[i + 1..]
  }

  lemma CutIsAnotherRequest(p: Request, i: nat)
    requires WellFormed(p) && CutsElsewhere(p, i)
    ensures !Identified(p)
  {
    var s := PairText(p);
    var q := Request(p.key, s[..i], s[i + 1..], p.amount);
    assert s == q.from + [BAR] + q.to;
    assert HashText(p) == HashText(q) && WellFormed(q);
  }

  lemma AnotherRequestIsCut(p: Request, q: Request)
    requires WellFormed(q) && HashText(p) == HashText(q) && (p.from != q.from || p.to != q.to)
    ensures CutsElsewhere(p, |q.from|)
  {
    SameTextIff(p, q);
    if BarMoves(p, q) {
      BarMovesMeansSamePairText(p, q);
    } else {
      BarMovesMeansSamePairText(q, p);
    }
    var s := q.from + [BAR] + q.to;
    assert s == PairText(p) && s[..|q.from|] == q.from && s[|q.from| + 1..] == q.to && s[|q.from|] == BAR;
  }

  /** A valid request is told apart from every other valid one if and only if no bar inside its ids cuts the pair text
      into two different non-empty ids. Ids without bars always are. */
  lemma IdentifiedIffNoCut(p: Request)
    requires WellFormed(p)
    ensures Identified(p) <==> forall i: nat :: !CutsElsewhere(p, i)
    ensures BAR !in p.from && BAR !in p.to ==> Identified(p)
  {
    hide HashText, WellFormed, CutsElsewhere;
    forall i: nat | CutsElsewhere(p, i) ensures !Identified(p) {
      CutIsAnotherRequest(p, i);
    }
    forall q: Request | WellFormed(q) && HashText(p) == HashText(q) && (p.from != q.from || p.to != q.to)
      ensures CutsElsewhere(p, |q.from|)
    {
      AnotherRequestIsCut(p, q);
    }
    forall q: Request | HashText(p) == HashText(q) ensures p.amount == q.amount {
      SameTextIff(p, q);
    }
    forall i: nat | CutsElsewhere(p, i) ensures BAR in p.from || BAR in p.to {
      CutIsInsideAnId(p, i);
    }
  }

  lemma CutIsInsideAnId(p: Request, i: nat)
    requires CutsElsewhere(p, i)
    ensures BAR in p.from || BAR in p.to
  {
    assert if i < |p.from| then p.from[i] == BAR else p.to[i - |p.from| - 1] == BAR;
  }

  /** When neither source id (or neither destination id) contains a bar, equal texts mean equal requests. */
  lemma EqualTextMeansEqualRequest(p: Request, q: Request)
    requires HashText(p) == HashText(q)
    requires (BAR !in p.from && BAR !in q.from) || (BAR !in p.to && BAR !in q.to)
    ensures p.from == q.from && p.to == q.to && p.amount == q.amount
  {
    EqualTextMeansSameOrBars(p, q);
  }

  /** Two valid requests between different wallets that the stored text cannot tell apart. */
  lemma ValidRequestsCanCollide()
    ensures var p, q := Request("k", "a|b", "c", 1), Request("k", "a", "b|c", 1);
      WellFormed(p) && WellFormed(q) && p.from != q.from && p.to != q.to && HashText(p) == HashText(q)
  {
    var p, q := Request("k", "a|b", "c", 1), Request("k", "a", "b|c", 1);
    assert p.from[|q.from| + 1..] == "b";
    assert BarMoves(p, q);
    SameTextIff(p, q);
  }
}
