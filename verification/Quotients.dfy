/** Facts about integer quotients that the solver does not find by itself. */
module Quotients {

  type Positive = n: int | 0 < n witness 1

  function Ceil(a: nat, b: Positive): nat {
    (a + b - 1) / b
  }

  lemma Cancel(a: int, b: int, c: Positive)
    ensures a * c < b * c <==> a < b
    ensures a < b ==> (a + 1) * c <= b * c
  {
    Grows(a, b, c);
    Grows(a + 1, b, c);
    Grows(b, a, c);
  }

  lemma Grows(a: int, b: int, c: Positive)
    ensures a <= b ==> a * c <= b * c
    ensures (a + 1) * c == a * c + c
  {
    if a <= b {
      assert b * c - a * c == (b - a) * c;
      assert 0 <= (b - a) * c;
    }
  }

  lemma Divided(a: nat, b: Positive)
    ensures a / b * b <= a < a / b * b + b
  {
    assert a == a / b * b + a % b;
  }

  lemma Division(a: nat, b: Positive, q: nat)
    requires q * b <= a < (q + 1) * b
    ensures a / b == q
  {
    assert a == a / b * b + a % b;
    Cancel(a / b, q, b);
    Cancel(q, a / b, b);
  }

  lemma NextIsNoMultiple(a: nat, b: Positive)
    requires b > 1 && a % b == 0
    ensures (a + 1) % b != 0
  {
    var q := a / b;
    assert a == q * b + a % b;
    Grows(q, q, b);
    Division(a + 1, b, q);
    assert a + 1 == (a + 1) / b * b + (a + 1) % b;
  }

  lemma CeilIsNextToFloor(a: nat, b: Positive)
    ensures Ceil(a, b) == a / b + (if a % b == 0 then 0 else 1)
  {
    var q := a / b;
    assert a == q * b + a % b;
    Grows(q, q, b);
    Grows(q + 1, q, b);
    Division(a + b - 1, b, if a % b == 0 then q else q + 1);
  }

  lemma Quotient(a: nat, b: Positive, c: nat)
    ensures a < b * c <==> a / b < c
    ensures a >= b * c <==> a / b >= c
    ensures a == b * c ==> a % b == 0 && a / b == c
  {
    var q := a / b;
    assert a == q * b + a % b;
    if q < c {
      assert (q + 1) * b <= c * b;
    } else {
      assert q * b >= c * b;
      if q > c {
        assert q * b >= (c + 1) * b;
      }
    }
  }
}
