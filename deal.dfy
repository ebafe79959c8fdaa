/**
 * The layout of the deal in `restartGame` (app.js): `cardCnt` rounds,
 * each giving one card from the front of the pile to every seat in
 * table order.
 */
module Deal {
  import opened Types

  /** `cardCnt`: cards dealt to each client by a restart. */
  const HandSize: nat := 7

  /** Cards dealt in `q` full rounds to `n` seats (`q * n`, by repeated addition). */
  function Rounds(q: nat, n: nat): nat
  {
    if q == 0 then 0 else Rounds(q - 1, n) + n
  }

  lemma {:induction false} RoundsMonotone(q: nat, r: nat, n: nat)
    requires q < r
    ensures Rounds(q, n) + n <= Rounds(r, n)
    decreases r
  {
    if q + 1 < r {
      RoundsMonotone(q, r - 1, n);
    }
  }

  /** `Rounds` is the product it stands for. */
  lemma {:induction false} RoundsIsProduct(q: nat, n: nat)
    ensures Rounds(q, n) == q * n
  {
    if q > 0 {
      RoundsIsProduct(q - 1, n);
    }
  }

  /**
   * The hand seat `s` of `n` holds after `r` rounds of dealing from the
   * front of `d`: one card per round, every `n`-th card from position `s`.
   */
  function Dealt(d: seq<Card>, n: nat, s: nat, r: nat): (h: seq<Card>)
    requires s < n && Rounds(r, n) <= |d|
    ensures |h| == r
    ensures forall q :: 0 <= q < r ==> Rounds(q, n) + s < |d| && h[q] == d[Rounds(q, n) + s]
  {
    if r == 0 then []
    else
      Dealt(d, n, s, r - 1) + [d[Rounds(r - 1, n) + s]]
  }

  /**
   * Every card dealt goes to exactly one hand: each of the first
   * `Rounds(r, n)` positions is one seat's card of one round, and no
   * two (round, seat) pairs share a position.
   */
  lemma {:induction false} DealtCovers(r: nat, n: nat, k: nat)
    requires k < Rounds(r, n)
    ensures exists q :: 0 <= q < r && Rounds(q, n) <= k < Rounds(q, n) + n
  {
    if k < Rounds(r - 1, n) {
      DealtCovers(r - 1, n, k);
    } else {
      assert Rounds(r - 1, n) <= k < Rounds(r - 1, n) + n;
    }
  }

  lemma DealtDistinct(n: nat, q1: nat, s1: nat, q2: nat, s2: nat)
    requires s1 < n && s2 < n
    requires Rounds(q1, n) + s1 == Rounds(q2, n) + s2
    ensures q1 == q2 && s1 == s2
  {
    if q1 < q2 {
      RoundsMonotone(q1, q2, n);
    } else if q2 < q1 {
      RoundsMonotone(q2, q1, n);
    }
  }
}
