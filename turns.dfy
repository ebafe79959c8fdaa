/**
 * Turn advancement (app.js `advanceTurn`) as a function of the state it
 * reads, and what a played card's face does to the turn.
 *
 * `advanceTurn` calls itself once for every seat it skips. Its depth
 * guard compares against `decks.length`, which is undefined for the
 * object `decks`, so it never stops the recursion; the model bounds the
 * recursion by `fuel`, the number of nested calls the JavaScript stack
 * allows, and reports running out of it as `Unbounded`.
 */
module Turns {
  import opened Wrappers
  import opened Types
  import opened Clients

  /** How a call of `advanceTurn` ends. */
  datatype Turn =
    | Landed     // on a seat whose hand is not empty
    | Threw      // TypeError: the index is outside the table, or that client has no hand
    | Unbounded  // still skipping empty hands when the stack ran out

  /** The `nextPlayerIdx` left behind, and how the call ended. */
  datatype Advanced = Advanced(next: Option<int>, turn: Turn)

  /**
   * `gameState.decks`: the hand stored under each id. A face-0 swap with
   * a target that has no hand stores `undefined`, modelled as `None`.
   */
  type Hands = map<ClientId, Option<seq<Card>>>

  /** What `decks[id]` evaluates to: `undefined` for an id without a key. */
  function Lookup(decks: Hands, id: ClientId): Option<seq<Card>>
  {
    if id in decks then decks[id] else None
  }

  /** What `decks[clients[i].id]` evaluates to. */
  function HandAt(clients: seq<Client>, decks: Hands, i: int): Option<seq<Card>>
    requires 0 <= i < |clients|
  {
    Lookup(decks, clients[i].id)
  }

  /** A seat `advanceTurn` skips: its client holds an empty hand. */
  predicate Idle(clients: seq<Client>, decks: Hands, i: int)
    requires 0 <= i < |clients|
  {
    HandAt(clients, decks, i) == Some([])
  }

  /**
   * One step of the index: `null` becomes seat 0 when there are clients;
   * otherwise add the direction (a `null` counts as 0), wrap values at or
   * beyond the table to 0, and then send negative values to `n`.
   */
  function StepIndex(idx: Option<int>, dir: int, n: nat): (r: int)
    ensures 0 <= r <= n
  {
    if idx.None? && n > 0 then 0
    else
      var v := (if idx.Some? then idx.value else 0) + dir;
      var w := if v >= n then 0 else v;
      if w < 0 then n else w
  }

  /** `advanceTurn(depth)` with at most `fuel` nested calls. */
  function Advance(clients: seq<Client>, decks: Hands, idx: Option<int>, dir: int, fuel: nat): (r: Advanced)
    ensures r.turn == Landed ==>
              r.next.Some? && 0 <= r.next.value < |clients| &&
              HandAt(clients, decks, r.next.value).Some? && HandAt(clients, decks, r.next.value).value != []
    ensures r.turn == Threw ==>
              r.next.Some? &&
              (!(0 <= r.next.value < |clients|) || HandAt(clients, decks, r.next.value).None?)
    ensures r.turn == Unbounded ==> (fuel == 0 && r.next == idx) || (r.next.Some? && 0 <= r.next.value < |clients| && Idle(clients, decks, r.next.value))
    decreases fuel
  {
    if fuel == 0 then Advanced(idx, Unbounded)
    else
      var i := StepIndex(idx, dir, |clients|);
      if !(0 <= i < |clients|) || HandAt(clients, decks, i).None? then Advanced(Some(i), Threw)
      else if HandAt(clients, decks, i).value == [] then Advance(clients, decks, Some(i), dir, fuel - 1)
      else Advanced(Some(i), Landed)
  }

  // ---------------------------------------------------------------------
  // The index step with the only direction the server uses
  // ---------------------------------------------------------------------

  /**
   * With direction 1 and at least one client: `null` starts at seat 0,
   * an index in -1..n-1 moves to the next seat round the table, and any
   * index below -1 leaves the table at `n`.
   */
  lemma StepForward(idx: Option<int>, n: nat)
    requires n > 0
    ensures idx.None? ==> StepIndex(idx, 1, n) == 0
    ensures idx.Some? && -1 <= idx.value < n ==> StepIndex(idx, 1, n) == (idx.value + 1) % n
    ensures idx.Some? && idx.value >= n - 1 ==> StepIndex(idx, 1, n) == 0
    ensures idx.Some? && idx.value < -1 ==> StepIndex(idx, 1, n) == n
  {
  }

  /** Forward distance round a table of `n` seats from seat `i` to seat `p`. */
  function Dist(n: nat, i: int, p: int): int
  {
    if i <= p then p - i else p - i + n
  }

  lemma DistStep(n: nat, i: int, p: int)
    requires 0 <= i < n && 0 <= p < n && i != p
    ensures 0 < Dist(n, i, p) < n
    ensures Dist(n, StepIndex(Some(i), 1, n), p) == Dist(n, i, p) - 1
  {
  }

  // ---------------------------------------------------------------------
  // Termination and divergence of the skipping recursion
  // ---------------------------------------------------------------------

  /**
   * From seat `i`, if the seat `p` ahead does not hold an empty hand and
   * the stack allows more calls than the distance to `p`, the call ends
   * (lands or throws) before the stack runs out.
   */
  lemma {:induction false} StopsBefore(clients: seq<Client>, decks: Hands, i: int, p: int, fuel: nat)
    requires 0 <= i < |clients| && 0 <= p < |clients| && !Idle(clients, decks, p)
    requires i != p ==> fuel > Dist(|clients|, i, p)
    requires i == p ==> fuel > |clients|
    ensures Advance(clients, decks, Some(i), 1, fuel).turn != Unbounded
    decreases fuel
  {
    var n := |clients|;
    var j := StepIndex(Some(i), 1, n);
    StepForward(Some(i), n);
    if j != p {
      if i != p {
        DistStep(n, i, p);
      } else {
        assert Dist(n, j, p) == n - 1;
      }
      if HandAt(clients, decks, j).Some? && HandAt(clients, decks, j).value == [] {
        StopsBefore(clients, decks, j, p, fuel - 1);
      }
    }
  }

  /**
   * With direction 1, if some seat does not hold an empty hand and the
   * stack allows more than `|clients|` nested calls, `advanceTurn`
   * lands or throws: it never recurses without bound.
   */
  lemma AdvanceStops(clients: seq<Client>, decks: Hands, idx: Option<int>, p: int, fuel: nat)
    requires 0 <= p < |clients| && !Idle(clients, decks, p)
    requires fuel > |clients|
    ensures Advance(clients, decks, idx, 1, fuel).turn != Unbounded
  {
    var n := |clients|;
    var j := StepIndex(idx, 1, n);
    if 0 <= j < n && Idle(clients, decks, j) {
      if j != p {
        DistStep(n, j, p);
      }
      StopsBefore(clients, decks, j, p, fuel - 1);
    }
  }

  /**
   * Conversely, when every client holds an empty hand the recursion
   * never ends, whatever the stack allows (the unreachable depth guard
   * was meant to catch this).
   */
  lemma {:induction false} AllIdleDiverges(clients: seq<Client>, decks: Hands, idx: Option<int>, fuel: nat)
    requires |clients| > 0
    requires forall i :: 0 <= i < |clients| ==> Idle(clients, decks, i)
    requires idx.Some? ==> idx.value >= -1
    ensures Advance(clients, decks, idx, 1, fuel).turn == Unbounded
    decreases fuel
  {
    if fuel > 0 {
      var j := StepIndex(idx, 1, |clients|);
      assert Idle(clients, decks, j);
      AllIdleDiverges(clients, decks, Some(j), fuel - 1);
    }
  }

  /**
   * The catch-up loop of an out-of-turn play: from seat `i`, towards a
   * seat `p` whose hand is not empty, a call that lands gets strictly
   * closer to `p` (so the loop reaches `p` unless a call throws or runs
   * out of stack).
   */
  lemma {:induction false} LandsCloser(clients: seq<Client>, decks: Hands, i: int, p: int, fuel: nat)
    requires 0 <= i < |clients| && 0 <= p < |clients| && i != p
    requires HandAt(clients, decks, p).Some? && HandAt(clients, decks, p).value != []
    requires Advance(clients, decks, Some(i), 1, fuel).turn == Landed
    ensures Dist(|clients|, Advance(clients, decks, Some(i), 1, fuel).next.value, p) < Dist(|clients|, i, p)
    decreases fuel
  {
    var n := |clients|;
    var j := StepIndex(Some(i), 1, n);
    StepForward(Some(i), n);
    DistStep(n, i, p);
    if HandAt(clients, decks, j).value == [] {
      LandsCloser(clients, decks, j, p, fuel - 1);
    }
  }

  /**
   * `while (nextPlayerIdx !== playerIdx) advanceTurn()`, the catch-up
   * before a jump-in from seat `p`: advance until the index is `p`, or
   * until a call throws or runs out of stack. A call that lands gets
   * closer to `p`, so the loop ends; when it ends by landing, the index
   * is `p`.
   */
  function CatchUp(clients: seq<Client>, decks: Hands, i: int, p: int, fuel: nat): (r: Advanced)
    requires 0 <= i < |clients| && 0 <= p < |clients|
    requires HandAt(clients, decks, p).Some? && HandAt(clients, decks, p).value != []
    ensures r.turn == Landed ==> r.next == Some(p)
    ensures r.turn != Landed ==> r.next.Some?
    decreases Dist(|clients|, i, p)
  {
    if i == p then Advanced(Some(p), Landed)
    else
      var a := Advance(clients, decks, Some(i), 1, fuel);
      if a.turn != Landed then a
      else
        LandsCloser(clients, decks, i, p, fuel);
        CatchUp(clients, decks, a.next.value, p, fuel)
  }

  // ---------------------------------------------------------------------
  // The effect of the played card's face on the turn
  // ---------------------------------------------------------------------

  /**
   * The index after a successful play from `seat`: TURNAROUND negates the
   * index and advances; DENY advances once more after the regular advance
   * (if the first one lands); every other face advances once.
   */
  function EndOfTurn(clients: seq<Client>, decks: Hands, seat: int, face: int, fuel: nat): (r: Advanced)
    ensures r.turn == Landed ==>
              r.next.Some? && 0 <= r.next.value < |clients| &&
              HandAt(clients, decks, r.next.value).Some? && HandAt(clients, decks, r.next.value).value != []
  {
    if face == Turnaround then Advance(clients, decks, Some(-seat), 1, fuel)
    else if face == Deny then
      var first := Advance(clients, decks, Some(seat), 1, fuel);
      if first.turn == Landed then Advance(clients, decks, first.next, 1, fuel) else first
    else Advance(clients, decks, Some(seat), 1, fuel)
  }

  predicate AllHold(clients: seq<Client>, decks: Hands)
  {
    forall i :: 0 <= i < |clients| ==> HandAt(clients, decks, i).Some? && HandAt(clients, decks, i).value != []
  }

  /** When everyone holds cards, an ordinary card passes the turn to the next seat. */
  lemma NextSeat(clients: seq<Client>, decks: Hands, seat: int, face: int, fuel: nat)
    requires AllHold(clients, decks) && 0 <= seat < |clients| && fuel > 0
    requires face != Turnaround && face != Deny
    ensures EndOfTurn(clients, decks, seat, face, fuel) == Advanced(Some((seat + 1) % |clients|), Landed)
  {
    StepForward(Some(seat), |clients|);
  }

  /** When everyone holds cards, DENY skips exactly one seat. */
  lemma DenySkipsOne(clients: seq<Client>, decks: Hands, seat: int, fuel: nat)
    requires AllHold(clients, decks) && 0 <= seat < |clients| && fuel > 0
    ensures EndOfTurn(clients, decks, seat, Deny, fuel) == Advanced(Some((seat + 2) % |clients|), Landed)
  {
    var n := |clients|;
    StepForward(Some(seat), n);
    StepForward(Some((seat + 1) % n), n);
    assert ((seat + 1) % n + 1) % n == (seat + 2) % n;
  }

  /**
   * TURNAROUND does not reverse the direction: from seat 0 the turn goes
   * to seat 1 (seat 0 at a table of one), from seat 1 to seat 0, and from
   * any seat from 2 on the index becomes `|clients|`, outside the table,
   * and the call throws.
   */
  lemma TurnaroundSeats(clients: seq<Client>, decks: Hands, seat: int, fuel: nat)
    requires AllHold(clients, decks) && 0 <= seat < |clients| && fuel > 0
    ensures seat == 0 ==> EndOfTurn(clients, decks, seat, Turnaround, fuel) == Advanced(Some(1 % |clients|), Landed)
    ensures seat == 1 ==> EndOfTurn(clients, decks, seat, Turnaround, fuel) == Advanced(Some(0), Landed)
    ensures seat >= 2 ==> EndOfTurn(clients, decks, seat, Turnaround, fuel) == Advanced(Some(|clients|), Threw)
  {
  }
}
