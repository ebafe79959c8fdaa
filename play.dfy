/**
 * The pure pieces of the `play card` handler (app.js): locating the
 * requested card in a hand (`getPlayableCardIdxFromDeck`), colouring a
 * wild card, removing a card (`splice`), the face-0 hand swap, and the
 * pull count a card adds.
 */
module Play {
  import opened Wrappers
  import opened Types
  import opened Clients
  import opened Turns

  /** The `play card` payload: the card asked for and, for a face 0, the swap target. */
  datatype PlayRequest = PlayRequest(card: Card, cid: ClientId)

  /**
   * The `findIndex` test of `getPlayableCardIdxFromDeck`: same face, and
   * either the same colour, or a held wild card asked for in a colour
   * other than BLACK.
   */
  predicate Matches(req: Card, held: Card)
    ensures Matches(req, held) ==> req.face == held.face
    ensures req == held ==> Matches(req, held)
  {
    req.face == held.face && ((req.color != Black && HasChoosableColor(held)) || req.color == held.color)
  }

  /** `getPlayableCardIdxFromDeck`: the first matching position, or -1. */
  function PlayableCardIdx(req: Card, hand: seq<Card>): (r: int)
    ensures -1 <= r < |hand|
    ensures r == -1 <==> forall i :: 0 <= i < |hand| ==> !Matches(req, hand[i])
    ensures r >= 0 ==> Matches(req, hand[r]) && forall i :: 0 <= i < r ==> !Matches(req, hand[i])
  {
    if hand == [] then -1
    else if Matches(req, hand[0]) then 0
    else
      var r := PlayableCardIdx(req, hand[1..]);
      if r == -1 then -1 else r + 1
  }

  /** The held card after `card.color = cardToPlay.color` for a wild card. */
  function Colored(held: Card, color: int): (c: Card)
    ensures c.face == held.face && (c.color == held.color || c.color == color)
    ensures !HasChoosableColor(held) ==> c == held
  {
    if HasChoosableColor(held) then Card(color, held.face) else held
  }

  /**
   * The card that reaches the discard pile is exactly the card that was
   * asked for: a matching wild card takes the requested colour, any other
   * match already has it.
   */
  lemma PlayedIsRequested(req: Card, held: Card)
    requires Matches(req, held)
    ensures Colored(held, req.color) == req
  {
  }

  /** `hand.splice(i, 1)`. */
  function RemoveAt(hand: seq<Card>, i: int): (r: seq<Card>)
    requires 0 <= i < |hand|
    ensures |r| == |hand| - 1
    ensures multiset(hand) == multiset(r) + multiset{hand[i]}
    ensures forall k :: 0 <= k < i ==> r[k] == hand[k]
    ensures forall k :: i <= k < |r| ==> r[k] == hand[k + 1]
  {
    assert hand == hand[..i] + [hand[i]] + hand[i + 1..];
    hand[..i] + hand[i + 1..]
  }

  /** The increase of `currentCardPullCnt` a played face causes. */
  function PullAdded(face: int): (k: nat)
    ensures k <= 4 && (k > 0 <==> face == Plus2 || face == Plus4)
  {
    if face == Plus2 then 2 else if face == Plus4 then 4 else 0
  }

  /**
   * The face-0 swap `temp = decks[a]; decks[a] = decks[b]; decks[b] = temp`:
   * each side gets what the other held, `undefined` included, and every
   * other key is untouched.
   */
  function SwapHands(decks: Hands, a: ClientId, b: ClientId): (r: Hands)
    ensures r.Keys == decks.Keys + {a, b}
    ensures r[a] == Lookup(decks, if a == b then a else b)
    ensures r[b] == Lookup(decks, a)
    ensures forall id :: id in decks && id != a && id != b ==> r[id] == decks[id]
  {
    decks[a := Lookup(decks, b)][b := Lookup(decks, a)]
  }

  /** Swapping back restores every key that held a hand before. */
  lemma SwapTwice(decks: Hands, a: ClientId, b: ClientId)
    requires a in decks && b in decks
    ensures SwapHands(SwapHands(decks, a, b), a, b) == decks
  {
  }
}
