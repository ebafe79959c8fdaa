/**
 * What each recipient is sent when a card is pulled or two hands are
 * swapped (app.js `hideAndEmitCardPull`, `hideAndEmitDeckSwap`): the
 * payload is copied per recipient and every card the recipient does not
 * own is replaced by the secret card.
 */
module Redaction {
  import opened Types
  import opened Clients

  /** `secretCard`: both fields SECRET. */
  const SecretCard: Card := Card(ColorSecret, FaceSecret)

  /** A `card pulled` payload: who received which card. */
  datatype CardPull = CardPull(cid: ClientId, card: Card)

  /** One side of a `deck swap` payload: a client and the hand it now holds. */
  datatype SwapSide = SwapSide(cid: ClientId, deck: seq<Card>)

  /** A `deck swap` payload. */
  datatype DeckSwap = DeckSwap(deck1: SwapSide, deck2: SwapSide)

  /** The copy of a card pull sent to `recipient`. */
  function CardPullView(pull: CardPull, recipient: ClientId): (v: CardPull)
    ensures v.cid == pull.cid
    ensures v.card == if recipient == pull.cid then pull.card else SecretCard
  {
    CardPull(pull.cid, if pull.cid == recipient then pull.card else SecretCard)
  }

  /** The copies sent, one per recipient, in table order. */
  function CardPullViews(pull: CardPull, recipients: seq<Client>): (vs: seq<CardPull>)
    ensures |vs| == |recipients|
    ensures forall i :: 0 <= i < |recipients| ==> vs[i] == CardPullView(pull, recipients[i].id)
  {
    if recipients == [] then []
    else [CardPullView(pull, recipients[0].id)] + CardPullViews(pull, recipients[1..])
  }

  /** `n` secret cards: `Array(n).fill(secret)`. */
  function Secrets(n: nat): (s: seq<Card>)
    ensures |s| == n && forall i :: 0 <= i < n ==> s[i] == SecretCard
  {
    if n == 0 then [] else Secrets(n - 1) + [SecretCard]
  }

  /** A side as `recipient` sees it: unchanged for its owner, all secret for anyone else. */
  function HideSide(side: SwapSide, recipient: ClientId): (v: SwapSide)
    ensures v.cid == side.cid && |v.deck| == |side.deck|
    ensures recipient == side.cid ==> v.deck == side.deck
    ensures recipient != side.cid ==> forall i :: 0 <= i < |v.deck| ==> v.deck[i] == SecretCard
  {
    if recipient != side.cid then SwapSide(side.cid, Secrets(|side.deck|)) else side
  }

  /** The copy of a deck swap sent to `recipient`. */
  function DeckSwapView(swap: DeckSwap, recipient: ClientId): (v: DeckSwap)
    ensures v.deck1.cid == swap.deck1.cid && |v.deck1.deck| == |swap.deck1.deck|
    ensures v.deck2.cid == swap.deck2.cid && |v.deck2.deck| == |swap.deck2.deck|
    ensures recipient == swap.deck1.cid ==> v.deck1 == swap.deck1
    ensures recipient == swap.deck2.cid ==> v.deck2 == swap.deck2
  {
    DeckSwap(HideSide(swap.deck1, recipient), HideSide(swap.deck2, recipient))
  }

  function DeckSwapViews(swap: DeckSwap, recipients: seq<Client>): (vs: seq<DeckSwap>)
    ensures |vs| == |recipients|
    ensures forall i :: 0 <= i < |recipients| ==> vs[i] == DeckSwapView(swap, recipients[i].id)
  {
    if recipients == [] then []
    else [DeckSwapView(swap, recipients[0].id)] + DeckSwapViews(swap, recipients[1..])
  }

  // ---------------------------------------------------------------------
  // Properties
  // ---------------------------------------------------------------------

  /**
   * Only the owner learns the card: every recipient other than the owner
   * is sent the same payload whatever the card was.
   */
  lemma CardPullHidesCard(cid: ClientId, a: Card, b: Card, recipients: seq<Client>)
    ensures forall i :: 0 <= i < |recipients| && recipients[i].id != cid ==>
              CardPullViews(CardPull(cid, a), recipients)[i] == CardPullViews(CardPull(cid, b), recipients)[i]
    ensures forall i :: 0 <= i < |recipients| && recipients[i].id == cid ==>
              CardPullViews(CardPull(cid, a), recipients)[i].card == a
  {
  }

  /** A hidden side reveals only its length: sides of equal length look alike to non-owners. */
  lemma HideSideRevealsLength(x: SwapSide, y: SwapSide, recipient: ClientId)
    requires x.cid == y.cid && recipient != x.cid && |x.deck| == |y.deck|
    ensures HideSide(x, recipient) == HideSide(y, recipient)
  {
  }

  /**
   * In a swap a recipient learns the cards of the sides it owns and only
   * the length of the others: two swaps between the same clients, with
   * hands of the same lengths that agree on the recipient's own sides,
   * are sent to it identically.
   */
  lemma DeckSwapHidesHands(s: DeckSwap, t: DeckSwap, recipient: ClientId)
    requires s.deck1.cid == t.deck1.cid && s.deck2.cid == t.deck2.cid
    requires |s.deck1.deck| == |t.deck1.deck| && |s.deck2.deck| == |t.deck2.deck|
    requires recipient == s.deck1.cid ==> s.deck1.deck == t.deck1.deck
    requires recipient == s.deck2.cid ==> s.deck2.deck == t.deck2.deck
    ensures DeckSwapView(s, recipient) == DeckSwapView(t, recipient)
  {
  }
}
