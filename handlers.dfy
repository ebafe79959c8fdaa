/**
 * The bodies of the `play card` and `draw card` socket handlers (app.js)
 * as functions from the game table before the event to the table after
 * it and the way the handler ended, with the rules they enforce proved
 * about them. The class `GameServer` runs the same steps in place.
 */
module Handlers {
  import opened Wrappers
  import opened Types
  import opened Clients
  import opened Turns
  import opened Play

  /** Why a handler returned early without playing or drawing. */
  datatype Reason =
    | NotYourTurn  // not the current player, and (for a play) not a jump-in
    | NoHand       // `decks` has no key for the caller
    | NotPlayable  // the card may not be played on the top card
    | PullPending  // a pull count is pending and the card is not PLUS2 or PLUS4
    | NotHeld      // no card in the hand matches the request
    | NotSeated    // jump-in by a caller that is not in the client table

  /** How a handler ends. */
  datatype Outcome =
    | Rejected(reason: Reason)  // an early `return`
    | Faulted                   // a TypeError before anything was changed
    | Aborted                   // a TypeError (or stack overflow) after some changes
    | Done(turn: Turn)          // the body ran to its final `advanceTurn`, which ended so

  /** The server state a handler reads and writes (`clients` and `gameState`). */
  datatype Table = Table(
    clients: seq<Client>,
    deck: seq<Card>,
    playedCards: seq<Card>,
    decks: Hands,
    nextPlayerIdx: Option<int>,
    currentCardPullCnt: nat)

  /** A table after a handler, and how the handler ended. */
  datatype Step = Step(table: Table, outcome: Outcome)

  /** `getTopPlayedCard`: the last card of the discard pile, or `null`. */
  function Top(pile: seq<Card>): (top: Option<Card>)
    ensures top.None? <==> pile == []
    ensures top.Some? ==> top.value == pile[|pile| - 1]
  {
    if |pile| == 0 then None else Some(pile[|pile| - 1])
  }

  /**
   * The turn check both handlers start with, `clients[nextPlayerIdx].id`:
   * a `null` or out-of-table index reads `undefined.id` and throws.
   */
  predicate TurnReadable(t: Table)
  {
    t.nextPlayerIdx.Some? && 0 <= t.nextPlayerIdx.value < |t.clients|
  }

  predicate IsCurrent(t: Table, actor: ClientId)
    requires TurnReadable(t)
  {
    t.clients[t.nextPlayerIdx.value].id == actor
  }

  // ---------------------------------------------------------------------
  // play card
  // ---------------------------------------------------------------------

  /** How the checks of `play card` end: early, or with the card found at `at`. */
  datatype Admission = Stop(outcome: Outcome) | Go(async: bool, at: nat)

  /**
   * The checks of `play card` in source order. The top card is read
   * through `null` when the pile is empty: the jump-in test always
   * throws then, and the normal test throws unless the card is a PLUS4,
   * a COLORSWITCH or black (the `||` stops before the top card is read).
   */
  function Admit(t: Table, actor: ClientId, card: Card): (a: Admission)
    ensures a.Go? ==> actor in t.decks && t.decks[actor].Some? && a.at < |t.decks[actor].value|
    ensures a.Go? ==> Matches(card, t.decks[actor].value[a.at]) && a.at == PlayableCardIdx(card, t.decks[actor].value)
    ensures a.Go? ==> TurnReadable(t) && a.async == !IsCurrent(t, actor)
  {
    if !TurnReadable(t) then Stop(Faulted)
    else if !IsCurrent(t, actor) && Top(t.playedCards).None? then Stop(Faulted)
    else if !IsCurrent(t, actor) && !CanBeAsyncPlayedOn(card, Top(t.playedCards).value) then Stop(Rejected(NotYourTurn))
    else if actor !in t.decks then Stop(Rejected(NoHand))
    else if IsCurrent(t, actor) && Top(t.playedCards).None? && !(card.face == Plus4 || card.face == ColorSwitch || card.color == Black) then Stop(Faulted)
    else if IsCurrent(t, actor) && Top(t.playedCards).Some? && !CanBePlayedOn(card, Top(t.playedCards).value) then Stop(Rejected(NotPlayable))
    else if t.currentCardPullCnt > 0 && card.face != Plus2 && card.face != Plus4 then Stop(Rejected(PullPending))
    else if t.decks[actor].None? then Stop(Faulted)
    else
      var i := PlayableCardIdx(card, t.decks[actor].value);
      if i == -1 then Stop(Rejected(NotHeld)) else Go(!IsCurrent(t, actor), i)
  }

  /** The table after the held wild card at `i` takes the requested colour. */
  function Recolored(t: Table, actor: ClientId, i: nat, color: int): (r: Table)
    requires actor in t.decks && t.decks[actor].Some? && i < |t.decks[actor].value|
    ensures r.decks.Keys == t.decks.Keys && r.decks[actor].Some? && |r.decks[actor].value| == |t.decks[actor].value|
    ensures forall id :: id in t.decks && id != actor ==> r.decks[id] == t.decks[id]
    ensures r == t.(decks := r.decks)
  {
    var hand := t.decks[actor].value;
    t.(decks := t.decks[actor := Some(hand[i := Colored(hand[i], color)])])
  }

  /**
   * Whether `hideAndEmitDeckSwap` throws: a recipient other than the
   * actor reads the length of the actor's new hand, which is `undefined`
   * when the target had none.
   */
  predicate SwapBroadcastThrows(t: Table, actor: ClientId)
    ensures actor in t.decks && t.decks[actor].Some? ==> !SwapBroadcastThrows(t, actor)
    ensures (forall k :: 0 <= k < |t.clients| ==> t.clients[k].id == actor) ==> !SwapBroadcastThrows(t, actor)
  {
    Lookup(t.decks, actor).None? && exists k :: 0 <= k < |t.clients| && t.clients[k].id != actor
  }

  /** The part of `play card` after the checks (and the jump-in catch-up). */
  function Finish(t: Table, actor: ClientId, req: PlayRequest, i: nat, fuel: nat): (r: Step)
    requires actor in t.decks && t.decks[actor].Some? && i < |t.decks[actor].value|
    requires t.nextPlayerIdx.Some?
    ensures r.table.clients == t.clients && r.table.deck == t.deck
    ensures r.table.playedCards == t.playedCards + [t.decks[actor].value[i]]
    ensures r.outcome.Aborted? || r.outcome.Done?
  {
    var hand := t.decks[actor].value;
    var card := hand[i];
    var t1 := t.(decks := t.decks[actor := Some(RemoveAt(hand, i))], playedCards := t.playedCards + [card]);
    var t2 :=
      if card.face == Turnaround then t1.(nextPlayerIdx := Some(-t1.nextPlayerIdx.value))
      else t1.(currentCardPullCnt := t1.currentCardPullCnt + PullAdded(card.face));
    if card.face == Deny then
      var deny := Advance(t2.clients, t2.decks, t2.nextPlayerIdx, 1, fuel);
      if deny.turn != Landed then Step(t2.(nextPlayerIdx := deny.next), Aborted)
      else Conclude(t2.(nextPlayerIdx := deny.next), actor, req, card.face, fuel)
    else Conclude(t2, actor, req, card.face, fuel)
  }

  /** The end of `play card`: the face-0 swap and its broadcast, then the final advance. */
  function Conclude(t: Table, actor: ClientId, req: PlayRequest, face: int, fuel: nat): (r: Step)
    ensures r.table == t.(decks := r.table.decks, nextPlayerIdx := r.table.nextPlayerIdx)
    ensures face != 0 ==> r.table.decks == t.decks && r.outcome.Done?
  {
    var t1 := if face == 0 then t.(decks := SwapHands(t.decks, actor, req.cid)) else t;
    if face == 0 && SwapBroadcastThrows(t1, actor) then Step(t1, Aborted)
    else
      var last := Advance(t1.clients, t1.decks, t1.nextPlayerIdx, 1, fuel);
      Step(t1.(nextPlayerIdx := last.next), Done(last.turn))
  }

  /** The `play card` handler run by `actor` with the payload `req`. */
  function PlayStep(t: Table, actor: ClientId, req: PlayRequest, fuel: nat): (r: Step)
    ensures r.table.clients == t.clients && r.table.deck == t.deck
    ensures r.outcome.Rejected? || r.outcome.Faulted? ==> r.table.decks.Keys == t.decks.Keys
  {
    match Admit(t, actor, req.card)
    case Stop(o) => Step(t, o)
    case Go(async, i) =>
      var t1 := Recolored(t, actor, i, req.card.color);
      if !async then Finish(t1, actor, req, i, fuel)
      else
        var p := IndexOfId(t.clients, actor);
        if p == -1 then Step(t1, Rejected(NotSeated))
        else
          var c := CatchUp(t1.clients, t1.decks, t.nextPlayerIdx.value, p, fuel);
          if c.turn != Landed then Step(t1.(nextPlayerIdx := c.next), Aborted)
          else Finish(t1.(nextPlayerIdx := Some(p)), actor, req, i, fuel)
  }

  // ---------------------------------------------------------------------
  // draw card
  // ---------------------------------------------------------------------

  /** `Math.max(1, currentCardPullCnt)`: the number of cards a draw takes. */
  function PullCount(cnt: nat): (k: nat)
    ensures k >= 1 && k >= cnt && (k == cnt || k == 1)
  {
    if cnt > 1 then cnt else 1
  }

  /**
   * A draw that gets past its checks finds the cards it takes on the pile.
   * Refused draws never read the pile, so they need nothing of it.
   */
  predicate PileSuffices(t: Table, actor: ClientId)
  {
    TurnReadable(t) && IsCurrent(t, actor) && actor in t.decks ==> |t.deck| >= PullCount(t.currentCardPullCnt)
  }

  /**
   * The `draw card` handler: after the turn and hand checks, take
   * `PullCount` cards from the front of the pile into the caller's hand,
   * clear the pull count and advance. Pushing onto an `undefined` hand
   * throws after the first card has left the pile.
   */
  function DrawStep(t: Table, actor: ClientId, fuel: nat): (r: Step)
    requires PileSuffices(t, actor)
    ensures r.table.clients == t.clients && r.table.playedCards == t.playedCards
    ensures |r.table.deck| <= |t.deck| && r.table.deck == t.deck[|t.deck| - |r.table.deck|..]
    ensures r.outcome.Done? ==> |t.deck| - |r.table.deck| == PullCount(t.currentCardPullCnt)
  {
    if !TurnReadable(t) then Step(t, Faulted)
    else if !IsCurrent(t, actor) then Step(t, Rejected(NotYourTurn))
    else if actor !in t.decks then Step(t, Rejected(NoHand))
    else if t.decks[actor].None? then Step(t.(deck := t.deck[1..]), Aborted)
    else
      var k := PullCount(t.currentCardPullCnt);
      var t1 := t.(deck := t.deck[k..], decks := t.decks[actor := Some(t.decks[actor].value + t.deck[..k])], currentCardPullCnt := 0);
      var a := Advance(t1.clients, t1.decks, t1.nextPlayerIdx, 1, fuel);
      Step(t1.(nextPlayerIdx := a.next), Done(a.turn))
  }

  // ---------------------------------------------------------------------
  // Properties of `play card`
  // ---------------------------------------------------------------------

  /**
   * The checks decide every refusal: a play they stop returns the table
   * untouched, and one they let through ends unseated, aborted or done.
   */
  lemma AdmitDecides(t: Table, actor: ClientId, req: PlayRequest, fuel: nat)
    ensures var a, s := Admit(t, actor, req.card), PlayStep(t, actor, req, fuel);
            a.Stop? ==> s == Step(t, a.outcome)
    ensures var a, o := Admit(t, actor, req.card), PlayStep(t, actor, req, fuel).outcome;
            a.Go? ==> o == Rejected(NotSeated) || o.Aborted? || o.Done?
  {
    var a := Admit(t, actor, req.card);
    if a.Go? {
      var t1 := Recolored(t, actor, a.at, req.card.color);
      var o1 := Finish(t1, actor, req, a.at, fuel).outcome;
      assert o1.Aborted? || o1.Done?;
      var o2 := Finish(t1.(nextPlayerIdx := Some(IndexOfId(t.clients, actor))), actor, req, a.at, fuel).outcome;
      assert o2.Aborted? || o2.Done?;
    }
  }

  /** A play that stops at a check (other than the unseated jump-in) changes nothing. */
  lemma PlayRefusalChangesNothing(t: Table, actor: ClientId, req: PlayRequest, fuel: nat)
    ensures var s := PlayStep(t, actor, req, fuel);
            s.outcome.Faulted? || (s.outcome.Rejected? && s.outcome.reason != NotSeated) ==> s.table == t
  {
    AdmitDecides(t, actor, req, fuel);
  }

  /** Each refusal of a play has the cause its name says. */
  lemma PlayRefusalReasons(t: Table, actor: ClientId, req: PlayRequest, fuel: nat)
    ensures var o := PlayStep(t, actor, req, fuel).outcome;
            (o == Rejected(NotYourTurn) <==>
               TurnReadable(t) && !IsCurrent(t, actor) && Top(t.playedCards).Some? && !CanBeAsyncPlayedOn(req.card, Top(t.playedCards).value))
    ensures var o := PlayStep(t, actor, req, fuel).outcome;
            o == Rejected(NoHand) ==> actor !in t.decks
    ensures var o := PlayStep(t, actor, req, fuel).outcome;
            o == Rejected(NotPlayable) ==>
              TurnReadable(t) && IsCurrent(t, actor) && Top(t.playedCards).Some? && !CanBePlayedOn(req.card, Top(t.playedCards).value)
    ensures var o := PlayStep(t, actor, req, fuel).outcome;
            o == Rejected(PullPending) ==> t.currentCardPullCnt > 0 && req.card.face != Plus2 && req.card.face != Plus4
    ensures var o := PlayStep(t, actor, req, fuel).outcome;
            o == Rejected(NotHeld) ==>
              actor in t.decks && t.decks[actor].Some? &&
              forall k :: 0 <= k < |t.decks[actor].value| ==> !Matches(req.card, t.decks[actor].value[k])
    ensures var o := PlayStep(t, actor, req, fuel).outcome;
            o == Rejected(NotSeated) ==> !HasId(t.clients, actor)
  {
    AdmitDecides(t, actor, req, fuel);
  }

  /**
   * A play that gets past the checks was legal: the index named a seat;
   * in one's own turn the card fits the top card (or the pile was empty
   * and the card is wild); out of turn it is a jump-in on the top card by
   * a seated client; a pending pull admits only PLUS2 and PLUS4; and the
   * caller held a matching card.
   */
  lemma PlayIsLegal(t: Table, actor: ClientId, req: PlayRequest, fuel: nat)
    requires var o := PlayStep(t, actor, req, fuel).outcome; o.Done? || o.Aborted?
    ensures TurnReadable(t)
    ensures IsCurrent(t, actor) ==>
              if Top(t.playedCards).None? then req.card.face == Plus4 || req.card.face == ColorSwitch || req.card.color == Black
              else CanBePlayedOn(req.card, Top(t.playedCards).value)
    ensures !IsCurrent(t, actor) ==> Top(t.playedCards).Some? && CanBeAsyncPlayedOn(req.card, Top(t.playedCards).value) && HasId(t.clients, actor)
    ensures t.currentCardPullCnt > 0 ==> req.card.face == Plus2 || req.card.face == Plus4
    ensures actor in t.decks && t.decks[actor].Some? && PlayableCardIdx(req.card, t.decks[actor].value) >= 0
  {
    AdmitDecides(t, actor, req, fuel);
  }

  /**
   * What the part after the checks does when it runs to the end: the card
   * at `i` leaves the hand for the discard pile, its pull count is added,
   * a 0 swaps the hands, and the turn moves on from the current index as
   * the face says.
   */
  lemma {:induction false} FinishEffect(t: Table, actor: ClientId, req: PlayRequest, i: nat, fuel: nat)
    requires actor in t.decks && t.decks[actor].Some? && i < |t.decks[actor].value|
    requires t.nextPlayerIdx.Some?
    requires Finish(t, actor, req, i, fuel).outcome.Done?
    ensures var s, hand := Finish(t, actor, req, i, fuel), t.decks[actor].value;
            var left := t.decks[actor := Some(RemoveAt(hand, i))];
            s.table.playedCards == t.playedCards + [hand[i]] &&
            s.table.currentCardPullCnt == t.currentCardPullCnt + PullAdded(hand[i].face) &&
            s.table.clients == t.clients && s.table.deck == t.deck &&
            s.table.decks == (if hand[i].face == 0 then SwapHands(left, actor, req.cid) else left) &&
            Advanced(s.table.nextPlayerIdx, s.outcome.turn) ==
              EndOfTurn(t.clients, s.table.decks, t.nextPlayerIdx.value, hand[i].face, fuel)
  {
    var face := t.decks[actor].value[i].face;
    if face == Turnaround {
    } else if face == Deny {
    } else if face == 0 {
    } else {
    }
  }

  /**
   * A play that runs to the end passed every check and ran the part after
   * them from the caller's seat, with the matching card recoloured.
   */
  lemma {:induction false} PlayDoneRunsFinish(t: Table, actor: ClientId, req: PlayRequest, fuel: nat)
    requires DistinctIds(t.clients)
    requires PlayStep(t, actor, req, fuel).outcome.Done?
    ensures Admit(t, actor, req.card).Go? && HasId(t.clients, actor)
    ensures var i, hand := Admit(t, actor, req.card).at, t.decks[actor].value;
            i == PlayableCardIdx(req.card, hand) &&
            var t1 := t.(decks := t.decks[actor := Some(hand[i := req.card])],
                         nextPlayerIdx := Some(IndexOfId(t.clients, actor)));
            PlayStep(t, actor, req, fuel) == Finish(t1, actor, req, i, fuel)
  {
    match Admit(t, actor, req.card)
    case Go(async, i) =>
      PlayedIsRequested(req.card, t.decks[actor].value[i]);
      if !async {
        IndexOfDistinct(t.clients, t.nextPlayerIdx.value);
      }
  }

  /** Removing a card just recoloured leaves the hand that removing the original card leaves. */
  lemma RecolorThenRemove(decks: Hands, actor: ClientId, hand: seq<Card>, i: nat, c: Card)
    requires i < |hand|
    ensures decks[actor := Some(hand[i := c])][actor := Some(RemoveAt(hand[i := c], i))] ==
            decks[actor := Some(RemoveAt(hand, i))]
  {
    assert hand[i := c][..i] == hand[..i] && hand[i := c][i + 1..] == hand[i + 1..];
  }

  /**
   * A completed play moves exactly the requested card onto the discard
   * pile (a wild card in the requested colour), takes the first matching
   * card out of the caller's hand, adds the pull count of its face, and,
   * for a 0, swaps the caller's hand with the target's.
   */
  lemma {:induction false} PlayMovesCard(t: Table, actor: ClientId, req: PlayRequest, fuel: nat)
    requires DistinctIds(t.clients)
    requires PlayStep(t, actor, req, fuel).outcome.Done?
    ensures actor in t.decks && t.decks[actor].Some?
    ensures var s, hand := PlayStep(t, actor, req, fuel).table, t.decks[actor].value;
            var i := PlayableCardIdx(req.card, hand);
            0 <= i < |hand| && Matches(req.card, hand[i]) &&
            s.playedCards == t.playedCards + [req.card] &&
            s.currentCardPullCnt == t.currentCardPullCnt + PullAdded(req.card.face) &&
            s.clients == t.clients && s.deck == t.deck &&
            var left := t.decks[actor := Some(RemoveAt(hand, i))];
            s.decks == (if req.card.face == 0 then SwapHands(left, actor, req.cid) else left)
  {
    PlayDoneRunsFinish(t, actor, req, fuel);
    var hand := t.decks[actor].value;
    var i := PlayableCardIdx(req.card, hand);
    var hand1 := hand[i := req.card];
    var t1 := t.(decks := t.decks[actor := Some(hand1)], nextPlayerIdx := Some(IndexOfId(t.clients, actor)));
    FinishEffect(t1, actor, req, i, fuel);
    RecolorThenRemove(t.decks, actor, hand, i, req.card);
  }

  /**
   * After a completed play the turn moves on from the caller's seat as
   * the played face says; for a jump-in the catch-up has first brought
   * the index to that seat.
   */
  lemma {:induction false} PlayPassesTurn(t: Table, actor: ClientId, req: PlayRequest, fuel: nat)
    requires DistinctIds(t.clients)
    requires PlayStep(t, actor, req, fuel).outcome.Done?
    ensures HasId(t.clients, actor)
    ensures var s := PlayStep(t, actor, req, fuel);
            Advanced(s.table.nextPlayerIdx, s.outcome.turn) ==
            EndOfTurn(t.clients, s.table.decks, IndexOfId(t.clients, actor), req.card.face, fuel)
  {
    PlayDoneRunsFinish(t, actor, req, fuel);
    var hand := t.decks[actor].value;
    var i := PlayableCardIdx(req.card, hand);
    var t1 := t.(decks := t.decks[actor := Some(hand[i := req.card])], nextPlayerIdx := Some(IndexOfId(t.clients, actor)));
    FinishEffect(t1, actor, req, i, fuel);
  }

  /**
   * An unseated client's jump-in is refused only after the held wild card
   * was recoloured: the caller's hand then holds the requested card where
   * the matching card was, and nothing else changed.
   */
  lemma {:induction false} UnseatedJumpInRecolors(t: Table, actor: ClientId, req: PlayRequest, fuel: nat)
    requires PlayStep(t, actor, req, fuel).outcome == Rejected(NotSeated)
    ensures actor in t.decks && t.decks[actor].Some?
    ensures var hand := t.decks[actor].value;
            var i := PlayableCardIdx(req.card, hand);
            0 <= i < |hand| &&
            PlayStep(t, actor, req, fuel).table == t.(decks := t.decks[actor := Some(hand[i := req.card])])
  {
    var hand := t.decks[actor].value;
    PlayedIsRequested(req.card, hand[PlayableCardIdx(req.card, hand)]);
  }

  // ---------------------------------------------------------------------
  // Properties of `draw card`
  // ---------------------------------------------------------------------

  /** A refused draw changes nothing, and each refusal has the cause its name says. */
  lemma DrawRefusals(t: Table, actor: ClientId, fuel: nat)
    requires PileSuffices(t, actor)
    ensures var s := DrawStep(t, actor, fuel);
            s.outcome.Faulted? || s.outcome.Rejected? ==> s.table == t
    ensures var o := DrawStep(t, actor, fuel).outcome;
            o.Faulted? <==> !TurnReadable(t)
    ensures var o := DrawStep(t, actor, fuel).outcome;
            o == Rejected(NotYourTurn) <==> TurnReadable(t) && !IsCurrent(t, actor)
    ensures var o := DrawStep(t, actor, fuel).outcome;
            o == Rejected(NoHand) <==> TurnReadable(t) && IsCurrent(t, actor) && actor !in t.decks
  {
  }

  /**
   * A completed draw moves the front `max(1, pull count)` cards of the
   * pile to the end of the caller's hand, in order, losing and creating
   * no card and leaving every other hand as it was; it clears the pull
   * count and advances from the caller's seat.
   */
  lemma {:induction false} DrawMovesCards(t: Table, actor: ClientId, fuel: nat)
    requires PileSuffices(t, actor)
    requires DrawStep(t, actor, fuel).outcome.Done?
    ensures actor in t.decks && t.decks[actor].Some?
    ensures var s, k := DrawStep(t, actor, fuel), PullCount(t.currentCardPullCnt);
            var hand := t.decks[actor].value;
            s.table.decks == t.decks[actor := Some(hand + t.deck[..k])] &&
            var hand' := s.table.decks[actor].value;
            hand' == hand + t.deck[..k] && s.table.deck == t.deck[k..] &&
            multiset(s.table.deck) + multiset(hand') == multiset(t.deck) + multiset(hand) &&
            s.table.currentCardPullCnt == 0 && s.table.playedCards == t.playedCards &&
            Advanced(s.table.nextPlayerIdx, s.outcome.turn) ==
              Advance(t.clients, s.table.decks, t.nextPlayerIdx, 1, fuel)
  {
    var k := PullCount(t.currentCardPullCnt);
    assert t.deck == t.deck[..k] + t.deck[k..];
  }

  /** Drawing with a pending pull count takes exactly that many cards; otherwise one. */
  lemma DrawTakesPullCount(t: Table, actor: ClientId, fuel: nat)
    requires PileSuffices(t, actor)
    requires DrawStep(t, actor, fuel).outcome.Done?
    ensures t.currentCardPullCnt > 0 ==> |DrawStep(t, actor, fuel).table.deck| == |t.deck| - t.currentCardPullCnt
    ensures t.currentCardPullCnt == 0 ==> |DrawStep(t, actor, fuel).table.deck| == |t.deck| - 1
  {
  }
}
