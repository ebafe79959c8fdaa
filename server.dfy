/**
 * The server's mutable state (app.js: the `clients` table and the single
 * `gameState` object) and the operations that update it in place: table
 * lookups and updates, the pile operations, turn advancement, the
 * restart with its deal, and the bodies of the `play card` and
 * `draw card` handlers. Socket plumbing, broadcasting and logging are
 * not modelled; a handler's socket id is the `actor` parameter.
 */
module Server {
  import opened Wrappers
  import opened Types
  import opened Deck
  import opened Clients
  import opened Turns
  import opened Play
  import opened Deal
  import opened Handlers

  /** How `addCardToClient` ends. */
  datatype Push = Pushed | NoSuchHand | PushThrew

  /**
   * After `i` full rounds and `j` more cards of a deal from `d`, seats
   * before `j` hold `i + 1` cards, the rest `i`.
   */
  ghost predicate HoldsDealt(clients: seq<Client>, decks: Hands, d: seq<Card>, i: nat, j: nat)
    requires Rounds(i, |clients|) <= |d|
    requires j > 0 ==> Rounds(i + 1, |clients|) <= |d|
  {
    forall s :: 0 <= s < |clients| ==>
      clients[s].id in decks && decks[clients[s].id] == Some(Dealt(d, |clients|, s, if s < j then i + 1 else i))
  }

  /** Giving seat `j` the next card of the deal moves the deal on by one card. */
  lemma DealOneMore(clients: seq<Client>, decks: Hands, d: seq<Card>, i: nat, j: nat)
    requires DistinctIds(clients) && j < |clients| && Rounds(i + 1, |clients|) <= |d|
    requires HoldsDealt(clients, decks, d, i, j)
    ensures Rounds(i, |clients|) + j < |d|
    ensures var id := clients[j].id;
            HoldsDealt(clients, decks[id := Some(decks[id].value + [d[Rounds(i, |clients|) + j]])], d, i, j + 1)
  {
    var n, id := |clients|, clients[j].id;
    var after := decks[id := Some(decks[id].value + [d[Rounds(i, n) + j]])];
    assert Dealt(d, n, j, i + 1) == Dealt(d, n, j, i) + [d[Rounds(i, n) + j]];
    forall s | 0 <= s < n
      ensures clients[s].id in after && after[clients[s].id] == Some(Dealt(d, n, s, if s <= j then i + 1 else i))
    {
      if s != j {
        assert clients[s].id != id;
      }
    }
  }

  class GameServer {
    var clients: seq<Client>
    /** The draw pile; its front is `deck[0]`. */
    var deck: seq<Card>
    /** The discard pile; its top is the last element. */
    var playedCards: seq<Card>
    var decks: Hands
    var nextPlayerIdx: Option<int>
    var turnDirection: int
    var currentCardPullCnt: nat

    /** Socket ids are unique and nothing ever writes `turnDirection`. */
    ghost predicate Valid()
      reads this`clients, this`turnDirection
    {
      DistinctIds(clients) && turnDirection == 1
    }

    /** The fields the handlers read and write, as one value. */
    function State(): Table
      reads this
    {
      Table(clients, deck, playedCards, decks, nextPlayerIdx, currentCardPullCnt)
    }

    /** `blankGameState`, with no client connected. */
    constructor ()
      ensures Valid()
      ensures clients == [] && deck == [] && playedCards == [] && decks == map[]
      ensures nextPlayerIdx == None && turnDirection == 1 && currentCardPullCnt == 0
    {
      clients := [];
      deck := [];
      playedCards := [];
      decks := map[];
      nextPlayerIdx := None;
      turnDirection := 1;
      currentCardPullCnt := 0;
    }

    /** A new socket joins the table under the placeholder name "???". */
    method Connect(id: ClientId)
      requires Valid() && !HasId(clients, id)
      modifies this`clients
      ensures Valid()
      ensures clients == old(clients) + [Client(id, "???", true)]
    {
      clients := clients + [Client(id, "???", true)];
    }

    // -------------------------------------------------------------------
    // The client table
    // -------------------------------------------------------------------

    /** `getIdxOfClient`. */
    method GetIdxOfClient(cid: ClientId) returns (idx: int)
      ensures idx == IndexOfId(clients, cid)
    {
      var clientIdx := 0;
      while clientIdx < |clients|
        invariant 0 <= clientIdx <= |clients|
        invariant forall i :: 0 <= i < clientIdx ==> clients[i].id != cid
      {
        if clients[clientIdx].id == cid {
          return clientIdx;
        }
        clientIdx := clientIdx + 1;
      }
      return -1;
    }

    /** `getNameOfClient`: the name, or "???" for an unknown id. */
    method GetNameOfClient(cid: ClientId) returns (name: string)
      ensures HasId(clients, cid) ==> name == clients[IndexOfId(clients, cid)].name
      ensures !HasId(clients, cid) ==> name == "???"
    {
      var clientIdx := 0;
      while clientIdx < |clients|
        invariant 0 <= clientIdx <= |clients|
        invariant forall i :: 0 <= i < clientIdx ==> clients[i].id != cid
      {
        if clients[clientIdx].id == cid {
          return clients[clientIdx].name;
        }
        clientIdx := clientIdx + 1;
      }
      return "???";
    }

    /** `getClientWithId`: the record, or `null`. */
    method GetClientWithId(id: ClientId) returns (client: Option<Client>)
      ensures HasId(clients, id) ==> client == Some(clients[IndexOfId(clients, id)])
      ensures !HasId(clients, id) ==> client == None
    {
      var i := 0;
      while i < |clients|
        invariant 0 <= i <= |clients|
        invariant forall k :: 0 <= k < i ==> clients[k].id != id
      {
        if clients[i].id == id {
          return Some(clients[i]);
        }
        i := i + 1;
      }
      return None;
    }

    /** `renameClient`: renames the first row with the id; false when there is none. */
    method RenameClient(id: ClientId, name: string) returns (found: bool)
      requires Valid()
      modifies this`clients
      ensures Valid()
      ensures found == HasId(old(clients), id)
      ensures found ==> var k := IndexOfId(old(clients), id);
                clients == old(clients)[k := old(clients)[k].(name := name)]
      ensures !found ==> clients == old(clients)
    {
      var i := 0;
      while i < |clients|
        invariant 0 <= i <= |clients| && clients == old(clients)
        invariant forall k :: 0 <= k < i ==> clients[k].id != id
      {
        if clients[i].id == id {
          clients := clients[i := clients[i].(name := name)];
          return true;
        }
        i := i + 1;
      }
      return false;
    }

    /**
     * `disconnectClientWithId`: marks the first row with the id as
     * disconnected, removes it and returns it. For an unknown id the
     * `splice` at `clients.length` removes nothing and `null` is returned.
     */
    method DisconnectClientWithId(id: ClientId) returns (client: Option<Client>)
      requires Valid()
      modifies this`clients
      ensures Valid()
      ensures var k := IndexOfId(old(clients), id);
              if k == -1 then client == None && clients == old(clients)
              else client == Some(old(clients)[k].(connected := false)) &&
                   clients == old(clients)[..k] + old(clients)[k + 1..]
    {
      var i := 0;
      client := None;
      while i < |clients|
        invariant 0 <= i <= |clients| && clients == old(clients)
        invariant forall k :: 0 <= k < i ==> clients[k].id != id
      {
        if clients[i].id == id {
          client := Some(clients[i].(connected := false));
          break;
        }
        i := i + 1;
      }
      if i < |clients| {
        clients := clients[..i] + clients[i + 1..];
      }
    }

    // -------------------------------------------------------------------
    // Piles and hands
    // -------------------------------------------------------------------

    /** `popNextFromDeck`: the front card, or `undefined` (and no change) on an empty pile. */
    method PopNextFromDeck() returns (card: Option<Card>)
      modifies this`deck
      ensures old(deck) == [] ==> card == None && deck == []
      ensures old(deck) != [] ==> card == Some(old(deck)[0]) && deck == old(deck)[1..]
    {
      if deck == [] {
        return None;
      }
      card := Some(deck[0]);
      deck := deck[1..];
    }

    /**
     * `popRandomFromDeck`, with the random position as the input `pick`
     * (`Math.floor(Math.random() * deck.length)`, so 0 on an empty pile).
     */
    method PopRandomFromDeck(pick: nat) returns (card: Option<Card>)
      requires pick < |deck| || pick == 0
      modifies this`deck
      ensures old(deck) == [] ==> card == None && deck == []
      ensures old(deck) != [] ==>
                card == Some(old(deck)[pick]) && deck == RemoveAt(old(deck), pick) &&
                multiset(old(deck)) == multiset(deck) + multiset{card.value}
    {
      if deck == [] {
        return None;
      }
      card := Some(deck[pick]);
      deck := deck[..pick] + deck[pick + 1..];
    }

    /**
     * `addCardToClient`: false for an id without a key; pushing onto an
     * `undefined` hand throws.
     */
    method AddCardToClient(card: Card, cid: ClientId) returns (r: Push)
      modifies this`decks
      ensures r == NoSuchHand <==> cid !in old(decks)
      ensures r == PushThrew <==> cid in old(decks) && old(decks)[cid].None?
      ensures r == Pushed ==> decks == old(decks)[cid := Some(old(decks)[cid].value + [card])]
      ensures r != Pushed ==> decks == old(decks)
    {
      if cid !in decks {
        return NoSuchHand;
      }
      if decks[cid].None? {
        return PushThrew;
      }
      decks := decks[cid := Some(decks[cid].value + [card])];
      return Pushed;
    }

    /**
     * `fillDeck`: empty the pile, push every card of the set in order,
     * then `shuffle` the pile in place with the random `picks`.
     */
    method FillDeck(picks: seq<nat>)
      requires ValidPicks(picks, CardCnt)
      modifies this`deck
      ensures deck == Shuffled(FullDeck(), picks, 0)
      ensures |deck| == CardCnt && forall card :: multiset(deck)[card] == Copies(card)
    {
      ShuffledFullDeck(picks);
      FullDeckComposition(Card(Red, 0));
      PushAll();
      ShufflePile(picks);
    }

    /** `shuffle(gameState.deck)`: the pile is shuffled in place as an array. */
    method ShufflePile(picks: seq<nat>)
      requires ValidPicks(picks, |deck|)
      modifies this`deck
      ensures deck == Shuffled(old(deck), picks, 0)
    {
      var pile := deck;
      var a := new Card[|pile|](j requires 0 <= j < |pile| => pile[j]);
      assert a[..] == pile;
      Shuffle(a, picks);
      deck := a[..];
    }

    /**
     * `fillDeck`'s loops: for each colour a 0 and twice the run 1..9,
     * PLUS2, DENY, TURNAROUND; then four black COLORSWITCH/PLUS4 pairs.
     */
    method PushAll()
      modifies this`deck
      ensures deck == FullDeck()
    {
      deck := [];
      ghost var colors := [Red, Green, Blue, Yellow];
      var color := 0;
      while color < 4
        invariant 0 <= color <= 4 && deck == ColorBlocks(colors[..color])
      {
        assert colors[..color + 1][..color] == colors[..color];
        PushColor(color);
        color := color + 1;
      }
      assert colors[..4] == colors;
      ghost var blocks := deck;
      var i := 0;
      while i < 4
        invariant 0 <= i <= 4 && deck == blocks + Wilds(i)
      {
        deck := deck + [Card(Black, ColorSwitch)];
        deck := deck + [Card(Black, Plus4)];
        i := i + 1;
      }
    }

    /** One round of `fillDeck`'s colour loop: a 0, then two passes of the inner loop. */
    method PushColor(color: int)
      modifies this`deck
      ensures deck == old(deck) + ColorBlock(color)
    {
      deck := deck + [Card(color, 0)];
      var i := 0;
      while i < 2
        invariant 0 <= i <= 2 && deck == old(deck) + [Card(color, 0)] + Passes(color, i)
      {
        ghost var start := deck;
        var number := 1;
        while number <= 9
          invariant 1 <= number <= 10 && deck == start + Numbers(color, number - 1)
        {
          assert Numbers(color, number) == Numbers(color, number - 1) + [Card(color, number)];
          deck := deck + [Card(color, number)];
          number := number + 1;
        }
        deck := deck + [Card(color, Plus2)];
        deck := deck + [Card(color, Deny)];
        deck := deck + [Card(color, Turnaround)];
        assert deck == start + ColorPass(color);
        i := i + 1;
      }
    }

    // -------------------------------------------------------------------
    // Turns
    // -------------------------------------------------------------------

    /**
     * `advanceTurn`: step the index, then skip clients with empty hands;
     * `depth` counts the nested calls the source would make.
     */
    method AdvanceTurn(fuel: nat) returns (turn: Turn)
      modifies this`nextPlayerIdx
      ensures Advanced(nextPlayerIdx, turn) == Advance(clients, decks, old(nextPlayerIdx), turnDirection, fuel)
    {
      var depth := 0;
      while depth < fuel
        invariant 0 <= depth <= fuel
        invariant Advance(clients, decks, nextPlayerIdx, turnDirection, fuel - depth) ==
                  Advance(clients, decks, old(nextPlayerIdx), turnDirection, fuel)
      {
        if nextPlayerIdx.None? && |clients| > 0 {
          nextPlayerIdx := Some(0);
        } else {
          var v := (if nextPlayerIdx.Some? then nextPlayerIdx.value else 0) + turnDirection;
          if v >= |clients| {
            v := 0;
          }
          if v < 0 {
            v := |clients|;
          }
          nextPlayerIdx := Some(v);
        }
        var i := nextPlayerIdx.value;
        if !(0 <= i < |clients|) || clients[i].id !in decks || decks[clients[i].id].None? {
          return Threw;
        }
        if |decks[clients[i].id].value| != 0 {
          return Landed;
        }
        depth := depth + 1;
      }
      return Unbounded;
    }

    // -------------------------------------------------------------------
    // Restart
    // -------------------------------------------------------------------

    /** Every client has a key, and no other key changed. */
    ghost predicate HandsReset(before: Hands)
      reads this`clients, this`decks
    {
      (forall id :: id in decks <==> id in before || HasId(clients, id)) &&
      (forall id :: id in before && !HasId(clients, id) ==> decks[id] == before[id])
    }

    /** `clients.forEach(client => gameState.decks[client.id] = [])`. */
    method ClearHands()
      requires Valid()
      modifies this`decks
      ensures HandsReset(old(decks))
      ensures forall s :: 0 <= s < |clients| ==> clients[s].id in decks && decks[clients[s].id] == Some([])
    {
      var k := 0;
      while k < |clients|
        invariant 0 <= k <= |clients|
        invariant forall s :: 0 <= s < k ==> clients[s].id in decks && decks[clients[s].id] == Some([])
        invariant forall id :: id in decks ==> id in old(decks) || HasId(clients, id)
        invariant forall id :: id in old(decks) ==> id in decks
        invariant forall id :: id in old(decks) && !HasId(clients, id) ==> decks[id] == old(decks)[id]
      {
        decks := decks[clients[k].id := Some([])];
        k := k + 1;
      }
    }

    /**
     * `restartGame`'s dealing loop: `cardCnt` rounds, in each of which
     * every client in table order takes the front card of the pile.
     */
    method Deal()
      requires Valid() && |clients| > 0
      requires Rounds(HandSize, |clients|) <= |deck|
      requires forall s :: 0 <= s < |clients| ==> clients[s].id in decks && decks[clients[s].id] == Some([])
      modifies this`deck, this`decks
      ensures deck == old(deck)[Rounds(HandSize, |clients|)..]
      ensures forall s :: 0 <= s < |clients| ==>
                clients[s].id in decks && decks[clients[s].id] == Some(Dealt(old(deck), |clients|, s, HandSize))
      ensures forall id :: id in decks <==> id in old(decks)
      ensures forall id :: id in old(decks) && !HasId(clients, id) ==> decks[id] == old(decks)[id]
    {
      ghost var d := deck;
      var n := |clients|;
      var i := 0;
      while i < HandSize
        invariant 0 <= i <= HandSize
        invariant Rounds(i, n) <= |d| && deck == d[Rounds(i, n)..]
        invariant HoldsDealt(clients, decks, d, i, 0)
        invariant forall id :: id in decks <==> id in old(decks)
        invariant forall id :: id in old(decks) && !HasId(clients, id) ==> decks[id] == old(decks)[id]
      {
        if i + 1 < HandSize {
          RoundsMonotone(i + 1, HandSize, n);
        }
        DealRound(d, i);
        i := i + 1;
      }
    }

    /** One round of the dealing loop: seat after seat takes the front card. */
    method DealRound(ghost d: seq<Card>, ghost i: nat)
      requires Valid() && |clients| > 0 && Rounds(i + 1, |clients|) <= |d|
      requires deck == d[Rounds(i, |clients|)..]
      requires HoldsDealt(clients, decks, d, i, 0)
      modifies this`deck, this`decks
      ensures deck == d[Rounds(i + 1, |clients|)..]
      ensures HoldsDealt(clients, decks, d, i + 1, 0)
      ensures decks.Keys == old(decks).Keys
      ensures forall id :: id in old(decks) && !HasId(clients, id) ==> decks[id] == old(decks)[id]
    {
      var j := 0;
      while j < |clients|
        invariant 0 <= j <= |clients|
        invariant deck == d[Rounds(i, |clients|) + j..]
        invariant HoldsDealt(clients, decks, d, i, j)
        invariant decks.Keys == old(decks).Keys
        invariant forall id :: id in old(decks) && !HasId(clients, id) ==> decks[id] == old(decks)[id]
      {
        DealCard(d, i, j);
        j := j + 1;
      }
    }

    /** The body of the round: `clients[j]` takes the front card of the pile. */
    method DealCard(ghost d: seq<Card>, ghost i: nat, j: nat)
      requires Valid() && j < |clients| && Rounds(i + 1, |clients|) <= |d|
      requires deck == d[Rounds(i, |clients|) + j..]
      requires HoldsDealt(clients, decks, d, i, j)
      modifies this`deck, this`decks
      ensures deck == d[Rounds(i, |clients|) + j + 1..]
      ensures HoldsDealt(clients, decks, d, i, j + 1)
      ensures decks.Keys == old(decks).Keys
      ensures forall id :: id in old(decks) && !HasId(clients, id) ==> decks[id] == old(decks)[id]
    {
      DealOneMore(clients, decks, d, i, j);
      var card := PopNextFromDeck();
      var id := clients[j].id;
      decks := decks[id := Some(decks[id].value + [card.value])];
    }

    /**
     * `restartGame` (its state changes): nothing without clients;
     * otherwise every client's hand is emptied, the pile is refilled and
     * shuffled, seven cards are dealt to each client, the next card is
     * put on the discard pile without any starter check, and the random
     * `seat` moves first. The discard pile, the direction and the pull
     * count are not reset, because `blankGameState` is the very object
     * being reused; hands of departed clients stay.
     */
    method RestartGame(picks: seq<nat>, seat: nat)
      requires Valid()
      requires ValidPicks(picks, CardCnt)
      requires clients == [] || seat < |clients|
      requires Rounds(HandSize, |clients|) < CardCnt
      modifies this`deck, this`decks, this`playedCards, this`nextPlayerIdx
      ensures Valid()
      ensures old(clients) != [] ==> |deck| == CardCnt - Rounds(HandSize, |clients|) - 1
      ensures old(clients) == [] ==>
                deck == old(deck) && decks == old(decks) && playedCards == old(playedCards) &&
                nextPlayerIdx == old(nextPlayerIdx)
      ensures clients != [] ==>
                var d, n := Shuffled(FullDeck(), picks, 0), |clients|;
                |d| == CardCnt && deck == d[Rounds(HandSize, n) + 1..] &&
                playedCards == old(playedCards) + [d[Rounds(HandSize, n)]] &&
                nextPlayerIdx == Some(seat) &&
                (forall s :: 0 <= s < n ==> clients[s].id in decks && decks[clients[s].id] == Some(Dealt(d, n, s, HandSize))) &&
                HandsReset(old(decks))
    {
      if |clients| < 1 {
        return;
      }
      ClearHands();
      FillDeck(picks);
      DealAndStart(seat);
    }

    /**
     * The rest of `restartGame` once the pile is full: the deal, the
     * first discard (taken from the pile as it comes) and the first seat.
     */
    method DealAndStart(seat: nat)
      requires Valid() && seat < |clients|
      requires Rounds(HandSize, |clients|) < |deck|
      requires forall s :: 0 <= s < |clients| ==> clients[s].id in decks && decks[clients[s].id] == Some([])
      modifies this`deck, this`decks, this`playedCards, this`nextPlayerIdx
      ensures deck == old(deck)[Rounds(HandSize, |clients|) + 1..]
      ensures playedCards == old(playedCards) + [old(deck)[Rounds(HandSize, |clients|)]]
      ensures nextPlayerIdx == Some(seat)
      ensures forall s :: 0 <= s < |clients| ==>
                clients[s].id in decks && decks[clients[s].id] == Some(Dealt(old(deck), |clients|, s, HandSize))
      ensures decks.Keys == old(decks).Keys
      ensures forall id :: id in old(decks) && !HasId(clients, id) ==> decks[id] == old(decks)[id]
    {
      Deal();
      var starter := PopNextFromDeck();
      playedCards := playedCards + [starter.value];
      nextPlayerIdx := Some(seat);
    }
  
    // -------------------------------------------------------------------
    // The `play card` and `draw card` handlers
    // -------------------------------------------------------------------

    /**
     * The checks at the head of `play card`, in source order, reading
     * the state only: where they stop the handler, or where the matching
     * card lies and whether the play is a jump-in.
     */
    method CheckPlay(actor: ClientId, card: Card) returns (a: Admission)
      ensures a == Admit(State(), actor, card)
    {
      var lastPlayedCard := Top(playedCards);
      var asyncPlay := false;
      if nextPlayerIdx.None? || !(0 <= nextPlayerIdx.value < |clients|) {
        return Stop(Faulted);
      }
      if clients[nextPlayerIdx.value].id != actor {
        if lastPlayedCard.None? {
          return Stop(Faulted);
        }
        if CanBeAsyncPlayedOn(card, lastPlayedCard.value) {
          asyncPlay := true;
        } else {
          return Stop(Rejected(NotYourTurn));
        }
      }
      if actor !in decks {
        return Stop(Rejected(NoHand));
      }
      if !asyncPlay {
        if lastPlayedCard.None? && !(card.face == Plus4 || card.face == ColorSwitch || card.color == Black) {
          return Stop(Faulted);
        }
        if lastPlayedCard.Some? && !CanBePlayedOn(card, lastPlayedCard.value) {
          return Stop(Rejected(NotPlayable));
        }
      }
      if currentCardPullCnt > 0 && card.face != Plus2 && card.face != Plus4 {
        return Stop(Rejected(PullPending));
      }
      if decks[actor].None? {
        return Stop(Faulted);
      }
      var cardIdx := PlayableCardIdx(card, decks[actor].value);
      if cardIdx == -1 {
        return Stop(Rejected(NotHeld));
      }
      return Go(asyncPlay, cardIdx);
    }

    /**
     * `while (nextPlayerIdx !== playerIdx) advanceTurn()`: the catch-up
     * before a jump-in from seat `p`, stopping early when a call throws or
     * runs out of stack.
     */
    method CatchUpTo(p: int, fuel: nat) returns (turn: Turn)
      requires Valid() && nextPlayerIdx.Some? && 0 <= nextPlayerIdx.value < |clients| && 0 <= p < |clients|
      requires HandAt(clients, decks, p).Some? && HandAt(clients, decks, p).value != []
      modifies this`nextPlayerIdx
      ensures Advanced(nextPlayerIdx, turn) == CatchUp(clients, decks, old(nextPlayerIdx).value, p, fuel)
    {
      turn := Landed;
      while nextPlayerIdx != Some(p)
        invariant nextPlayerIdx.Some? && 0 <= nextPlayerIdx.value < |clients| && turn == Landed
        invariant CatchUp(clients, decks, nextPlayerIdx.value, p, fuel) ==
                  CatchUp(clients, decks, old(nextPlayerIdx).value, p, fuel)
        decreases Dist(|clients|, nextPlayerIdx.value, p)
      {
        ghost var i := nextPlayerIdx.value;
        turn := AdvanceTurn(fuel);
        if turn != Landed {
          return;
        }
        LandsCloser(clients, decks, i, p, fuel);
      }
    }

    /**
     * `hideAndEmitDeckSwap` run over the client table: every recipient
     * other than the actor reads the length of the actor's new hand,
     * which throws when that hand is `undefined`.
     */
    method DeckSwapBroadcastThrows(actor: ClientId) returns (throws: bool)
      ensures throws == SwapBroadcastThrows(State(), actor)
    {
      var hand := if actor in decks then decks[actor] else None;
      var k := 0;
      while k < |clients|
        invariant 0 <= k <= |clients|
        invariant hand.None? ==> forall j :: 0 <= j < k ==> clients[j].id == actor
      {
        if clients[k].id != actor && hand.None? {
          return true;
        }
        k := k + 1;
      }
      return false;
    }

    /**
     * The part of `play card` after the checks: splice the card out of the
     * hand onto the discard pile, apply its face, swap hands for a 0, and
     * advance the turn.
     */
    method FinishPlay(actor: ClientId, req: PlayRequest, cardIdx: nat, fuel: nat) returns (outcome: Outcome)
      requires Valid() && actor in decks && decks[actor].Some? && cardIdx < |decks[actor].value|
      requires nextPlayerIdx.Some?
      modifies this`decks, this`playedCards, this`nextPlayerIdx, this`currentCardPullCnt
      ensures Step(State(), outcome) == Finish(old(State()), actor, req, cardIdx, fuel)
    {
      var hand := decks[actor].value;
      var card := hand[cardIdx];
      decks := decks[actor := Some(RemoveAt(hand, cardIdx))];
      playedCards := playedCards + [card];
      if card.face == Turnaround {
        nextPlayerIdx := Some(-nextPlayerIdx.value);
      } else if card.face == Plus2 {
        currentCardPullCnt := currentCardPullCnt + 2;
      } else if card.face == Plus4 {
        currentCardPullCnt := currentCardPullCnt + 4;
      } else if card.face == Deny {
        var turn := AdvanceTurn(fuel);
        if turn != Landed {
          return Aborted;
        }
      }
      outcome := ConcludePlay(actor, req, card.face, fuel);
    }

    /** The end of `play card`: the face-0 swap and its broadcast, then the final `advanceTurn`. */
    method ConcludePlay(actor: ClientId, req: PlayRequest, face: int, fuel: nat) returns (outcome: Outcome)
      requires Valid()
      modifies this`decks, this`nextPlayerIdx
      ensures Step(State(), outcome) == Conclude(old(State()), actor, req, face, fuel)
    {
      if face == 0 {
        var temp := Lookup(decks, actor);
        decks := decks[actor := Lookup(decks, req.cid)];
        decks := decks[req.cid := temp];
        var throws := DeckSwapBroadcastThrows(actor);
        if throws {
          return Aborted;
        }
      }
      var turn := AdvanceTurn(fuel);
      return Done(turn);
    }

    /** The `play card` handler run by `actor` with the payload `req`. */
    method PlayCard(actor: ClientId, req: PlayRequest, fuel: nat) returns (outcome: Outcome)
      requires Valid()
      modifies this`decks, this`playedCards, this`nextPlayerIdx, this`currentCardPullCnt
      ensures Step(State(), outcome) == PlayStep(old(State()), actor, req, fuel)
    {
      var a := CheckPlay(actor, req.card);
      if a.Stop? {
        return a.outcome;
      }
      var hand := decks[actor].value;
      var card := hand[a.at];
      if HasChoosableColor(card) {
        card := card.(color := req.card.color);
      }
      decks := decks[actor := Some(hand[a.at := card])];
      if a.async {
        var playerIdx := GetIdxOfClient(actor);
        if playerIdx == -1 {
          return Rejected(NotSeated);
        }
        var turn := CatchUpTo(playerIdx, fuel);
        if turn != Landed {
          return Aborted;
        }
      }
      outcome := FinishPlay(actor, req, a.at, fuel);
    }

    /**
     * The `draw card` handler: after the turn and hand checks, move
     * `max(1, pull count)` cards one by one from the front of the pile to
     * the caller's hand, clear the pull count and advance the turn.
     */
    method DrawCard(actor: ClientId, fuel: nat) returns (outcome: Outcome)
      requires Valid()
      requires nextPlayerIdx.Some? && 0 <= nextPlayerIdx.value < |clients| &&
               clients[nextPlayerIdx.value].id == actor && actor in decks ==>
                 |deck| >= PullCount(currentCardPullCnt)
      modifies this`deck, this`decks, this`nextPlayerIdx, this`currentCardPullCnt
      ensures Step(State(), outcome) == DrawStep(old(State()), actor, fuel)
    {
      if nextPlayerIdx.None? || !(0 <= nextPlayerIdx.value < |clients|) {
        return Faulted;
      }
      if clients[nextPlayerIdx.value].id != actor {
        return Rejected(NotYourTurn);
      }
      if actor !in decks {
        return Rejected(NoHand);
      }
      var pullCardCnt := if currentCardPullCnt > 1 then currentCardPullCnt else 1;
      var i := 0;
      assert old(decks)[actor].Some? ==> old(decks)[actor].value + old(deck)[..0] == old(decks)[actor].value;
      while i < pullCardCnt
        invariant 0 <= i <= pullCardCnt && deck == old(deck)[i..]
        invariant currentCardPullCnt == old(currentCardPullCnt) && nextPlayerIdx == old(nextPlayerIdx)
        invariant old(decks)[actor].Some? ==> decks == old(decks)[actor := Some(old(decks)[actor].value + old(deck)[..i])]
        invariant old(decks)[actor].None? ==> i == 0 && decks == old(decks)
      {
        var card := PopNextFromDeck();
        var pushed := AddCardToClient(card.value, actor);
        if pushed != Pushed {
          return Aborted;
        }
        assert old(deck)[..i + 1] == old(deck)[..i] + [old(deck)[i]];
        assert old(decks)[actor].value + old(deck)[..i + 1] == old(decks)[actor].value + old(deck)[..i] + [card.value];
        i := i + 1;
      }
      currentCardPullCnt := 0;
      var turn := AdvanceTurn(fuel);
      return Done(turn);
    }
  }
}
