# kukuno rules engine in Dafny

This project models the card-game core of kukuno, a browser UNO clone with a
Node.js server, and proves properties of the model. It has two layers.

The rule layer (`public/types.js`) covers the card, colour, face and
player-state codes and their text renderers. It also holds the rules for
normal play, out-of-turn "jump-in" play, wild cards, starter cards and swap
targets. Modules `Types` and `Wrappers` hold this layer.

The server layer (`app.js`) is one global game state: the draw pile `deck`,
the discard pile `playedCards`, the hands `decks` (keyed by socket id),
`nextPlayerIdx`, `turnDirection` and `currentCardPullCnt`, beside the client
table `clients`. It is modelled as the class `Server.GameServer`, whose
methods update those fields in place. The class covers the table lookups, the
pile operations, the 108-card deck with its in-place Fisher-Yates shuffle,
turn advancement, the restart with its deal, and the bodies of the
`play card` and `draw card` handlers. The handler methods are proved equal
to the pure step functions of module `Handlers`, and the rules of the game
are proved about those functions:

- a refused play or draw changes nothing;
- every refusal has the cause its name says;
- a completed play moves exactly the requested card;
- a completed draw moves the front cards of the pile and loses no card;
- the turn moves on as the played face says.

The rest of the modules are as follows:

- `Deck` holds the deck composition and the shuffle specification.
- `Clients` holds the client table lookups.
- `Turns` holds `advanceTurn` and the jump-in catch-up.
- `Play` holds locating, colouring and removing the played card and the face-0 hand swap.
- `Deal` holds the layout of the restart's deal: which pile position each seat gets in each round.
- `Redaction` holds the per-recipient copies of a card pull and of a hand swap.

Quirks of the code are kept as written:

- TURNAROUND negates `nextPlayerIdx` instead of reversing `turnDirection`, so from seat 2 or higher the next advance leaves the index at `clients.length` and throws (`Turns.TurnaroundSeats`). `turnDirection` is never written, so `Server.GameServer.Valid` pins it to 1.
- The depth guard of `advanceTurn` compares with `decks.length`, which is undefined, so it never fires. Recursion over empty hands ends only by landing, by throwing, or by exhausting the stack. `fuel` bounds the nested calls, and `Turn` records which of the three happened.
- A restart reuses the one `blankGameState` object, so it resets neither `playedCards` nor `currentCardPullCnt`, and hands of departed clients stay.
- The starter card is taken from the front of the pile without `canBeStarterCard`.
- A wild card is recoloured in the hand before the jump-in's seat check, which can still refuse the play (`Handlers.UnseatedJumpInRecolors`).
- JavaScript `null`/`undefined` become `Option`. A TypeError a handler raises before it changes anything is the outcome `Faulted`. One raised after a change is `Aborted`, and the changes made so far stay, unless the final `advanceTurn` raises it: the handler then ends as `Done(Threw)`, or `Done(Unbounded)` for a stack overflow, with all its changes made.
- `canBeStarterCard` accepts any non-black integer face below 10 other than 0. Among the real faces 0..14 that is 1..9, but the redacted card (colour -1, face -1) is accepted too (`Types.StarterRule`).

## Model

| member | source | states |
|---|---|---|
| Types.ColorToString | public/types.js:17-28 | defined exactly for SECRET..BLACK (undefined otherwise); every name is non-empty and has no space |
| Types.FaceToSymbol | public/types.js:44-58 | a number face gives its one decimal digit; "#" exactly for faces that are neither 0..9 nor a known code |
| Types.FaceToString | public/types.js:65-79 | a number face gives its one decimal digit; "#" exactly for unknown faces; every name is non-empty and has no space |
| Types.PlayerStateToString | public/types.js:121-132 | "???" exactly for codes outside PLAYING..OUT |
| Types.CardToString | public/types.js:86-89 | the face name is the last word of the card text, after a space |
| Types.Accumulated | public/types.js:99-100 | the accumulated text of a non-empty deck ends with the delimiter, which is what the cut relies on |
| Types.DeckToString | public/types.js:97-103 | the written rendering always ends with the closing bracket |
| Types.DigitString | public/types.js:67 | `face.toString()` of a digit is one character '0'..'9' |
| Types.Prefix | public/types.js:101 | `substring(0, end)` is a prefix of the string, of length `end` when `end` is in range |
| Types.CardStrings | public/types.js:100 | one card text per card, in deck order |
| Types.HasChoosableColor | public/types.js:165-168 | a card has a choosable colour exactly when its colour renders as "Black" |
| Types.CanBePlayedOn | public/types.js:141-145 | a card sharing the top card's colour or face is always playable |
| Types.CanBeAsyncPlayedOn | public/types.js:153-158 | a jump-in needs the same face, and an identical card may always be jumped in |
| Types.CanBeStarterCard | public/types.js:175-180 | a starter card is never black and never an action or wild face |
| Types.CanBeTargetOfSwap | public/types.js:187-190 | a swap target's state renders as "playing" or "said uno" |
| Types.PlayRule | public/types.js:141-145 | PLUS4 and COLORSWITCH are playable on anything; any other card iff it is black, has the top card's colour or has its face |
| Types.AsyncRule | public/types.js:153-158 | jump-in is never legal on a different face; on the same face iff the card is black or the colours match |
| Types.AsyncImpliesPlayable | public/types.js:141-158 | whatever may be jumped in may be played normally |
| Types.StarterRule | public/types.js:175-180 | the starter test accepts exactly the non-black, non-zero faces below 10; among the faces 0..14 these are 1..9, and the redacted card (-1, -1) also passes |
| Types.SwapTargetRule | public/types.js:187-190 | exactly PLAYING and SAID_UNO can be swap targets; their names are "playing" and "said uno" |
| Types.ColorNamesDistinct | public/types.js:17-28 | distinct known colours have distinct names |
| Types.FaceNamesDistinct | public/types.js:44-79 | distinct known faces have distinct names and distinct symbols |
| Types.FirstSpace | public/types.js:88 | in colour name + " " + face name, the first space follows the colour name |
| Types.SplitAtSpace | public/types.js:88 | a space-free colour name and the face name are recovered from the text |
| Types.CardToStringInjective | public/types.js:86-89 | two cards with known colour and face that render alike are equal |
| Types.AccumulatedIsJoin | public/types.js:99-100 | the `forEach` accumulation is the joined card texts plus one trailing delimiter |
| Types.DeckToStringNonEmpty | public/types.js:97-103 | a non-empty deck renders as "[" + the card texts joined by `delim` + "]" |
| Types.EmptyDeckLosesBracket | public/types.js:97-103 | as written, an empty deck renders as "]" |
| Types.DeckText | public/types.js:97-103 | the intended rendering always starts with "[" and ends with "]" |
| Types.EmptyDeckText | public/types.js:97-103 | the intended rendering of an empty deck is "[]" |
| Types.DeckTextAgrees | public/types.js:97-103 | the intended rendering equals the written one on every non-empty deck |
| Deck.Passes | app.js:162-172 | the passes of the inner loop push 12 cards each |
| Deck.ColorBlock | app.js:156-173 | each colour pushes 25 cards |
| Deck.ColorBlocks | app.js:156-173 | the colour loop pushes 25 cards per colour |
| Deck.Wilds | app.js:175-179 | the wild loop pushes two cards per round |
| Deck.FullDeck | app.js:153-180 | the unshuffled pile has CARD_CNT = 108 cards |
| Deck.Copies | app.js:153-180 | the reference count: at most 4 copies, only of real colours and faces, and a single copy exactly for the coloured 0s |
| Deck.Count | app.js:153-180 | a card is counted at least once exactly when it occurs, and at most as often as the sequence is long; its multiplicity meaning is stated by `Deck.CountIsMultiplicity` |
| Deck.CountConcat | app.js:153-180 | occurrences add up over concatenated pushes |
| Deck.CountIsMultiplicity | app.js:153-180 | counting occurrences gives the multiset multiplicity |
| Deck.CountSingleton | app.js:153-180 | one pushed card counts once for itself and not for any other card |
| Deck.NumbersCount | app.js:164-167 | the number loop pushes each of 1..9 of its colour once |
| Deck.ActionCardsCount | app.js:168-170 | the action pushes of a colour give PLUS2, DENY and TURNAROUND of that colour once each |
| Deck.ColorPassCount | app.js:162-172 | one pass pushes 12 cards: 1..9, PLUS2, DENY, TURNAROUND once each |
| Deck.ColorBlockCount | app.js:156-173 | per colour: one 0 and two each of 1..9, PLUS2, DENY and TURNAROUND |
| Deck.ColorBlocksCount | app.js:156-173 | the colour loop gives every coloured card of the four colours its per-face copies and no others |
| Deck.WildsCount | app.js:175-179 | four black COLORSWITCH and four black PLUS4, nothing else |
| Deck.FullDeckCount | app.js:153-180 | the pile holds every card exactly `Copies` times |
| Deck.FullDeckComposition | app.js:153-180 | the pile has 108 cards with the multiset the rules prescribe |
| Deck.Swap | app.js:43-45 | the three-assignment swap keeps the length |
| Deck.SwapPermutes | app.js:43-45 | the swap keeps the multiset |
| Deck.Shuffled | app.js:31-50 | Fisher-Yates with the given random picks keeps the length |
| Deck.ShuffledIsPermutation | app.js:31-50 | shuffling only reorders: the multiset of cards is kept |
| Deck.ShuffledFullDeck | app.js:153-182 | the filled and shuffled pile has 108 cards with the full-set multiset |
| Deck.Shuffle | app.js:31-50 | the in-place loop leaves the array equal to the specified shuffle and a permutation of its old contents |
| Clients.IndexOfId | app.js:86-93 | -1 iff no client has the id; otherwise the first row with the id |
| Clients.IndexOfDistinct | app.js:86-93 | with unique socket ids, the lookup finds the row holding the id |
| Clients.PublishableClientList | app.js:272-275 | one public entry per client, in table order, with its id and name |
| Clients.PublishableIgnoresConnected | app.js:272-275 | the public list does not depend on the connection flags |
| Turns.Advance | app.js:315-340 | a landed call leaves the index on a seat holding cards; a throw means the index is off the table or the seat has no hand; stack exhaustion leaves the index unchanged when no call was allowed, and otherwise on a seat whose hand is empty |
| Turns.StepIndex | app.js:323-329 | one step of the index always ends on a seat or at exactly `clients.length` |
| Turns.StepForward | app.js:323-329 | with direction 1: null goes to 0; -1..n-1 go to the next seat mod n; indices >= n-1 wrap to 0; below -1 to `clients.length` |
| Turns.DistStep | app.js:326-327 | one step forward brings the index one seat closer to any other seat |
| Turns.StopsBefore | app.js:332-335 | given more fuel than the distance to a seat that does not hold an empty hand, the skip recursion lands (on that seat at the latest) or throws, and never exhausts the stack |
| Turns.AdvanceStops | app.js:315-340 | when some seat holds cards, advancing never exhausts the stack given fuel for a round |
| Turns.AllIdleDiverges | app.js:315-340 | at a non-empty table where every seat holds an empty hand, the recursion from any index >= -1 (or `null`) never ends (the depth guard never fires); an index below -1 steps to `clients.length` and throws instead |
| Turns.LandsCloser | app.js:471 | an advance that lands brings the index strictly closer to a seat that holds cards |
| Turns.CatchUp | app.js:471 | the catch-up loop ends, and when it lands it is on the jump-in seat |
| Turns.EndOfTurn | app.js:480-508 | when the turn's last advance lands, the index is on a seat holding cards |
| Turns.NextSeat | app.js:508 | when everyone holds cards, an ordinary card passes the turn to the next seat |
| Turns.DenySkipsOne | app.js:491-492 | when everyone holds cards, DENY skips exactly one seat |
| Turns.TurnaroundSeats | app.js:482-483 | TURNAROUND from seat 0 or 1 lands on seat 1 or 0; from seat 2 or more the index is stranded at `clients.length` and the advance throws |
| Redaction.CardPullView | app.js:225-230 | the owner's copy carries the card, every other copy the secret card |
| Redaction.CardPullViews | app.js:225-230 | one copy per recipient, in table order |
| Redaction.Secrets | app.js:244 | `Array(n).fill(secret)` is n secret cards |
| Redaction.HideSide | app.js:241-250 | a side is unchanged for its owner; for anyone else it becomes as many secret cards |
| Redaction.DeckSwapView | app.js:241-250 | a recipient's copy keeps both ids and hand lengths, and each side it owns unchanged |
| Redaction.DeckSwapViews | app.js:237-253 | one copy of the swap per recipient, in table order |
| Redaction.CardPullHidesCard | app.js:225-230 | only the owner learns the pulled card: the other copies do not depend on it |
| Redaction.HideSideRevealsLength | app.js:241-250 | a hidden side reveals only its length |
| Redaction.DeckSwapHidesHands | app.js:237-253 | a recipient learns the cards of its own sides and only the lengths of the others |
| Play.PlayableCardIdx | app.js:350-364 | -1 iff no card matches; otherwise the first index whose card has the face and the colour, or is a held wild card asked for in a non-black colour |
| Play.Matches | app.js:352-362 | a match always has the requested face, and an identical held card always matches |
| Play.Colored | app.js:455-459 | recolouring keeps the face, takes the requested colour at most, and leaves a non-wild card alone |
| Play.PlayedIsRequested | app.js:453-459 | the recoloured held card is exactly the card that was asked for |
| Play.RemoveAt | app.js:476 | `splice(i, 1)` removes exactly the card at `i`, keeping the order of the rest |
| Play.PullAdded | app.js:485-490 | a played face adds at most 4 to the pull count, and adds something exactly for PLUS2 and PLUS4 |
| Play.SwapHands | app.js:502-504 | each side gets what the other held (undefined included); other keys are untouched |
| Play.SwapTwice | app.js:502-504 | swapping twice restores the hands |
| Deal.RoundsMonotone | app.js:295-302 | later rounds of the deal start further into the pile |
| Deal.RoundsIsProduct | app.js:295-302 | `q` rounds deal `q * n` cards |
| Deal.Dealt | app.js:295-302 | after `r` rounds, seat `s` holds every `n`-th card from position `s`, one per round |
| Deal.DealtCovers | app.js:295-302 | every dealt position belongs to some round |
| Deal.DealtDistinct | app.js:295-302 | no two (round, seat) pairs take the same card |
| Handlers.Admit | app.js:416-451 | a play that passes the checks has a hand whose first matching card (same face; same colour, or a wild card taking a requested non-black colour) is the one played, and is a jump-in exactly when the caller is not the current player |
| Handlers.Recolored | app.js:455-459 | recolouring a held card changes only the actor's hand, keeping its length and every other hand |
| Handlers.SwapBroadcastThrows | app.js:237-253 | the swap broadcast cannot throw while the actor keeps a hand, nor with no other client present |
| Handlers.Finish | app.js:476-508 | the commit leaves the clients and the draw pile alone, puts the held card on the discard pile, and aborts or completes |
| Handlers.Conclude | app.js:499-508 | the end of a play changes only the hands and the turn index, and the hands only for a 0; a non-0 face always completes |
| Handlers.PlayStep | app.js:413-509 | a play never changes the clients or the draw pile; a refusal or fault keeps the set of hand owners |
| Handlers.DrawStep | app.js:514-532 | a draw leaves the clients and the discard pile alone and only takes cards from the front of the pile, `max(1, count)` of them when it completes |
| Handlers.PullCount | app.js:519 | `Math.max(1, currentCardPullCnt)` is at least 1 and the pull count, and equals one of them |
| Handlers.AdmitDecides | app.js:416-472 | a play the checks stop returns the table untouched; one they let through ends unseated, aborted or done |
| Handlers.PlayRefusalChangesNothing | app.js:418-451 | every early return and every fault before a change leaves the whole state unchanged |
| Handlers.PlayRefusalReasons | app.js:418-451 | each refusal has its cause: NotYourTurn iff not current and not jump-in-playable on the top card; no hand; not playable; pull pending without PLUS2/PLUS4; no matching card; unseated |
| Handlers.PlayIsLegal | app.js:418-451 | a play that gets through was legal: a readable turn, normal legality or a seated jump-in, the pull rule, and a held matching card |
| Handlers.FinishEffect | app.js:476-508 | the commit moves the card to the pile, adds its pull count, swaps for a 0 and ends the turn by the face |
| Handlers.PlayDoneRunsFinish | app.js:453-476 | a completed play ran the commit from the caller's seat with the held card recoloured |
| Handlers.RecolorThenRemove | app.js:458-476 | removing the recoloured card leaves the hand that removing the original leaves |
| Handlers.PlayMovesCard | app.js:476-505 | a completed play puts exactly the requested card on the pile, removes the first matching card from the hand, adds 2 for PLUS2 and 4 for PLUS4, and swaps hands for a 0 |
| Handlers.PlayPassesTurn | app.js:461-508 | after a completed play the turn moves on from the caller's seat as its face says, jump-ins included |
| Handlers.UnseatedJumpInRecolors | app.js:455-468 | an unseated jump-in is refused only after the wild card in the hand took the requested colour |
| Handlers.DrawRefusals | app.js:516-517 | a refused draw changes nothing: a fault iff the turn index is unreadable, NotYourTurn iff not the current player, NoHand iff no hand |
| Handlers.DrawMovesCards | app.js:519-531 | a completed draw moves the front `max(1, count)` cards to the end of the hand in order, loses no card, keeps the other hands, clears the count and advances |
| Handlers.DrawTakesPullCount | app.js:519-528 | with a pending count the draw takes exactly that many cards, otherwise one |
| Server.DealOneMore | app.js:297-300 | dealing the next card to seat `j` keeps every other seat's dealt hand |
| Server.GameServer.constructor | app.js:12-21 | the blank game state with no clients |
| Server.GameServer.Connect | app.js:543-544 | a new client is appended under "???" and connected |
| Server.GameServer.GetIdxOfClient | app.js:86-93 | returns the specified index lookup |
| Server.GameServer.GetNameOfClient | app.js:72-79 | the name of the first row with the id, or "???" |
| Server.GameServer.GetClientWithId | app.js:119-126 | the first row with the id, or null |
| Server.GameServer.RenameClient | app.js:101-112 | renames only the first row with the id, true iff it exists; unknown id leaves the table |
| Server.GameServer.DisconnectClientWithId | app.js:133-148 | removes and returns the first row with the id, marked disconnected; unknown id returns null and leaves the table |
| Server.GameServer.PopNextFromDeck | app.js:203-208 | returns the old front card and leaves the rest; an empty pile gives undefined and stays empty |
| Server.GameServer.PopRandomFromDeck | app.js:190-196 | removes and returns the card at the random position; the pile loses exactly that card |
| Handlers.Top | app.js:214-218 | null iff the discard pile is empty, else its last card |
| Server.GameServer.AddCardToClient | app.js:261-266 | false iff no key; pushing onto an undefined hand throws; otherwise the card is appended to that hand only |
| Server.GameServer.FillDeck | app.js:153-183 | the pile becomes the shuffled full set: 108 cards with the prescribed multiset |
| Server.GameServer.ShufflePile | app.js:181 | the pile becomes its specified shuffle |
| Server.GameServer.PushAll | app.js:155-179 | the push loops build the full set in order |
| Server.GameServer.PushColor | app.js:158-172 | one colour round appends that colour's 25 cards |
| Server.GameServer.AdvanceTurn | app.js:315-340 | leaves the index and ending given by the `advanceTurn` specification |
| Server.GameServer.ClearHands | app.js:288 | every client gets an empty hand; other keys stay |
| Server.GameServer.Deal | app.js:295-302 | seven rounds give each seat its `Dealt` hand from the front of the pile |
| Server.GameServer.DealRound | app.js:297-301 | one round deals one card to each seat in table order |
| Server.GameServer.DealCard | app.js:298-299 | one card from the front of the pile goes to seat `j` |
| Server.GameServer.RestartGame | app.js:280-310 | no clients: nothing changes; otherwise each client holds its seven dealt cards of the shuffled full set, one more card goes to the discard pile, the pile keeps the rest, and the given seat starts |
| Server.GameServer.DealAndStart | app.js:295-307 | the deal, the first discard from the front of the pile, and the starting seat |
| Server.GameServer.CheckPlay | app.js:416-451 | the checks of `play card` decide exactly as `Admit` |
| Server.GameServer.CatchUpTo | app.js:471 | the catch-up loop ends as `CatchUp` says |
| Server.GameServer.DeckSwapBroadcastThrows | app.js:237-253 | the broadcast throws exactly when the actor's new hand is undefined and another recipient exists |
| Server.GameServer.FinishPlay | app.js:476-508 | the commit of a play changes the state as `Finish` says |
| Server.GameServer.ConcludePlay | app.js:499-508 | the swap and the final advance change the state as `Conclude` says |
| Server.GameServer.PlayCard | app.js:413-509 | the handler changes the state and ends as `PlayStep` says |
| Server.GameServer.DrawCard | app.js:514-532 | the handler changes the state and ends as `DrawStep` says |

## Left out

- The express, socket.io and http wiring, every `emit`, and `console.log`. The handlers are methods taking the caller's socket id as `actor`. `hideAndEmitCardPull` and `hideAndEmitDeckSwap` are modelled as the copies they build (`Redaction`); `Server.GameServer.DeckSwapBroadcastThrows` decides only whether the swap broadcast throws.
- The socket handle in a client record, and the catch-up that sends the current hands and player to a newly connected client.
- `getRandomName`, a random retry loop over a name list: a new client keeps "???" (`Server.GameServer.Connect`).
- `Math.random` is an input: the swap positions of `shuffle` (`picks`), the position for `popRandomFromDeck` (`pick`) and the starting seat (`seat`).
- Server.GameServer.Connect: requires a socket id not already in the table. socket.io issues unique ids, and `Valid` keeps them unique.
- The JSON deep copy in `hideAndEmitDeckSwap`: only its result is modelled.
- Server.GameServer.RestartGame: requires that seven rounds leave a card for the discard pile (at most 15 clients). With more clients the source deals `undefined` from the exhausted pile.
- Server.GameServer.DrawCard: requires the pile to hold the cards the draw takes, but only for a draw that passes the turn and hand checks (`Handlers.PileSuffices`). On an exhausted pile the source pushes `undefined` into the hand.
- Handlers.DrawStep: requires the same as `DrawCard`.
- Colour, face and player-state codes are whole numbers. The `typeof face == 'number'` and `Number.isInteger` guards of the source are true of every value in this model, and a recolour request's colour is taken as an unchecked whole number; fractional, string and other non-number codes are not modelled.
- Server.GameServer.AdvanceTurn: `fuel` bounds the nested `advanceTurn` calls where the source is bounded only by the JavaScript stack. Running out of fuel stands for a stack overflow (`Unbounded`).
- Handlers.PlayStep: a `play card` payload without a `cid` is not modelled; the target is a plain id.
- `public/client.js` and `public/admin.js`, the browser UI, are not part of this model.
- Say-UNO, callbacks, player states beyond the swap-target test, reshuffling the discard pile and the end of the game are not implemented by the server and are not modelled.

## Findings

| source | as written | input that shows it | evidently intended | confidence | as-written member | corrected member |
|---|---|---|---|---|---|---|
| public/types.js:97-103 | the cut of the trailing delimiter also removes the opening bracket when nothing was accumulated | an empty deck with the default delimiter ", " renders as "]" | an empty deck renders as "[]" | high, not executed | Types.EmptyDeckLosesBracket | Types.DeckText |
