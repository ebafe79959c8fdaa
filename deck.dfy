/**
 * The draw pile's composition and its shuffle (app.js `fillDeck` and
 * `shuffle`). The pile is built in a fixed order by nested loops and
 * then shuffled in place by Fisher-Yates; the random numbers the
 * shuffle draws are an input ("picks").
 */
module Deck {
  import opened Types

  // ---------------------------------------------------------------------
  // The set of cards, in the order `fillDeck` pushes them
  // ---------------------------------------------------------------------

  /** The numbered cards 1..`n` of one colour, in push order. */
  function Numbers(color: int, n: nat): seq<Card>
  {
    seq(n, i => Card(color, i + 1))
  }

  /** The three action cards pushed after the numbers in each pass. */
  function ActionCards(color: int): seq<Card>
  {
    [Card(color, Plus2), Card(color, Deny), Card(color, Turnaround)]
  }

  /** One pass of the inner `i < 2` loop: 1..9, then PLUS2, DENY, TURNAROUND. */
  function ColorPass(color: int): seq<Card>
  {
    Numbers(color, 9) + ActionCards(color)
  }

  /** The first `i` passes of the inner loop. */
  function Passes(color: int, i: nat): (r: seq<Card>)
    ensures |r| == 12 * i
  {
    if i == 0 then [] else Passes(color, i - 1) + ColorPass(color)
  }

  /** All cards of one colour: a 0, then two passes. */
  function ColorBlock(color: int): (r: seq<Card>)
    ensures |r| == 25
  {
    [Card(color, 0)] + Passes(color, 2)
  }

  /** The blocks of the given colours, in order. */
  function ColorBlocks(colors: seq<int>): (r: seq<Card>)
    ensures |r| == 25 * |colors|
  {
    if colors == [] then [] else ColorBlocks(colors[..|colors| - 1]) + ColorBlock(colors[|colors| - 1])
  }

  /** `k` rounds of the wild loop: a black COLORSWITCH and a black PLUS4 each. */
  function Wilds(k: nat): (r: seq<Card>)
    ensures |r| == 2 * k
  {
    if k == 0 then [] else Wilds(k - 1) + [Card(Black, ColorSwitch), Card(Black, Plus4)]
  }

  /** The full set before shuffling. */
  function FullDeck(): (d: seq<Card>)
    ensures |d| == CardCnt
  {
    ColorBlocks([Red, Green, Blue, Yellow]) + Wilds(4)
  }

  // ---------------------------------------------------------------------
  // Reference composition
  // ---------------------------------------------------------------------

  /** Copies of a face in one colour: one 0, two of 1..9, PLUS2, DENY and TURNAROUND. */
  function FaceCopies(face: int): nat
  {
    if face == 0 then 1
    else if 1 <= face <= 9 || face == Plus2 || face == Deny || face == Turnaround then 2
    else 0
  }

  /** Copies of `card` in the full set of 108. */
  function Copies(card: Card): (c: nat)
    ensures c <= 4
    ensures c > 0 ==> ColorToString(card.color).Some? && card.color != ColorSecret && 0 <= card.face <= Plus4
    ensures c == 1 <==> card.face == 0 && Red <= card.color <= Yellow
  {
    if Red <= card.color <= Yellow then FaceCopies(card.face)
    else if card.color == Black && (card.face == ColorSwitch || card.face == Plus4) then 4
    else 0
  }

  /** Occurrences of `card` in `s`, counted from the front. */
  function Count(s: seq<Card>, card: Card): (n: nat)
    ensures n <= |s|
    ensures n > 0 <==> card in s
  {
    if s == [] then 0 else (if s[0] == card then 1 else 0) + Count(s[1..], card)
  }

  lemma {:induction false} CountConcat(a: seq<Card>, b: seq<Card>, card: Card)
    ensures Count(a + b, card) == Count(a, card) + Count(b, card)
  {
    if a == [] {
      assert a + b == b;
    } else {
      CountConcat(a[1..], b, card);
      assert (a + b)[1..] == a[1..] + b;
    }
  }

  lemma CountSingleton(c: Card, card: Card)
    ensures Count([c], card) == if c == card then 1 else 0
  {
    assert [c][1..] == [];
  }

  /** `Count` is the multiplicity of the card in the multiset of the sequence. */
  lemma {:induction false} CountIsMultiplicity(s: seq<Card>, card: Card)
    ensures Count(s, card) == multiset(s)[card]
  {
    if s != [] {
      CountIsMultiplicity(s[1..], card);
      assert s == [s[0]] + s[1..];
    }
  }

  lemma {:induction false} NumbersCount(color: int, n: nat, card: Card)
    ensures Count(Numbers(color, n), card) == if card.color == color && 1 <= card.face <= n then 1 else 0
  {
    if n > 0 {
      assert Numbers(color, n) == Numbers(color, n - 1) + [Card(color, n)];
      NumbersCount(color, n - 1, card);
      CountConcat(Numbers(color, n - 1), [Card(color, n)], card);
      CountSingleton(Card(color, n), card);
    }
  }

  lemma ActionCardsCount(color: int, card: Card)
    ensures Count(ActionCards(color), card) ==
              if card.color == color && (card.face == Plus2 || card.face == Deny || card.face == Turnaround) then 1 else 0
  {
    var s := ActionCards(color);
    assert s[1..][1..] == [Card(color, Turnaround)];
    CountSingleton(Card(color, Turnaround), card);
  }

  lemma ColorPassCount(color: int, card: Card)
    ensures |ColorPass(color)| == 12
    ensures Count(ColorPass(color), card) ==
              if card.color == color && card.face != 0 then FaceCopies(card.face) / 2 else 0
  {
    NumbersCount(color, 9, card);
    ActionCardsCount(color, card);
    CountConcat(Numbers(color, 9), ActionCards(color), card);
  }

  /** Each colour contributes 25 cards, with the per-face counts of `FaceCopies`. */
  lemma ColorBlockCount(color: int, card: Card)
    ensures |ColorBlock(color)| == 25
    ensures Count(ColorBlock(color), card) == if card.color == color then FaceCopies(card.face) else 0
  {
    ColorPassCount(color, card);
    CountSingleton(Card(color, 0), card);
    assert Passes(color, 1) == [] + ColorPass(color) == ColorPass(color);
    assert Passes(color, 2) == ColorPass(color) + ColorPass(color);
    CountConcat(ColorPass(color), ColorPass(color), card);
    CountConcat([Card(color, 0)], Passes(color, 2), card);
  }

  lemma {:induction false} ColorBlocksCount(colors: seq<int>, card: Card)
    requires forall i, j :: 0 <= i < j < |colors| ==> colors[i] != colors[j]
    ensures |ColorBlocks(colors)| == 25 * |colors|
    ensures Count(ColorBlocks(colors), card) == if card.color in colors then FaceCopies(card.face) else 0
  {
    if colors != [] {
      var init, last := colors[..|colors| - 1], colors[|colors| - 1];
      assert colors == init + [last];
      ColorBlocksCount(init, card);
      ColorBlockCount(last, card);
      CountConcat(ColorBlocks(init), ColorBlock(last), card);
    }
  }

  lemma {:induction false} WildsCount(k: nat, card: Card)
    ensures |Wilds(k)| == 2 * k
    ensures Count(Wilds(k), card) ==
              if card == Card(Black, ColorSwitch) || card == Card(Black, Plus4) then k else 0
  {
    if k > 0 {
      var pair := [Card(Black, ColorSwitch), Card(Black, Plus4)];
      WildsCount(k - 1, card);
      CountConcat(Wilds(k - 1), pair, card);
      assert pair[1..] == [Card(Black, Plus4)];
      CountSingleton(Card(Black, Plus4), card);
    }
  }

  lemma FullDeckCount(card: Card)
    ensures |FullDeck()| == CardCnt
    ensures Count(FullDeck(), card) == Copies(card)
  {
    var colors := [Red, Green, Blue, Yellow];
    ColorBlocksCount(colors, card);
    WildsCount(4, card);
    CountConcat(ColorBlocks(colors), Wilds(4), card);
  }

  /** The pile `fillDeck` builds holds CARD_CNT = 108 cards, each as often as `Copies` says. */
  lemma FullDeckComposition(card: Card)
    ensures |FullDeck()| == CardCnt
    ensures multiset(FullDeck())[card] == Copies(card)
  {
    FullDeckCount(card);
    CountIsMultiplicity(FullDeck(), card);
  }

  // ---------------------------------------------------------------------
  // Fisher-Yates
  // ---------------------------------------------------------------------

  /** `s` with positions `i` and `j` exchanged (the three-assignment swap). */
  function Swap(s: seq<Card>, i: nat, j: nat): (t: seq<Card>)
    requires i < |s| && j < |s|
    ensures |t| == |s|
  {
    s[i := s[j]][j := s[i]]
  }

  lemma SwapPermutes(s: seq<Card>, i: nat, j: nat)
    requires i < |s| && j < |s|
    ensures multiset(Swap(s, i, j)) == multiset(s)
  {
  }

  /**
   * What `Math.floor(Math.random() * currentIndex)` can return: the pick
   * used when the loop reaches position `c` lies in `0..c`.
   */
  predicate ValidPicks(picks: seq<nat>, n: nat)
  {
    |picks| == n && forall c :: 0 <= c < n ==> picks[c] <= c
  }

  /**
   * The shuffle's effect once the loop has come down to position `from`:
   * the positions from the last one down to `from`, each swapped with its
   * pick, the last one first.
   */
  function Shuffled(s: seq<Card>, picks: seq<nat>, from: nat): (r: seq<Card>)
    requires ValidPicks(picks, |s|) && from <= |s|
    ensures |r| == |s|
    decreases |s| - from
  {
    if from == |s| then s else Swap(Shuffled(s, picks, from + 1), from, picks[from])
  }

  /** Shuffling only reorders: same length, same multiset of cards. */
  lemma {:induction false} ShuffledIsPermutation(s: seq<Card>, picks: seq<nat>, from: nat)
    requires ValidPicks(picks, |s|) && from <= |s|
    ensures multiset(Shuffled(s, picks, from)) == multiset(s)
    decreases |s| - from
  {
    if from < |s| {
      var t := Shuffled(s, picks, from + 1);
      ShuffledIsPermutation(s, picks, from + 1);
      SwapPermutes(t, from, picks[from]);
      assert Shuffled(s, picks, from) == Swap(t, from, picks[from]);
    }
  }

  /** A freshly filled and shuffled pile has the composition of the full set. */
  lemma ShuffledFullDeck(picks: seq<nat>)
    requires ValidPicks(picks, CardCnt)
    ensures |Shuffled(FullDeck(), picks, 0)| == CardCnt
    ensures forall card :: multiset(Shuffled(FullDeck(), picks, 0))[card] == Copies(card)
  {
    var deck := FullDeck();
    FullDeckComposition(Card(Red, 0));
    ShuffledIsPermutation(deck, picks, 0);
    forall card ensures multiset(Shuffled(deck, picks, 0))[card] == Copies(card) {
      FullDeckComposition(card);
    }
  }

  /** `shuffle`: Fisher-Yates in place, from the last position down. */
  method Shuffle(a: array<Card>, picks: seq<nat>)
    requires ValidPicks(picks, a.Length)
    modifies a
    ensures a[..] == Shuffled(old(a[..]), picks, 0)
    ensures multiset(a[..]) == multiset(old(a[..]))
  {
    var currentIndex := a.Length;
    while currentIndex != 0
      invariant 0 <= currentIndex <= a.Length
      invariant a[..] == Shuffled(old(a[..]), picks, currentIndex)
    {
      var randomIndex := picks[currentIndex - 1];
      currentIndex := currentIndex - 1;
      ghost var before := a[..];
      var temporaryValue := a[currentIndex];
      a[currentIndex] := a[randomIndex];
      a[randomIndex] := temporaryValue;
      assert a[..] == Swap(before, currentIndex, randomIndex);
    }
    ShuffledIsPermutation(old(a[..]), picks, 0);
  }
}
