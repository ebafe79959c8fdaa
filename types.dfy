/**
 * The card vocabulary of the game and the pure rules over it
 * (public/types.js): the COLOR, FACE and PLAYER_STATE enums, the
 * renderers used for logging and display, and the legality tests.
 *
 * Colours, faces and player states are modelled as whole numbers, so a
 * request may carry a code the enums do not name; the renderers and
 * rules are total over such codes, as in the source.
 */
module Types {
  import opened Wrappers

  // COLOR
  const ColorSecret: int := -1
  const Red: int := 0
  const Green: int := 1
  const Blue: int := 2
  const Yellow: int := 3
  const Black: int := 4

  // FACE; the faces 0..9 are the numbered cards
  const FaceSecret: int := -1
  const Deny: int := 10
  const Turnaround: int := 11
  const Plus2: int := 12
  const ColorSwitch: int := 13
  const Plus4: int := 14

  const CardCnt: nat := 108
  const UnoMaxCardCnt: nat := 2

  // PLAYER_STATE
  const Playing: int := 1
  const SaidUno: int := 2
  const Callbackable: int := 3
  const CallbackableSaidUno: int := 4
  const Out: int := 5

  /** A card as `{color, face}`. */
  datatype Card = Card(color: int, face: int)

  // ---------------------------------------------------------------------
  // Renderers
  // ---------------------------------------------------------------------

  /** `colorToString`: `None` stands for the `undefined` an unknown colour yields. */
  function ColorToString(color: int): (s: Option<string>)
    ensures s.Some? <==> ColorSecret <= color <= Black
    ensures s.Some? ==> |s.value| > 0 && ' ' !in s.value
  {
    if color == ColorSecret then Some("?")
    else if color == Red then Some("Red")
    else if color == Green then Some("Green")
    else if color == Blue then Some("Blue")
    else if color == Yellow then Some("Yellow")
    else if color == Black then Some("Black")
    else None
  }

  /** JavaScript's conversion of a possibly `undefined` string when concatenated. */
  function Text(s: Option<string>): string
  {
    if s.Some? then s.value else "undefined"
  }

  predicate IsNumberFace(face: int)
  {
    0 <= face <= 9
  }

  /** The faces `faceToString` and `faceToSymbol` name. */
  predicate IsKnownFace(face: int)
  {
    IsNumberFace(face) || face == FaceSecret || Deny <= face <= Plus4
  }

  /** `face.toString()` for a single decimal digit. */
  function DigitString(d: int): (s: string)
    requires IsNumberFace(d)
    ensures |s| == 1 && '0' <= s[0] <= '9'
  {
    [('0' as int + d) as char]
  }

  /** `faceToSymbol`: the short symbol printed on a card. */
  function FaceToSymbol(face: int): (s: string)
    ensures IsNumberFace(face) ==> |s| == 1 && s[0] as int - '0' as int == face
    ensures s == "#" <==> !IsKnownFace(face)
  {
    if IsNumberFace(face) then DigitString(face)
    else if face == FaceSecret then "?"
    else if face == Deny then "⊘"
    else if face == Turnaround then "<i class=\"material-icons\">sync</i>"
    else if face == Plus2 then "+2"
    else if face == ColorSwitch then "◕"
    else if face == Plus4 then "+4"
    else "#"
  }

  /** `faceToString`: the human readable name of a face. */
  function FaceToString(face: int): (s: string)
    ensures IsNumberFace(face) ==> |s| == 1 && s[0] as int - '0' as int == face
    ensures s == "#" <==> !IsKnownFace(face)
    ensures |s| > 0 && ' ' !in s
  {
    if IsNumberFace(face) then DigitString(face)
    else if face == FaceSecret then "?"
    else if face == Deny then "Deny"
    else if face == Turnaround then "Turnaround"
    else if face == Plus2 then "+2"
    else if face == ColorSwitch then "Colorswitch"
    else if face == Plus4 then "+4"
    else "#"
  }

  /** `cardToString`: colour name, a space, face name. */
  function CardToString(card: Card): (s: string)
    ensures var f := FaceToString(card.face);
            |f| < |s| && s[|s| - |f| - 1] == ' ' && s[|s| - |f|..] == f
  {
    Text(ColorToString(card.color)) + " " + FaceToString(card.face)
  }

  /** The text `deckToString`'s `forEach` accumulates: every card followed by `delim`. */
  function Accumulated(deck: seq<Card>, delim: string): (s: string)
    ensures deck != [] ==> |delim| <= |s| && s[|s| - |delim|..] == delim
  {
    if deck == [] then "" else CardToString(deck[0]) + delim + Accumulated(deck[1..], delim)
  }

  /** JavaScript's `s.substring(0, end)`: a negative end counts as 0, a long one as `|s|`. */
  function Prefix(s: string, end: int): (p: string)
    ensures |p| <= |s| && p == s[..|p|]
    ensures 0 <= end <= |s| ==> |p| == end
  {
    if end <= 0 then "" else if end >= |s| then s else s[..end]
  }

  /**
   * `deckToString` as written: accumulate, cut the last `|delim|`
   * characters, close the bracket.
   */
  function DeckToString(deck: seq<Card>, delim: string): (s: string)
    ensures |s| > 0 && s[|s| - 1] == ']'
  {
    var acc := "[" + Accumulated(deck, delim);
    Prefix(acc, |acc| - |delim|) + "]"
  }

  /** The cards' texts, in deck order. */
  function CardStrings(deck: seq<Card>): (items: seq<string>)
    ensures |items| == |deck|
    ensures forall i :: 0 <= i < |deck| ==> items[i] == CardToString(deck[i])
  {
    if deck == [] then [] else [CardToString(deck[0])] + CardStrings(deck[1..])
  }

  /** Reference rendering of a list: the items separated by `delim`. */
  function Join(items: seq<string>, delim: string): string
  {
    if |items| == 0 then ""
    else if |items| == 1 then items[0]
    else items[0] + delim + Join(items[1..], delim)
  }

  /** `playerStateToString`. */
  function PlayerStateToString(state: int): (s: string)
    ensures s == "???" <==> !(Playing <= state <= Out)
  {
    if state == Playing then "playing"
    else if state == SaidUno then "said uno"
    else if state == Callbackable then "callbackable"
    else if state == CallbackableSaidUno then "callbackable / said uno"
    else if state == Out then "out"
    else "???"
  }

  // ---------------------------------------------------------------------
  // Rules
  // ---------------------------------------------------------------------

  /** `hasChoosableColor`: the card is a black wild card. */
  predicate HasChoosableColor(card: Card)
    ensures HasChoosableColor(card) <==> ColorToString(card.color) == Some("Black")
  {
    card.color == Black
  }

  /** `cardCanBePlayedOn`: normal play in one's own turn. */
  predicate CanBePlayedOn(card: Card, onTo: Card)
    ensures card.color == onTo.color || card.face == onTo.face ==> CanBePlayedOn(card, onTo)
  {
    if card.face == Plus4 || card.face == ColorSwitch then true
    else card.color == Black || card.color == onTo.color || card.face == onTo.face
  }

  /** `cardCanBeAsyncPlayedOn`: "jump-in" play out of turn. */
  predicate CanBeAsyncPlayedOn(card: Card, onTo: Card)
    ensures CanBeAsyncPlayedOn(card, onTo) ==> card.face == onTo.face
    ensures card == onTo ==> CanBeAsyncPlayedOn(card, onTo)
  {
    if card.face != onTo.face then false
    else if HasChoosableColor(card) then true
    else card.color == onTo.color
  }

  /** `canBeStarterCard`. */
  predicate CanBeStarterCard(card: Card)
    ensures CanBeStarterCard(card) ==>
              card.face !in {Deny, Turnaround, Plus2, ColorSwitch, Plus4} && card.color != Black
  {
    if card.color == Black then false
    else if card.face == 0 then false
    else card.face < 10
  }

  /** `canBeTargetOfSwap`. */
  predicate CanBeTargetOfSwap(state: int)
    ensures CanBeTargetOfSwap(state) ==> PlayerStateToString(state) in {"playing", "said uno"}
  {
    state == Playing || state == SaidUno
  }

  // ---------------------------------------------------------------------
  // Properties of the rules
  // ---------------------------------------------------------------------

  /** A PLUS4 or COLORSWITCH is playable on anything; any other card iff black, same colour or same face. */
  lemma PlayRule(card: Card, onTo: Card)
    ensures card.face == Plus4 || card.face == ColorSwitch ==> CanBePlayedOn(card, onTo)
    ensures card.face != Plus4 && card.face != ColorSwitch ==>
              (CanBePlayedOn(card, onTo) <==>
                 card.color == Black || card.color == onTo.color || card.face == onTo.face)
  {
  }

  /** Jump-in needs the same face, and then a black card or the same colour. */
  lemma AsyncRule(card: Card, onTo: Card)
    ensures card.face != onTo.face ==> !CanBeAsyncPlayedOn(card, onTo)
    ensures card.face == onTo.face ==>
              (CanBeAsyncPlayedOn(card, onTo) <==> card.color == Black || card.color == onTo.color)
  {
  }

  /** Whatever may be jumped in may also be played normally. */
  lemma AsyncImpliesPlayable(card: Card, onTo: Card)
    ensures CanBeAsyncPlayedOn(card, onTo) ==> CanBePlayedOn(card, onTo)
  {
  }

  /**
   * `canBeStarterCard` accepts every non-black card whose face is an
   * integer below 10 other than 0; on the faces a card of the deck can
   * have (0..14) that is exactly the numbers 1..9.
   */
  lemma StarterRule(card: Card)
    ensures CanBeStarterCard(card) <==> card.color != Black && card.face != 0 && card.face < 10
    ensures 0 <= card.face <= Plus4 ==>
              (CanBeStarterCard(card) <==> card.color != Black && 1 <= card.face <= 9)
    ensures CanBeStarterCard(Card(ColorSecret, FaceSecret))
  {
  }

  /** Of the five player states exactly PLAYING and SAID_UNO can be swap targets. */
  lemma SwapTargetRule(state: int)
    ensures CanBeTargetOfSwap(state) <==> state == Playing || state == SaidUno
  {
  }

  // ---------------------------------------------------------------------
  // Properties of the renderers
  // ---------------------------------------------------------------------

  /** Distinct known colours have distinct names. */
  lemma ColorNamesDistinct(c: int, d: int)
    requires ColorToString(c).Some? && ColorToString(d).Some?
    requires ColorToString(c) == ColorToString(d)
    ensures c == d
  {
  }

  /** Distinct known faces have distinct names and distinct symbols. */
  lemma FaceNamesDistinct(f: int, g: int)
    requires IsKnownFace(f) && IsKnownFace(g) && f != g
    ensures FaceToString(f) != FaceToString(g)
    ensures FaceToSymbol(f) != FaceToSymbol(g)
  {
    if IsNumberFace(f) && IsNumberFace(g) {
      assert FaceToString(f)[0] != FaceToString(g)[0];
    }
  }

  /** In `p + " " + s` with a space-free `p`, the first space is at `|p|`. */
  lemma FirstSpace(p: string, s: string)
    requires ' ' !in p
    ensures (p + " " + s)[|p|] == ' '
    ensures forall i :: 0 <= i < |p| ==> (p + " " + s)[i] != ' '
  {
    forall i | 0 <= i < |p| ensures (p + " " + s)[i] != ' ' {
      assert (p + " " + s)[i] == p[i];
    }
  }

  /** Splitting at the first space: a space-free prefix is recovered. */
  lemma SplitAtSpace(p1: string, s1: string, p2: string, s2: string)
    requires ' ' !in p1 && ' ' !in p2
    requires p1 + " " + s1 == p2 + " " + s2
    ensures p1 == p2 && s1 == s2
  {
    FirstSpace(p1, s1);
    FirstSpace(p2, s2);
    var whole := p1 + " " + s1;
    assert |p1| == |p2|;
    assert p1 == whole[..|p1|] == p2;
    assert s1 == whole[|p1| + 1..] == s2;
  }

  /** `cardToString` identifies every card with a known colour and face. */
  lemma CardToStringInjective(a: Card, b: Card)
    requires ColorToString(a.color).Some? && ColorToString(b.color).Some?
    requires IsKnownFace(a.face) && IsKnownFace(b.face)
    requires CardToString(a) == CardToString(b)
    ensures a == b
  {
    SplitAtSpace(Text(ColorToString(a.color)), FaceToString(a.face),
                 Text(ColorToString(b.color)), FaceToString(b.face));
    ColorNamesDistinct(a.color, b.color);
    if a.face != b.face {
      FaceNamesDistinct(a.face, b.face);
    }
  }

  /** The accumulated text is the joined text plus one trailing delimiter. */
  lemma {:induction false} AccumulatedIsJoin(deck: seq<Card>, delim: string)
    requires |deck| > 0
    ensures Accumulated(deck, delim) == Join(CardStrings(deck), delim) + delim
  {
    if |deck| > 1 {
      AccumulatedIsJoin(deck[1..], delim);
      assert CardStrings(deck)[1..] == CardStrings(deck[1..]);
    } else {
      assert Accumulated(deck[1..], delim) == "";
    }
  }

  /** For a non-empty deck, `deckToString` is "[", the cards joined by `delim`, then "]". */
  lemma DeckToStringNonEmpty(deck: seq<Card>, delim: string)
    requires |deck| > 0
    ensures DeckToString(deck, delim) == "[" + Join(CardStrings(deck), delim) + "]"
  {
    AccumulatedIsJoin(deck, delim);
    var body := Join(CardStrings(deck), delim);
    var acc := "[" + Accumulated(deck, delim);
    assert acc == ("[" + body) + delim;
    assert acc[..|acc| - |delim|] == "[" + body;
  }

  /**
   * On an empty deck `deckToString` as written cuts the opening bracket
   * together with the (absent) trailing delimiter: the text is "]".
   */
  lemma EmptyDeckLosesBracket(delim: string)
    requires |delim| >= 1
    ensures DeckToString([], delim) == "]"
  {
  }

  /** `deckToString` as intended: the card texts joined by `delim`, in brackets. */
  function DeckText(deck: seq<Card>, delim: string): (s: string)
    ensures |s| >= 2 && s[0] == '[' && s[|s| - 1] == ']'
  {
    "[" + Join(CardStrings(deck), delim) + "]"
  }

  /** The intended text of an empty deck is "[]". */
  lemma EmptyDeckText(delim: string)
    ensures DeckText([], delim) == "[]"
  {
  }

  /** The intended text agrees with the written one on every non-empty deck. */
  lemma {:induction false} DeckTextAgrees(deck: seq<Card>, delim: string)
    requires |deck| > 0
    ensures DeckText(deck, delim) == DeckToString(deck, delim)
  {
    DeckToStringNonEmpty(deck, delim);
  }
}
