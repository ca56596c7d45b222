/** Flashcard deck navigation of components/learn/DeckViewer.tsx: a card
    index and a flip flag. The card record is a type parameter. `Next`/`Prev`
    treat the delayed index update as immediate; `DelayedDeck` models the
    `setTimeout` version as written. */
module DeckViewer {

  datatype Deck = Deck(currentIndex: int, isFlipped: bool)

  function InitialDeck(): (d: Deck)
    ensures d.currentIndex == 0 && !d.isFlipped
  {
    Deck(0, false)
  }

  /** `handleNext`: move forward, face down, unless on the last card. */
  function Next(d: Deck, cardCount: nat): (r: Deck)
    ensures d.currentIndex < cardCount - 1 ==> r.currentIndex == d.currentIndex + 1 && !r.isFlipped
    ensures d.currentIndex >= cardCount - 1 ==> r == d
  {
    if d.currentIndex < cardCount - 1 then Deck(d.currentIndex + 1, false) else d
  }

  /** `handlePrev`: move back, face down, unless on the first card. */
  function Prev(d: Deck): (r: Deck)
    ensures d.currentIndex > 0 ==> r.currentIndex == d.currentIndex - 1 && !r.isFlipped
    ensures d.currentIndex <= 0 ==> r == d
  {
    if d.currentIndex > 0 then Deck(d.currentIndex - 1, false) else d
  }

  /** `handleFlip`: turn the card over. */
  function Flip(d: Deck): (r: Deck)
    ensures r.isFlipped == !d.isFlipped && r.currentIndex == d.currentIndex
  {
    d.(isFlipped := !d.isFlipped)
  }

  lemma FlipTwiceRestores(d: Deck)
    ensures Flip(Flip(d)) == d
  {
  }

  /** A move forward is undone by a move back (face down). */
  lemma NextThenPrev(d: Deck, cardCount: nat)
    requires 0 <= d.currentIndex < cardCount - 1
    ensures Prev(Next(d, cardCount)) == Deck(d.currentIndex, false)
  {
  }

  datatype DeckEvent = NextPressed | PrevPressed | FlipPressed

  function Apply(d: Deck, cardCount: nat, e: DeckEvent): Deck {
    match e
    case NextPressed => Next(d, cardCount)
    case PrevPressed => Prev(d)
    case FlipPressed => Flip(d)
  }

  function RunDeck(d: Deck, cardCount: nat, events: seq<DeckEvent>): Deck
    decreases |events|
  {
    if |events| == 0 then d else RunDeck(Apply(d, cardCount, events[0]), cardCount, events[1..])
  }

  /** The index lies on a card, or is 0 for an empty deck. */
  predicate InBounds(d: Deck, cardCount: nat) {
    0 <= d.currentIndex && (d.currentIndex < cardCount || d.currentIndex == 0)
  }

  /** From any in-bounds deck, any clicks keep the index in bounds. */
  lemma {:induction false} RunDeckInBounds(d: Deck, cardCount: nat, events: seq<DeckEvent>)
    requires InBounds(d, cardCount)
    ensures InBounds(RunDeck(d, cardCount, events), cardCount)
    decreases |events|
  {
    if |events| > 0 {
      RunDeckInBounds(Apply(d, cardCount, events[0]), cardCount, events[1..]);
    }
  }

  datatype DeckView<Card> =
    | EmptyDeckView
    | CardView(card: Card, position: int, total: int, isFlipped: bool)

  /** With no card at the index the empty-deck message shows; otherwise the
      card and the "position / total" counter. */
  function View<Card>(cards: seq<Card>, d: Deck): (v: DeckView<Card>)
    ensures v.EmptyDeckView? <==> !(0 <= d.currentIndex < |cards|)
    ensures v.CardView? ==>
      v.card == cards[d.currentIndex] && v.position == d.currentIndex + 1 && v.total == |cards|
      && v.isFlipped == d.isFlipped
  {
    if 0 <= d.currentIndex < |cards| then CardView(cards[d.currentIndex], d.currentIndex + 1, |cards|, d.isFlipped)
    else EmptyDeckView
  }

  /** A non-empty deck always shows a card, whatever was clicked. */
  lemma NonEmptyDeckShowsCard<Card>(cards: seq<Card>, events: seq<DeckEvent>)
    requires |cards| > 0
    ensures View(cards, RunDeck(InitialDeck(), |cards|, events)).CardView?
  {
    RunDeckInBounds(InitialDeck(), |cards|, events);
  }

  /** The deck as written: a click checks the index of the last render and
      schedules a `prev => prev + delta` update that applies when its timer fires. */
  datatype DelayedDeck = DelayedDeck(currentIndex: int, isFlipped: bool, pending: seq<int>)

  /** A "Next" click never moves the index itself: it queues one step exactly
      when the rendered index passes the guard. */
  function DelayedNext(d: DelayedDeck, cardCount: nat): (r: DelayedDeck)
    ensures r.currentIndex == d.currentIndex
    ensures |r.pending| >= |d.pending| && r.pending[..|d.pending|] == d.pending
    ensures |r.pending| == |d.pending| + 1 <==> d.currentIndex < cardCount - 1
    ensures |r.pending| > |d.pending| ==> r.pending[|d.pending|] == 1 && !r.isFlipped
  {
    if d.currentIndex < cardCount - 1 then DelayedDeck(d.currentIndex, false, d.pending + [1]) else d
  }

  /** A "Previous" click likewise queues one step back exactly when the
      rendered index is above 0. */
  function DelayedPrev(d: DelayedDeck): (r: DelayedDeck)
    ensures r.currentIndex == d.currentIndex
    ensures |r.pending| >= |d.pending| && r.pending[..|d.pending|] == d.pending
    ensures |r.pending| == |d.pending| + 1 <==> d.currentIndex > 0
    ensures |r.pending| > |d.pending| ==> r.pending[|d.pending|] == -1 && !r.isFlipped
  {
    if d.currentIndex > 0 then DelayedDeck(d.currentIndex, false, d.pending + [-1]) else d
  }

  /** The oldest scheduled update fires. */
  function TimerFires(d: DelayedDeck): (r: DelayedDeck)
    ensures |d.pending| == 0 ==> r == d
    ensures |d.pending| > 0 ==>
      r.currentIndex == d.currentIndex + d.pending[0] && [d.pending[0]] + r.pending == d.pending
  {
    if |d.pending| == 0 then d else DelayedDeck(d.currentIndex + d.pending[0], d.isFlipped, d.pending[1..])
  }

  /** Two "Next" clicks within the 150 ms delay on the second-to-last card both
      pass the guard, and the index ends one past the last card, where the
      empty-deck message replaces the cards. */
  lemma DelayedNextOverruns<Card>(cards: seq<Card>)
    requires |cards| >= 2
    ensures var d0 := DelayedDeck(|cards| - 2, false, []);
      var d := TimerFires(TimerFires(DelayedNext(DelayedNext(d0, |cards|), |cards|)));
      d.currentIndex == |cards| && View(cards, Deck(d.currentIndex, d.isFlipped)).EmptyDeckView?
  {
  }
}
