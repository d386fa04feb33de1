/**
 * The vertical roulette: a column of five labels scrolls upward one row per
 * timer tick until the winning label reaches the centre slot, then stops.
 *
 * Every random draw of the program is an explicit input: the draws of the
 * pool shuffle, the pool index random.choice returns, and `lucky`, which
 * stands for random.random() < 0.1. The handle root.after returns is an input
 * too. Widgets, fonts and the Tk event loop are not modelled; the canvas is
 * modelled only as the list of text rows it shows.
 */
module Roulette {

  import opened Wrappers
  import Shuffle

  // ---------------------------------------------------------------------------
  // Catalog and the non-winning pool
  // ---------------------------------------------------------------------------

  /** The labels the program is built with, and its winner. */
  const Catalog: seq<string> := [
    "+90 kg", "-70 kg", "+70 kg", "-90 kg", "+80 kg",
    "-60 kg", "+60 kg", "-80 kg", "+50 kg", "-50 kg"
  ]
  const Winner: string := "+90 kg"

  /** The number of labels in the window. */
  const WindowSize: nat := 5

  /**
   * The catalog entries different from the winner, in catalog order
   * (the list comprehension that builds items_without_winner).
   */
  function NonWinningPool(items: seq<string>, winner: string): (pool: seq<string>)
    ensures forall x :: x in pool <==> x in items && x != winner
    ensures multiset(pool) == multiset(items)[winner := 0]
  {
    if items == [] then []
    else
      assert items == [items[0]] + items[1..];
      if items[0] != winner then [items[0]] + NonWinningPool(items[1..], winner)
      else NonWinningPool(items[1..], winner)
  }

  /** A catalog without the winner is its own pool. */
  lemma {:induction false} PoolWithoutWinner(items: seq<string>, winner: string)
    requires winner !in items
    ensures NonWinningPool(items, winner) == items
  {
    if items != [] {
      assert items == [items[0]] + items[1..];
      PoolWithoutWinner(items[1..], winner);
    }
  }

  /** With the program's own catalog the pool holds the nine other labels, in catalog order. */
  lemma CatalogPool()
    ensures NonWinningPool(Catalog, Winner) == Catalog[1..]
    ensures |NonWinningPool(Catalog, Winner)| == 9
  {
    assert Catalog == [Winner] + Catalog[1..];
    forall k | 1 <= k < |Catalog|
      ensures Catalog[k] != Winner
    {
      assert Catalog[k][0] != Winner[0] || Catalog[k][1] != Winner[1];
    }
    PoolWithoutWinner(Catalog[1..], Winner);
  }

  // ---------------------------------------------------------------------------
  // Drawing a fresh window
  // ---------------------------------------------------------------------------

  /** picks[k] is the index random.choice returns for row k of a fresh window. */
  predicate ValidPicks(picks: seq<nat>, n: nat) {
    |picks| == WindowSize && forall k :: 0 <= k < WindowSize ==> picks[k] < n
  }

  /** The labels the picks select from the (shuffled) pool. */
  function Choose(pool: seq<string>, picks: seq<nat>): seq<string>
    requires ValidPicks(picks, |pool|)
  {
    seq(WindowSize, k requires 0 <= k < WindowSize => pool[picks[k]])
  }

  /** Every label of w is a member of the pool and none is the winner. */
  predicate AllNonWinning(w: seq<string>, pool: seq<string>, winner: string) {
    forall k :: 0 <= k < |w| ==> w[k] in pool && w[k] != winner
  }

  /** A fresh window has five labels, each a member of the pool and none the winner. */
  lemma FreshWindowAvoidsWinner(items: seq<string>, winner: string, draws: seq<nat>, picks: seq<nat>)
    requires Shuffle.ValidDraws(draws, |NonWinningPool(items, winner)|)
    requires ValidPicks(picks, |NonWinningPool(items, winner)|)
    ensures |Shuffle.Shuffled(NonWinningPool(items, winner), draws)| == |NonWinningPool(items, winner)|
    ensures var w := Choose(Shuffle.Shuffled(NonWinningPool(items, winner), draws), picks);
            |w| == WindowSize && AllNonWinning(w, NonWinningPool(items, winner), winner)
  {
    var pool := NonWinningPool(items, winner);
    Shuffle.ShuffledHasSameMembers(pool, draws);
    var s := Shuffle.Shuffled(pool, draws);
    forall k | 0 <= k < WindowSize
      ensures Choose(s, picks)[k] in pool
    {
      assert Choose(s, picks)[k] == s[picks[k]];
    }
  }

  /** With a catalog of the winner and one other label, every fresh window repeats that label. */
  lemma SingleLoserWindow(loser: string, draws: seq<nat>, picks: seq<nat>)
    requires loser != Winner
    requires Shuffle.ValidDraws(draws, 1) && ValidPicks(picks, 1)
    ensures NonWinningPool([Winner, loser], Winner) == [loser]
    ensures Choose(Shuffle.Shuffled([loser], draws), picks) == [loser, loser, loser, loser, loser]
  {
    assert [Winner, loser][1..] == [loser];
    assert [loser][1..] == [];
    assert NonWinningPool([loser], Winner) == [loser];
  }

  // ---------------------------------------------------------------------------
  // Rendering: colour and row geometry
  // ---------------------------------------------------------------------------

  datatype Colour = Pink | Blue {
    /** The fill colour the canvas text is given. */
    function Hex(): string {
      match this
      case Pink => "#FF69B4"
      case Blue => "#1E90FF"
    }
  }

  /** A label containing '+' is drawn pink, every other label blue. */
  function LabelColour(text: string): Colour {
    if '+' in text then Pink else Blue
  }

  /** For a signed label whose sign is its only '+' or '-', the colour is decided by the sign. */
  lemma SignedLabelColour(text: string)
    requires |text| > 0 && (text[0] == '+' || text[0] == '-')
    requires '+' !in text[1..]
    ensures LabelColour(text) == Pink <==> text[0] == '+'
  {
    assert text == [text[0]] + text[1..];
  }

  /** Every positive label of the catalog is pink and every negative one blue. */
  lemma CatalogColours()
    ensures forall k :: 0 <= k < |Catalog| ==> (LabelColour(Catalog[k]) == Pink <==> Catalog[k][0] == '+')
  {
    forall k | 0 <= k < |Catalog|
      ensures LabelColour(Catalog[k]) == Pink <==> Catalog[k][0] == '+'
    {
      SignedLabelColour(Catalog[k]);
    }
  }

  /** Geometry of the canvas: the first row, the row spacing and the centre marker band. */
  const FirstRowY: int := 130
  const RowSpacing: int := 60
  const MarkerTop: int := 220
  const MarkerBottom: int := 280
  const CentreRow: nat := 2

  /** The y position of row i. */
  function RowY(i: nat): int {
    FirstRowY + i * RowSpacing
  }

  predicate InCentreMarker(y: int) {
    MarkerTop <= y <= MarkerBottom
  }

  /** Row 2, and no other row, is drawn inside the centre marker. */
  lemma OnlyCentreRowInMarker(i: nat)
    ensures InCentreMarker(RowY(i)) <==> i == CentreRow
  {
    if i < CentreRow {
      assert RowY(i) <= RowY(1) < MarkerTop;
    } else if i > CentreRow {
      assert RowY(i) >= RowY(3) > MarkerBottom;
    }
  }

  /** One text item on the canvas: its y position, its text and its fill colour string. */
  datatype Row = Row(y: int, text: string, fill: string)

  function DrawRow(i: nat, text: string): Row {
    Row(RowY(i), text, LabelColour(text).Hex())
  }

  /** The rows update_display draws for window w, top to bottom. */
  function Rendering(w: seq<string>): seq<Row> {
    seq(|w|, i requires 0 <= i < |w| => DrawRow(i, w[i]))
  }

  /** In the rendering of a five-label window, the one row inside the marker shows w[2]. */
  lemma CentreOfRendering(w: seq<string>)
    requires |w| == WindowSize
    ensures forall i :: 0 <= i < |w| ==> (InCentreMarker(Rendering(w)[i].y) <==> i == CentreRow)
    ensures Rendering(w)[CentreRow].text == w[CentreRow]
  {
    forall i | 0 <= i < |w|
      ensures InCentreMarker(Rendering(w)[i].y) <==> i == CentreRow
    {
      OnlyCentreRowInMarker(i);
    }
  }

  // ---------------------------------------------------------------------------
  // One tick, and a run of ticks
  // ---------------------------------------------------------------------------

  /** What one shift_items_up does to the window: stop on a shortened window, or continue. */
  datatype Tick = Stop(window: seq<string>) | Continue(window: seq<string>)

  /**
   * One shift_items_up on window w: the top label is dropped; if the label now
   * at index 1 is the winner the spin stops; otherwise the winner (when not
   * spinning or lucky) or the drawn fill label is appended.
   */
  function NextWindow(w: seq<string>, winner: string, spinning: bool, lucky: bool, fill: string): Tick
    requires |w| >= 3
  {
    var rest := w[1..];
    if rest[1] == winner then Stop(rest)
    else Continue(rest + [if !spinning || lucky then winner else fill])
  }

  /** The inputs of one tick while spinning: the 10% draw and the label random.choice returns. */
  datatype Draw = Draw(lucky: bool, fill: string)

  /**
   * The number of ticks a spin from window w takes, the stopping tick
   * included, or None if the draws run out first.
   */
  function TicksToStop(w: seq<string>, winner: string, draws: seq<Draw>): Option<nat>
    requires |w| == WindowSize
    decreases |draws|
  {
    if draws == [] then None
    else
      match NextWindow(w, winner, true, draws[0].lucky, draws[0].fill)
      case Stop(_) => Some(1)
      case Continue(next) =>
        match TicksToStop(next, winner, draws[1..])
        case None => None
        case Some(n) => Some(n + 1)
  }

  /** A winner at row j >= 2 stops the spin within j - 1 ticks, whatever is drawn meanwhile. */
  lemma {:induction false} WinnerInSightStops(w: seq<string>, winner: string, draws: seq<Draw>, j: nat)
    requires |w| == WindowSize && 2 <= j < WindowSize && w[j] == winner
    requires |draws| >= j - 1
    ensures TicksToStop(w, winner, draws).Some?
    ensures TicksToStop(w, winner, draws).value <= j - 1
    decreases j
  {
    if w[2] != winner {
      var next := NextWindow(w, winner, true, draws[0].lucky, draws[0].fill).window;
      assert next[j - 1] == w[j];
      WinnerInSightStops(next, winner, draws[1..], j - 1);
    }
  }

  /** A lucky draw at tick k stops the spin by tick k + 4 at the latest. */
  lemma {:induction false} LuckyDrawStops(w: seq<string>, winner: string, draws: seq<Draw>, k: nat)
    requires |w| == WindowSize && k < |draws| && draws[k].lucky
    requires |draws| >= k + 4
    ensures TicksToStop(w, winner, draws).Some?
    ensures TicksToStop(w, winner, draws).value <= k + 4
    decreases k
  {
    match NextWindow(w, winner, true, draws[0].lucky, draws[0].fill)
    case Stop(_) =>
    case Continue(next) =>
      if k == 0 {
        assert next[4] == winner;
        WinnerInSightStops(next, winner, draws[1..], 4);
      } else {
        LuckyDrawStops(next, winner, draws[1..], k - 1);
      }
  }

  /** Without a lucky draw, a spin whose lower rows lack the winner and whose fills are losers never stops. */
  lemma {:induction false} NoLuckNoStop(w: seq<string>, winner: string, draws: seq<Draw>)
    requires |w| == WindowSize
    requires forall j :: 2 <= j < WindowSize ==> w[j] != winner
    requires forall d :: d in draws ==> !d.lucky && d.fill != winner
    ensures TicksToStop(w, winner, draws) == None
    decreases |draws|
  {
    if draws != [] {
      var next := NextWindow(w, winner, true, draws[0].lucky, draws[0].fill).window;
      assert draws[0] in draws;
      assert forall d :: d in draws[1..] ==> d in draws;
      NoLuckNoStop(next, winner, draws[1..]);
    }
  }

  // ---------------------------------------------------------------------------
  // The controller object
  // ---------------------------------------------------------------------------

  /** The identifier root.after returns for a scheduled callback. */
  type Handle = nat

  class VerticalRoulette {
    const items: seq<string>
    const winningItem: string
    var currentItems: seq<string>
    var isSpinning: bool
    var animationId: Option<Handle>
    /** True when the spin button is in state NORMAL, false when DISABLED. */
    var buttonEnabled: bool
    /** The text rows currently on the canvas, top to bottom. */
    var drawn: seq<Row>

    function Pool(): seq<string> {
      NonWinningPool(items, winningItem)
    }

    /**
     * The object invariant. The window has five labels, or four after a stop;
     * while spinning the label at index 1 is never the winner; every label is
     * a pool member or the winner; the button is enabled exactly when idle.
     * A five-label window is what the canvas shows; after a stop the canvas
     * still shows the window before the last shift, one row lower.
     */
    ghost predicate Valid()
      reads this
    {
      |Pool()| > 0 &&
      buttonEnabled == !isSpinning &&
      (|currentItems| == WindowSize || (!isSpinning && |currentItems| == WindowSize - 1)) &&
      (isSpinning ==> currentItems[1] != winningItem) &&
      (forall k :: 0 <= k < |currentItems| ==> currentItems[k] in Pool() || currentItems[k] == winningItem) &&
      (|currentItems| == WindowSize ==> drawn == Rendering(currentItems)) &&
      (|currentItems| == WindowSize - 1 ==>
         currentItems[1] == winningItem &&
         |drawn| == WindowSize &&
         forall k :: 1 <= k < WindowSize ==> drawn[k] == DrawRow(k, currentItems[k - 1]))
    }

    constructor (items: seq<string>, winningItem: string, draws: seq<nat>, picks: seq<nat>)
      requires |NonWinningPool(items, winningItem)| > 0
      requires Shuffle.ValidDraws(draws, |NonWinningPool(items, winningItem)|)
      requires ValidPicks(picks, |NonWinningPool(items, winningItem)|)
      ensures Valid()
      ensures this.items == items && this.winningItem == winningItem
      ensures currentItems == Choose(Shuffle.Shuffled(Pool(), draws), picks)
      ensures AllNonWinning(currentItems, Pool(), winningItem)
      ensures drawn == Rendering(currentItems)
      ensures !isSpinning && buttonEnabled && animationId == None
    {
      this.items := items;
      this.winningItem := winningItem;
      currentItems := [];
      drawn := [];
      isSpinning := false;
      animationId := None;
      buttonEnabled := true;
      new;
      InitializeDisplay(draws, picks);
    }

    /** Fills the window with five labels drawn from the shuffled pool, and draws it. */
    method InitializeDisplay(draws: seq<nat>, picks: seq<nat>)
      requires |Pool()| > 0 && buttonEnabled == !isSpinning
      requires Shuffle.ValidDraws(draws, |Pool()|) && ValidPicks(picks, |Pool()|)
      modifies this`currentItems, this`drawn
      ensures Valid()
      ensures currentItems == Choose(Shuffle.Shuffled(Pool(), draws), picks)
      ensures AllNonWinning(currentItems, Pool(), winningItem)
      ensures drawn == Rendering(currentItems)
      ensures isSpinning == old(isSpinning) && buttonEnabled == old(buttonEnabled)
      ensures animationId == old(animationId)
    {
      var pool := Pool();
      DealWindow(pool, winningItem, draws, picks);
      UpdateDisplay();
      FreshWindowIsValid();
    }

    /** Shuffles a copy of the pool and deals the window from it, one appended label per row. */
    method DealWindow(pool: seq<string>, winner: string, draws: seq<nat>, picks: seq<nat>)
      requires Shuffle.ValidDraws(draws, |pool|) && ValidPicks(picks, |pool|)
      requires winner !in pool
      modifies this`currentItems
      ensures |Shuffle.Shuffled(pool, draws)| == |pool|
      ensures currentItems == Choose(Shuffle.Shuffled(pool, draws), picks)
      ensures |currentItems| == WindowSize && AllNonWinning(currentItems, pool, winner)
    {
      var shuffled := Shuffle.ShuffleCopy(pool, draws);
      Shuffle.ShuffledHasSameMembers(pool, draws);
      currentItems := [];
      // The source has separate branches for the centre row and the others; both draw alike.
      for i := 0 to WindowSize
        invariant |currentItems| == i
        invariant forall k :: 0 <= k < i ==> currentItems[k] == shuffled[picks[k]]
      {
        currentItems := currentItems + [shuffled[picks[i]]];
      }
    }

    /** A five-label window of non-winning pool labels, as drawn, satisfies the invariant. */
    lemma FreshWindowIsValid()
      requires |Pool()| > 0 && buttonEnabled == !isSpinning && |currentItems| == WindowSize
      requires AllNonWinning(currentItems, Pool(), winningItem)
      requires drawn == Rendering(currentItems)
      ensures Valid()
    {
    }

    /** Replaces the canvas rows by one row per window label. */
    method UpdateDisplay()
      modifies this`drawn
      ensures drawn == Rendering(currentItems)
    {
      drawn := [];
      for i := 0 to |currentItems|
        invariant |drawn| == i
        invariant forall k :: 0 <= k < i ==> drawn[k] == DrawRow(k, currentItems[k])
      {
        drawn := drawn + [DrawRow(i, currentItems[i])];
      }
    }

    /** One tick: drop the top label, then stop or append a label. */
    method ShiftItemsUp(lucky: bool, pick: nat)
      requires Valid() && |currentItems| == WindowSize && pick < |Pool()|
      modifies this
      ensures Valid()
      ensures var t := NextWindow(old(currentItems), winningItem, old(isSpinning), lucky, Pool()[pick]);
              currentItems == t.window && isSpinning == (old(isSpinning) && t.Continue?)
      // the stop branch
      ensures old(currentItems)[2] == winningItem ==>
                currentItems == old(currentItems)[1..] && !isSpinning && buttonEnabled &&
                drawn == old(drawn) && drawn[CentreRow] == DrawRow(CentreRow, winningItem) &&
                animationId == old(animationId)
      // the continue branch
      ensures old(currentItems)[2] != winningItem ==>
                |currentItems| == WindowSize && currentItems[..WindowSize - 1] == old(currentItems)[1..] &&
                currentItems[WindowSize - 1] ==
                  (if !old(isSpinning) || lucky then winningItem else Pool()[pick]) &&
                currentItems[WindowSize - 1] in Pool() + [winningItem] &&
                isSpinning == old(isSpinning) && buttonEnabled == old(buttonEnabled) &&
                drawn == Rendering(currentItems) && animationId == old(animationId)
    {
      currentItems := currentItems[1..];
      var pool := Pool();
      if currentItems[1] == winningItem {
        StopSpinning();
        return;
      }
      var newItem;
      if !isSpinning || lucky {
        newItem := winningItem;
      } else {
        newItem := pool[pick];
      }
      currentItems := currentItems + [newItem];
      UpdateDisplay();
    }

    /**
     * Starts a spin unless one is running: disables the button, deals a fresh
     * window from the reshuffled pool, draws it, and runs the first tick.
     */
    method StartSpin(draws: seq<nat>, picks: seq<nat>, lucky: bool, pick: nat, handle: Handle)
      requires Valid()
      requires Shuffle.ValidDraws(draws, |Pool()|) && ValidPicks(picks, |Pool()|) && pick < |Pool()|
      modifies this
      ensures Valid()
      ensures old(isSpinning) ==> unchanged(this)
      ensures !old(isSpinning) ==>
                var dealt := Choose(Shuffle.Shuffled(Pool(), draws), picks);
                currentItems == dealt[1..] + [if lucky then winningItem else Pool()[pick]] &&
                AllNonWinning(currentItems[..WindowSize - 1], Pool(), winningItem) &&
                isSpinning && !buttonEnabled && animationId == Some(handle) &&
                drawn == Rendering(currentItems)
    {
      if isSpinning {
        return;
      }
      isSpinning := true;
      buttonEnabled := false;
      // Resetting the window repeats initialize_display.
      InitializeDisplay(draws, picks);
      AnimateSpin(lucky, pick, handle);
    }

    /** One timer callback: nothing when idle; otherwise a tick, then the next callback is scheduled. */
    method AnimateSpin(lucky: bool, pick: nat, handle: Handle)
      requires Valid() && pick < |Pool()|
      modifies this
      ensures Valid()
      ensures !old(isSpinning) ==> unchanged(this)
      ensures old(isSpinning) ==>
                var t := NextWindow(old(currentItems), winningItem, true, lucky, Pool()[pick]);
                currentItems == t.window && isSpinning == t.Continue? &&
                buttonEnabled == !isSpinning && animationId == Some(handle) &&
                (t.Stop? ==> drawn == old(drawn) && drawn[CentreRow] == DrawRow(CentreRow, winningItem)) &&
                (t.Continue? ==> drawn == Rendering(currentItems))
    {
      if !isSpinning {
        return;
      }
      ShiftItemsUp(lucky, pick);
      animationId := Some(handle);
    }

    /** Ends the spin, re-enables the button, and puts the winner at index 1 if it is not there. */
    method StopSpinning()
      requires |currentItems| >= 2
      modifies this
      ensures !isSpinning && buttonEnabled
      ensures currentItems == old(currentItems)[1 := winningItem]
      ensures old(currentItems)[1] == winningItem ==> currentItems == old(currentItems) && drawn == old(drawn)
      ensures old(currentItems)[1] != winningItem ==> drawn == Rendering(currentItems)
      ensures animationId == old(animationId)
      ensures old(Valid()) ==> Valid()
    {
      isSpinning := false;
      if currentItems[1] != winningItem {
        currentItems := currentItems[1 := winningItem];
        UpdateDisplay();
      }
      buttonEnabled := true;
    }
  }
}
