# Vertical roulette — a Dafny model

`roulette.py` draws a column of five weight labels ("+90 kg", "-70 kg", …) that
scrolls upward one row per timer tick until a fixed winning label ("+90 kg")
reaches the centre marker, then halts. This project models the state machine
behind that animation, the `VerticalRoulette` object, and proves what it does.

The model has three files:

- `roulette.dfy`, module `Roulette`:
  - the catalog and winner the program is built with;
  - the non-winning pool (`items_without_winner`);
  - the colour rule and row geometry of `update_display`;
  - a pure description of one tick (`NextWindow`) and of a run of ticks (`TicksToStop`);
  - the class `VerticalRoulette`, with the fields `items`, `winningItem`,
    `currentItems`, `isSpinning`, `animationId`, the button state and the rows
    drawn on the canvas.
- `shuffle.dfy`, module `Shuffle`: `random.shuffle` as an in-place exchange
  loop over an array, the form Python's library uses. The random draws are an
  input.
- `wrappers.dfy`, module `Wrappers`: the `Option` type used for the callback handle.

Every random draw is an explicit input:

- `draws`: the draws of the shuffle;
- `picks` and `pick`: the indices `random.choice` returns;
- `lucky`: stands for `random.random() < 0.1`.

The handle that `root.after` returns is an input too.

The object invariant `VerticalRoulette.Valid` says:

- the window holds five labels, or four after a stop;
- while spinning, index 1 never holds the winner;
- every label is a pool member or the winner;
- the button is enabled exactly when idle;
- the canvas shows the five-label window; after a stop it shows the window
  from before the last shift, one row lower.

Points where the code behaves differently from what one might expect, modelled as the code does it:

- `start_spin` ends by calling `animate_spin`, so one tick has already run
  when it returns (roulette.py:128). The window it leaves has four freshly
  dealt non-winning labels followed by the label of that first tick. That last
  label is the winner when the draw was lucky. The fresh window before that
  tick has five non-winning labels (`FreshWindowAvoidsWinner`).
- The stop branch of `shift_items_up` returns before appending, so the window
  keeps four labels (roulette.py:98-100). `stop_spinning` does not redraw
  either, because index 1 already holds the winner. The canvas therefore keeps
  showing the five rows from before the shift. Its row 2 (y = 250, inside the
  marker band 220–280) shows the winner.
- When the stop happens inside `animate_spin`, `animate_spin` still schedules
  the next callback afterwards (roulette.py:138). After a stop,
  `animationId` therefore holds a fresh handle, and a callback is pending,
  while the roulette is idle. That callback does nothing when it fires,
  unless a new spin was started before it fires: `stop_spinning` re-enables
  the button at once (line 151), so a quick restart lets the leftover
  callback find `is_spinning` true, tick and re-arm itself (lines 131-138).
- The `not self.is_spinning` alternative in `shift_items_up` (line 103) can only
  be taken when the method is called while idle. `animate_spin` never does
  that. The model keeps the branch anyway.
- The two branches of the loop in `initialize_display` (lines 61-64) are
  identical. The model has one statement for both.

## Model

| member | source | states |
|---|---|---|
| `Roulette.NonWinningPool` | roulette.py:55 | a label is in the pool exactly when it is in the catalog and differs from the winner; the pool has every other catalog entry with its multiplicity and no copy of the winner |
| `Roulette.PoolWithoutWinner` | roulette.py:55 | a catalog that does not contain the winner is its own pool, in the same order |
| `Roulette.CatalogPool` | roulette.py:13-19 | with the program's catalog and winner, the pool is the nine other labels in catalog order |
| `Shuffle.ShuffleSteps` | roulette.py:56 | the exchange steps of the shuffle keep the length and the multiset of the pool |
| `Shuffle.Shuffled` | roulette.py:120 | no ensures: the pool after the whole exchange sequence of `random.shuffle`; `ShuffleSteps` and `ShuffledHasSameMembers` state its properties |
| `Shuffle.ShuffledHasSameMembers` | roulette.py:56 | the shuffled pool has the same length and exactly the same members as the pool |
| `Shuffle.ShuffleInPlace` | roulette.py:120 | shuffling the pool array in place leaves the shuffled sequence of the old contents, which is a permutation of them |
| `Shuffle.ShuffleCopy` | roulette.py:55-56 | the list built from the pool and shuffled in place ends up as the shuffled pool, a permutation of it |
| `Roulette.Choose` | roulette.py:123-125 | no ensures: the labels the five `random.choice` indices select from the shuffled pool; `FreshWindowAvoidsWinner` and `SingleLoserWindow` state its properties |
| `Roulette.FreshWindowAvoidsWinner` | roulette.py:59-64 | a window dealt from the shuffled pool has five labels, each a pool member and none the winner |
| `Roulette.SingleLoserWindow` | roulette.py:55-64 | with a catalog of the winner and one other label, the pool is that label and every dealt window is five copies of it |
| `Roulette.LabelColour` | roulette.py:80-83 | no ensures: a label containing '+' is pink, every other blue; `SignedLabelColour` and `CatalogColours` state its properties |
| `Roulette.SignedLabelColour` | roulette.py:80-83 | for a label whose first character is its sign and which has no other '+', the label is pink exactly when the sign is '+' |
| `Roulette.CatalogColours` | roulette.py:80-83 | every catalog label is drawn pink exactly when it starts with '+', and blue otherwise |
| `Roulette.RowY` | roulette.py:77 | no ensures: the y position 130 + 60·i of row i; `OnlyCentreRowInMarker` states its property |
| `Roulette.OnlyCentreRowInMarker` | roulette.py:77 | row i is drawn at y = 130 + 60·i, which lies inside the centre marker band 220–280 (line 39) exactly when i = 2 |
| `Roulette.DrawRow` | roulette.py:77-86 | no ensures: the text item for row i, at `RowY(i)` with the fill string of the label's colour (lines 81, 83) |
| `Roulette.Rendering` | roulette.py:76-86 | no ensures: one `DrawRow` per window label, top to bottom; `CentreOfRendering` states its property and `UpdateDisplay` is proved to produce it |
| `Roulette.CentreOfRendering` | roulette.py:76-86 | in the rendering of a five-label window exactly one row lies in the marker band, row 2, and it shows the label at index 2 |
| `Roulette.NextWindow` | roulette.py:91-108 | no ensures: one `shift_items_up` on the window; `ShiftItemsUp` and `AnimateSpin` are proved against it, and `WinnerInSightStops`, `LuckyDrawStops` and `NoLuckNoStop` state what repeated ticks do |
| `Roulette.TicksToStop` | roulette.py:130-138 | no ensures: the number of ticks of repeated `animate_spin` calls until the stop, or none if the draws run out; `WinnerInSightStops`, `LuckyDrawStops` and `NoLuckNoStop` state its properties |
| `Roulette.WinnerInSightStops` | roulette.py:89-108 | when the winner stands at index j ≥ 2, the spin stops within j − 1 ticks whatever is drawn in the meantime |
| `Roulette.LuckyDrawStops` | roulette.py:103-108 | a lucky draw at tick k makes the spin stop by tick k + 4 at the latest |
| `Roulette.NoLuckNoStop` | roulette.py:98-106 | if no draw is lucky, no fill is the winner and indices 2 to 4 of the window lack the winner, the spin never stops |
| `Roulette.VerticalRoulette.constructor` | roulette.py:6-51 | the new roulette is idle with the button enabled and no pending callback, and its window is five non-winning labels dealt from the shuffled pool and drawn on the canvas |
| `Roulette.VerticalRoulette.InitializeDisplay` | roulette.py:53-66 | the window becomes the five labels the picks select from the shuffled pool, none of them the winner; the canvas shows them; flag, button and handle are unchanged |
| `Roulette.VerticalRoulette.DealWindow` | roulette.py:56-64 | requires the winner not to be in the pool; the window becomes the five labels the picks select from the shuffled pool, each a pool member and none the winner |
| `Roulette.VerticalRoulette.UpdateDisplay` | roulette.py:68-87 | the canvas rows become one row per window label, row i at y = 130 + 60·i in the colour of its label |
| `Roulette.VerticalRoulette.ShiftItemsUp` | roulette.py:89-109 | on window w: if w[2] is the winner, the window becomes w[1..5] (four labels), spinning stops, the button is re-enabled and the canvas is not redrawn, so its centre row shows the winner; otherwise the window becomes w[1..5] plus one label, which is the winner when idle or lucky and the picked pool label otherwise; in that case the flag is unchanged and the canvas is redrawn; the invariant is kept |
| `Roulette.VerticalRoulette.StartSpin` | roulette.py:111-128 | while spinning, nothing changes; otherwise the flag is set, the button is disabled, a fresh non-winning window is dealt and the first tick runs, so the window is the fresh window's last four labels plus the winner (lucky) or the picked label, and the handle is the new callback's |
| `Roulette.VerticalRoulette.AnimateSpin` | roulette.py:130-138 | when idle, nothing changes; otherwise one tick as `NextWindow` describes runs and the handle becomes the new callback's, also when that tick stopped the spin |
| `Roulette.VerticalRoulette.StopSpinning` | roulette.py:140-151 | spinning is false and the button enabled; index 1 becomes the winner and every other index is unchanged; the canvas is redrawn only if index 1 changed; the handle is unchanged; the invariant is kept |

## Left out

- Tk widgets, frames, fonts, the window title and geometry, and the marker
  rectangle's drawing. They are user interface only. The canvas is modelled as
  the list of text rows (y, text, fill colour). Widget identifiers and the x
  position are left out.
- `root.after` scheduling, `root.after_cancel` and the Tk main loop: these are
  event-loop plumbing. The handle that `root.after` returns is a parameter. The
  cancellation in `stop_spinning` (line 144) has no effect on the model's state.
- Callbacks that stack up after a quick restart. If `start_spin` runs before
  the callback left pending by a stop fires, two callback chains tick the same
  window, so it moves twice per period. The model has one `animationId` and no
  queue of pending callbacks, so it does not capture this.
- The `random` module, the probability 0.1 and whether a spin terminates. The
  draws are inputs. `LuckyDrawStops` and `NoLuckNoStop` say what the draws
  decide.
- The unused `import time` and the unused `item_to_remove` variable.
- `Roulette.VerticalRoulette.constructor` takes the catalog and the winner as
  parameters and requires a non-empty non-winning pool. With an empty pool,
  `random.choice` would raise. The program's own catalog always gives a pool of
  nine (`CatalogPool`).
- `Roulette.VerticalRoulette.ShiftItemsUp` requires a five-label window. That is
  the only window length `animate_spin` calls it with. The code would also run
  on any window of three or more labels.
- `Roulette.VerticalRoulette.StopSpinning` requires at least two labels, as
  indexing `current_items[1]` does.
