# Clocks: the slot updater of the generative text page

This project models the part of the "clocks" page that decides what text is on
screen. An *equation* has a prefix text, an `order` of entries (key, odds,
interval) and word lists by key. Every second the page rebuilds its *output*
with `generateOutput`:

- the first part is always the prefix;
- then one part per order entry whose key has a word list, in order;
- a slot with no previous part, or whose previous countdown is at most zero,
  is redrawn: a random word, or `""` when the entry has odds and the chance
  draw fails; its countdown becomes the entry's interval and its opacity 1;
- any other slot keeps its key and word, counts down by one and fades to
  `countdown / interval`.

The page then renders every part with a non-empty value, and puts a "." after
the part at the last index. `toggle` switches equation and starts its output
from the empty one.

Files:

- `clocks.dfy` (module `Clocks`): the data model; `GenerateOutput`, the
  imperative loop, proved equal to the specification function `Generate`;
  the lookup `FirstWithKey` (`parts.find`); `Listed`, the order positions that
  get a slot; `Render`; `Toggle`, `Tick` and `Run` (a sequence of ticks).
- `clocks_properties.dfy` (module `ClocksProperties`): what one call promises
  about each slot, the invariant a sequence of ticks keeps, and what the
  rendering shows.

Modelling choices:

- The random sources `chance(odds)` and `randomValue(list)` are oracle inputs:
  a `Draw(chanceHit, word)` for each position of the order. `chance` is only
  consulted when the odds are positive, as the `&&` in the source does.
- The JavaScript `null` interval of the prefix part is `countdown == None`.
  JavaScript evaluates `null <= 0` as true, so a previous part without a
  countdown is treated as run out (`Expired`).
- `percent` is a `Fade`: `Unset` on the prefix part (the source gives it no
  `percent`), `Level(r)` with an exact `real`, and `NonFinite` for a
  countdown divided by a zero interval (JavaScript's `Infinity` or `NaN`).
- The bounds on countdowns and opacities need distinct keys in the order;
  see "## Findings".

## Model

| member | source | states |
|---|---|---|
| `Clocks.GenerateOutput` | src/pages/clocks.js:144-180 | the loop over the order builds exactly the output `Generate` specifies: the prefix part, then the new part of every order entry that has a word list, in order |
| `Clocks.FirstWithKey` | src/pages/clocks.js:154 | the lookup finds the first previous part carrying the key, and finds nothing only when no part carries it |
| `Clocks.Listed` | src/pages/clocks.js:149-152 | every slotted position is an order entry whose key has a word list |
| `ClocksProperties.ListedExactly` | src/pages/clocks.js:149-152 | the slotted positions are strictly increasing, so slots keep the order, and every order entry with a word list gets one |
| `ClocksProperties.ListedCount` | src/pages/clocks.js:149-152 | the number of slots equals the number of order entries that have a word list |
| `ClocksProperties.OutputFollowsOrder` | src/pages/clocks.js:145-152 | the first part is the prefix with a null interval and no percent; the output has one part more than there are entries with word lists; slot k carries the key of the k-th such entry |
| `ClocksProperties.SlotRedrawn` | src/pages/clocks.js:156-166 | through `NextPart`, a slot with no previous part or a run-out one gets the entry's key, countdown equal to the interval, opacity 1, and the drawn word unless the odds are positive and the chance draw failed, in which case it is hidden |
| `ClocksProperties.SlotCountsDown` | src/pages/clocks.js:167-174 | through `NextPart`, a slot whose previous countdown is positive keeps that part's key and word, counts down by exactly one (never below zero) and fades to remaining/interval, which lies in [0, 1) when the previous countdown was at most the interval |
| `ClocksProperties.PrefixKeyAlwaysRedrawn` | src/pages/clocks.js:146-158 | an order entry keyed "prefix" finds the prefix part first, whose null interval counts as run out, so it is redrawn on every tick |
| `ClocksProperties.FreshStartRedrawsAll` | src/pages/clocks.js:139-144 | from the empty output every slot is redrawn with its full interval and opacity 1 |
| `ClocksProperties.FreshStartSettled` | src/pages/clocks.js:158-166 | with non-negative intervals the first output is settled: every countdown within [0, interval], every opacity within [0, 1] |
| `ClocksProperties.TickKeepsSettled` | src/pages/clocks.js:154-176 | with distinct keys and non-negative intervals a tick keeps the output settled: countdowns never negative nor above the interval, opacities within [0, 1] |
| `ClocksProperties.DuplicateKeysOverfade` | src/pages/clocks.js:154-172 | with two entries sharing a key (intervals 5 then 2) the second slot has countdown 4 and opacity 2 after one tick, so the bounds need distinct keys |
| `ClocksProperties.TickKeepsWordsDrawn` | src/pages/clocks.js:159-173 | when the random sources answer with words of the slot's list, every kept part stays hidden or shows a word of its key's list |
| `Clocks.Render` | src/pages/clocks.js:200-209 | rendering yields one cell per part, empty exactly when the part's value is empty, carrying the part's key, index and opacity |
| `ClocksProperties.HiddenLastShowsNoDot` | src/pages/clocks.js:202-206 | when the last part is hidden, no shown text gets a "." |
| `ClocksProperties.VisibleLastEndsWithDot` | src/pages/clocks.js:200-207 | when the last part shows, its text is its value followed by "." and every other shown text is its value alone |
| `Clocks.Toggle` | src/pages/clocks.js:194-198 | toggling selects the equation at the index and redraws every slot with its full interval and opacity 1 |
| `Clocks.Tick` | src/pages/clocks.js:182-185 | a tick keeps the equation and rebuilds the output from the current one: the prefix part first, then one part per entry with a word list |
| `Clocks.Run` | src/pages/clocks.js:187-192 | the timer firing any number of times never changes the equation, and after at least one firing the output has one part per slot after the prefix |
| `ClocksProperties.RunKeepsSettled` | src/pages/clocks.js:182-192 | any number of ticks keeps the equation and keeps a settled output settled |
| `ClocksProperties.ToggleThenTicksSettled` | src/pages/clocks.js:194-198 | after a toggle to an equation with distinct keys and non-negative intervals, the output is settled after any number of ticks |

## Findings

| source | as written | input that shows it | evidently intended | confidence | as-written member | corrected member |
|---|---|---|---|---|---|---|
| src/pages/clocks.js:154-172 | `find` returns the first previous part with the key, so two order entries sharing a key both count down the first entry's part and divide by their own interval | order `[{a, interval 5}, {a, interval 2}]`: on the second tick the second slot has countdown 4, above its interval 2, and opacity 2 | every slot keeps a countdown within [0, interval] and an opacity within [0, 1], which holds when the keys of an order are distinct | low: depends on whether any equation repeats a key; not executed | `ClocksProperties.DuplicateKeysOverfade` | `ClocksProperties.TickKeepsSettled` |

## Left out

- The random sources `chance` and `randomValue` (src/utils/chance and src/utils/array) are not part of this model; their answers are inputs.
- React state, `useCallback`/`useEffect` and the one-second `setInterval` scheduling: a sequence of ticks is modelled by `Run`.
- The styled components, the `IndexMap` grid layout, the grid size and the toggle buttons' markup. `IndexMap` has entries for indexes 0 to 5 only (src/pages/clocks.js:12-19) and each shown part reads `IndexMap[index].row`, so a shown part at index 6 or more would fail to render; `Render` accepts outputs of any length.
- The `Equations` data (src/data/clocks) is not part of this model; any equation is allowed.
- The source reads a word list as `equation[key]` on the equation object itself, so the keys "prefix" and "order" would read those fields instead of a list; the model keeps word lists in their own map.
- Floating-point `percent`: the model divides exactly in `real`, and a division by a zero interval is only marked `NonFinite`.
- Missing or non-numeric `odds` and `interval` fields: odds are reals and intervals integers.
- The circadian clock page (src/pages/circadian-clock.js) and the image export (src/components/Export.js): DOM, audio and animation code with no logic of this kind.
