/**
 The generative "clocks" page: an equation is a prefix text followed by slots,
 each slot showing a word drawn from a word list. Every tick the page rebuilds
 its output: a slot whose countdown has run out is redrawn (possibly hidden),
 any other slot keeps its word, counts down by one and fades.

 The two random sources of the page, `chance(odds)` and `randomValue(list)`,
 are not part of this model: their results arrive as a `Draw` per position of
 the equation's order, which makes the update deterministic.
 */
module Clocks {

  datatype Option<T> = None | Some(value: T)

  /** One entry of an equation's order: the key of a word list, the odds that a
      redrawn slot shows a word, and the number of ticks a word stays. */
  datatype Entry = Entry(key: string, odds: real, interval: int)

  /** An equation: its prefix text, the order of its slots, and its word lists
      by key (the page reads a list as `equation[key]`). */
  datatype Equation = Equation(prefix: string, order: seq<Entry>, lists: map<string, seq<string>>)

  /** The `percent` of a part: absent on the prefix part, a number on a slot,
      and not a finite number when a countdown is divided by a zero interval. */
  datatype Fade = Unset | Level(r: real) | NonFinite

  /** A part of the output. `countdown` is the part's `interval` field, which is
      `null` on the prefix part. */
  datatype Part = Part(key: string, value: string, countdown: Option<int>, fade: Fade)

  datatype Output = Output(parts: seq<Part>)

  /** What the random sources answer for one slot: whether `chance(odds)`
      succeeded, and the word `randomValue(list)` returned. */
  datatype Draw = Draw(chanceHit: bool, word: string)

  /** The output the page starts from when it has none (`{ parts: [] }`). */
  const Empty: Output := Output([])

  /** The first part of every output. */
  function PrefixPart(eq: Equation): Part
  {
    Part("prefix", eq.prefix, None, Unset)
  }

  /** A previous part must be redrawn when its countdown is at most zero; a
      missing countdown compares as zero, so it must be redrawn too. */
  predicate Expired(p: Part)
  {
    p.countdown.None? || p.countdown.value <= 0
  }

  /** The index of the first part carrying `key`, as `parts.find` looks it up. */
  function FirstWithKey(parts: seq<Part>, key: string): (r: Option<nat>)
    ensures r.Some? ==> r.value < |parts| && parts[r.value].key == key
    ensures r.Some? ==> forall h :: 0 <= h < r.value ==> parts[h].key != key
    ensures r.None? ==> forall h :: 0 <= h < |parts| ==> parts[h].key != key
  {
    if |parts| == 0 then None
    else if parts[0].key == key then Some(0)
    else match FirstWithKey(parts[1..], key)
      case None => None
      case Some(i) => Some(i + 1)
  }

  /** The previous part of a slot, if any. */
  function Lookup(parts: seq<Part>, key: string): Option<Part>
  {
    match FirstWithKey(parts, key)
    case None => None
    case Some(i) => Some(parts[i])
  }

  /** The new part for one order entry, given the previous part with its key
      and the draw for its position. */
  function NextPart(e: Entry, previous: Option<Part>, d: Draw): Part
  {
    if previous.None? || Expired(previous.value) then
      Part(e.key, if e.odds > 0.0 && !d.chanceHit then "" else d.word, Some(e.interval), Level(1.0))
    else
      var remaining := previous.value.countdown.value - 1;
      previous.value.(countdown := Some(remaining),
                      fade := if e.interval == 0 then NonFinite else Level(remaining as real / e.interval as real))
  }

  /** The positions among the first `n` order entries whose key has a word
      list, in increasing order: the entries that get a slot. */
  function Listed(eq: Equation, n: nat): (r: seq<nat>)
    requires n <= |eq.order|
    ensures forall k :: 0 <= k < |r| ==> r[k] < n && eq.order[r[k]].key in eq.lists
  {
    if n == 0 then []
    else if eq.order[n - 1].key in eq.lists then Listed(eq, n - 1) + [n - 1]
    else Listed(eq, n - 1)
  }

  /** The slots of the whole order. */
  function Slotted(eq: Equation): seq<nat>
  {
    Listed(eq, |eq.order|)
  }

  /** The new part for the order entry at position `j`. */
  function SlotAt(eq: Equation, prev: Output, draws: nat -> Draw, j: nat): Part
    requires j < |eq.order|
  {
    NextPart(eq.order[j], Lookup(prev.parts, eq.order[j].key), draws(j))
  }

  function Slots(eq: Equation, prev: Output, draws: nat -> Draw, positions: seq<nat>): seq<Part>
    requires forall k :: 0 <= k < |positions| ==> positions[k] < |eq.order|
  {
    seq(|positions|, k requires 0 <= k < |positions| => SlotAt(eq, prev, draws, positions[k]))
  }

  lemma SlotsAppend(eq: Equation, prev: Output, draws: nat -> Draw, positions: seq<nat>, j: nat)
    requires forall k :: 0 <= k < |positions| ==> positions[k] < |eq.order|
    requires j < |eq.order|
    ensures Slots(eq, prev, draws, positions + [j]) == Slots(eq, prev, draws, positions) + [SlotAt(eq, prev, draws, j)]
  {
  }

  /** The output of one call of `generateOutput`: the prefix part, then one
      part per order entry that has a word list. */
  function Generate(eq: Equation, prev: Output, draws: nat -> Draw): Output
  {
    Output([PrefixPart(eq)] + Slots(eq, prev, draws, Slotted(eq)))
  }

  /** `generateOutput`: builds the new parts one order entry at a time. */
  method GenerateOutput(eq: Equation, prev: Output, draws: nat -> Draw) returns (out: Output)
    ensures out == Generate(eq, prev, draws)
  {
    var parts := [PrefixPart(eq)];
    var i := 0;
    while i < |eq.order|
      invariant 0 <= i <= |eq.order|
      invariant parts == [PrefixPart(eq)] + Slots(eq, prev, draws, Listed(eq, i))
    {
      var e := eq.order[i];
      if e.key in eq.lists {
        // The same rule as NextPart, written out as the loop body does it.
        var part := Lookup(prev.parts, e.key);
        var newPart;
        if part.None? || Expired(part.value) {
          var hidden := e.odds > 0.0 && !draws(i).chanceHit;
          var value := if hidden then "" else draws(i).word;
          newPart := Part(e.key, value, Some(e.interval), Level(1.0));
        } else {
          var newInterval := part.value.countdown.value - 1;
          var percent := if e.interval == 0 then NonFinite else Level(newInterval as real / e.interval as real);
          newPart := part.value.(countdown := Some(newInterval), fade := percent);
        }
        assert newPart == SlotAt(eq, prev, draws, i);
        assert Listed(eq, i + 1) == Listed(eq, i) + [i];
        SlotsAppend(eq, prev, draws, Listed(eq, i), i);
        parts := parts + [newPart];
      } else {
        assert Listed(eq, i + 1) == Listed(eq, i);
      }
      i := i + 1;
    }
    assert Listed(eq, i) == Slotted(eq);
    out := Output(parts);
  }

  /** A part as the page renders it. */
  datatype Shown = Shown(key: string, index: nat, fade: Fade, text: string)

  /** The `parts` map of the page: an empty value renders nothing; the part at
      the last index of the output gets a trailing ".". */
  function Render(out: Output): (r: seq<Option<Shown>>)
    ensures |r| == |out.parts|
    ensures forall i :: 0 <= i < |r| ==> (r[i].None? <==> out.parts[i].value == "")
    ensures forall i :: 0 <= i < |r| && r[i].Some? ==>
      r[i].value.key == out.parts[i].key && r[i].value.index == i && r[i].value.fade == out.parts[i].fade
  {
    seq(|out.parts|, i requires 0 <= i < |out.parts| =>
      var p := out.parts[i];
      if p.value == "" then None
      else Some(Shown(p.key, i, p.fade, p.value + (if i == |out.parts| - 1 then "." else ""))))
  }

  /** The page state: the chosen equation and its current output. */
  datatype Page = Page(equation: Equation, output: Output)

  /** `toggle`: switch to the equation at `index` and start its output afresh. */
  function Toggle(equations: seq<Equation>, index: nat, draws: nat -> Draw): (p: Page)
    requires index < |equations|
    ensures p.equation == equations[index]
    ensures |p.output.parts| == 1 + |Slotted(p.equation)|
    ensures forall k :: 0 <= k < |Slotted(p.equation)| ==>
      var e := p.equation.order[Slotted(p.equation)[k]];
      p.output.parts[k + 1].key == e.key && p.output.parts[k + 1].countdown == Some(e.interval) && p.output.parts[k + 1].fade == Level(1.0)
  {
    Page(equations[index], Generate(equations[index], Empty, draws))
  }

  /** `tick`: rebuild the output of the current equation from the current one. */
  function Tick(page: Page, draws: nat -> Draw): (p: Page)
    ensures p.equation == page.equation
    ensures |p.output.parts| == 1 + |Slotted(page.equation)|
    ensures p.output.parts[0] == Part("prefix", page.equation.prefix, None, Unset)
  {
    page.(output := Generate(page.equation, page.output, draws))
  }

  /** The page after one tick per element of `ticks`, the timer firing once a
      second. */
  function Run(page: Page, ticks: seq<nat -> Draw>): (p: Page)
    ensures p.equation == page.equation
    ensures ticks != [] ==> |p.output.parts| == 1 + |Slotted(page.equation)|
    decreases |ticks|
  {
    if ticks == [] then page else Run(Tick(page, ticks[0]), ticks[1..])
  }
}
