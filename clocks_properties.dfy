/**
 What one call of `generateOutput` promises about the output it builds, what
 a sequence of ticks keeps invariant, and what the rendering shows.
 */
module ClocksProperties {
  import opened Clocks

  /** The slotted positions are strictly increasing, so slots keep the order,
      and every order entry with a word list gets one. */
  lemma {:induction false} ListedExactly(eq: Equation, n: nat)
    requires n <= |eq.order|
    ensures forall k, k' :: 0 <= k < k' < |Listed(eq, n)| ==> Listed(eq, n)[k] < Listed(eq, n)[k']
    ensures forall j :: 0 <= j < n && eq.order[j].key in eq.lists ==> j in Listed(eq, n)
  {
    if n > 0 {
      ListedExactly(eq, n - 1);
      var before := Listed(eq, n - 1);
      if eq.order[n - 1].key in eq.lists {
        assert Listed(eq, n) == before + [n - 1];
        forall j | 0 <= j < n && eq.order[j].key in eq.lists ensures j in Listed(eq, n) {
          if j < n - 1 {
            assert j in before;
          } else {
            assert Listed(eq, n)[|before|] == j;
          }
        }
      } else {
        assert Listed(eq, n) == before;
      }
    }
  }

  /** The order entries that get a slot, as a set of positions. */
  ghost function ListedSet(eq: Equation, n: nat): set<nat>
    requires n <= |eq.order|
  {
    set j: nat | j < n && eq.order[j].key in eq.lists
  }

  /** There is one slot per order entry that has a word list, no more. */
  lemma {:induction false} ListedCount(eq: Equation, n: nat)
    requires n <= |eq.order|
    ensures |Listed(eq, n)| == |ListedSet(eq, n)|
  {
    if n > 0 {
      ListedCount(eq, n - 1);
      var before := ListedSet(eq, n - 1);
      if eq.order[n - 1].key in eq.lists {
        assert ListedSet(eq, n) == before + {n - 1} by {
          forall x: nat ensures x in ListedSet(eq, n) <==> x in before + {n - 1} {
          }
        }
        assert n - 1 !in before;
        assert |before + {n - 1}| == |before| + 1;
        assert Listed(eq, n) == Listed(eq, n - 1) + [n - 1];
      } else {
        assert ListedSet(eq, n) == before by {
          forall x: nat ensures x in ListedSet(eq, n) <==> x in before {
          }
        }
        assert Listed(eq, n) == Listed(eq, n - 1);
      }
    }
  }

  /** The prefix part comes first; then the slots follow the order, one per
      entry with a word list, each carrying its entry's key. */
  lemma OutputFollowsOrder(eq: Equation, prev: Output, draws: nat -> Draw)
    ensures Generate(eq, prev, draws).parts[0] == Part("prefix", eq.prefix, None, Unset)
    ensures |Generate(eq, prev, draws).parts| == 1 + |ListedSet(eq, |eq.order|)|
    ensures forall k :: 0 <= k < |Slotted(eq)| ==>
      Generate(eq, prev, draws).parts[k + 1].key == eq.order[Slotted(eq)[k]].key
  {
    ListedCount(eq, |eq.order|);
    var out := Generate(eq, prev, draws);
    var L := Slotted(eq);
    assert out.parts == [PrefixPart(eq)] + Slots(eq, prev, draws, L);
    forall k | 0 <= k < |L| ensures out.parts[k + 1].key == eq.order[L[k]].key {
      assert out.parts[k + 1] == SlotAt(eq, prev, draws, L[k]);
    }
  }

  /** A slot with no previous part, or whose previous part has run out, is
      redrawn: full countdown, full opacity, and a value that is hidden only
      when the entry has odds and the chance draw failed. */
  lemma SlotRedrawn(eq: Equation, prev: Output, draws: nat -> Draw, k: nat)
    requires k < |Slotted(eq)|
    requires var e := eq.order[Slotted(eq)[k]];
      var previous := Lookup(prev.parts, e.key);
      previous.None? || Expired(previous.value)
    ensures var j := Slotted(eq)[k];
      var e := eq.order[j];
      var p := Generate(eq, prev, draws).parts[k + 1];
      && p.key == e.key
      && p.countdown == Some(e.interval)
      && p.fade == Level(1.0)
      && (e.odds <= 0.0 || draws(j).chanceHit ==> p.value == draws(j).word)
      && (e.odds > 0.0 && !draws(j).chanceHit ==> p.value == "")
  {
  }

  lemma RatioBelowOne(x: int, y: int)
    requires 0 <= x < y
    ensures 0.0 <= x as real / y as real < 1.0
  {
  }

  /** A slot whose previous part still has time left keeps that part's key and
      value, counts down by exactly one without going negative, and fades to
      the remaining share of its interval; when the previous countdown was at
      most the interval, that share lies in [0, 1). */
  lemma SlotCountsDown(eq: Equation, prev: Output, draws: nat -> Draw, k: nat, p: Part)
    requires k < |Slotted(eq)|
    requires Lookup(prev.parts, eq.order[Slotted(eq)[k]].key) == Some(p)
    requires !Expired(p)
    ensures var e := eq.order[Slotted(eq)[k]];
      var q := Generate(eq, prev, draws).parts[k + 1];
      && q.key == p.key == e.key
      && q.value == p.value
      && q.countdown == Some(p.countdown.value - 1)
      && q.countdown.value >= 0
      && q.fade == (if e.interval == 0 then NonFinite else Level(q.countdown.value as real / e.interval as real))
      && (p.countdown.value <= e.interval ==> q.fade.Level? && 0.0 <= q.fade.r < 1.0)
  {
    var e := eq.order[Slotted(eq)[k]];
    var i :| FirstWithKey(prev.parts, e.key) == Some(i);
    if p.countdown.value <= e.interval {
      RatioBelowOne(p.countdown.value - 1, e.interval);
    }
  }

  /** The page's first part (the prefix, whose countdown is null) is found
      first by an order entry keyed "prefix", so such a slot is redrawn on
      every tick. */
  lemma PrefixKeyAlwaysRedrawn(eq: Equation, prev: Output, draws: nat -> Draw, k: nat)
    requires k < |Slotted(eq)|
    requires eq.order[Slotted(eq)[k]].key == "prefix"
    requires |prev.parts| > 0 && prev.parts[0].key == "prefix" && prev.parts[0].countdown.None?
    ensures Generate(eq, prev, draws).parts[k + 1].countdown == Some(eq.order[Slotted(eq)[k]].interval)
    ensures Generate(eq, prev, draws).parts[k + 1].fade == Level(1.0)
  {
    assert FirstWithKey(prev.parts, "prefix") == Some(0);
  }

  /** Starting from the empty output, as the page does initially and on
      `toggle`, redraws every slot with its full countdown and opacity. */
  lemma FreshStartRedrawsAll(eq: Equation, draws: nat -> Draw)
    ensures forall k :: 0 <= k < |Slotted(eq)| ==>
      && Generate(eq, Empty, draws).parts[k + 1].countdown == Some(eq.order[Slotted(eq)[k]].interval)
      && Generate(eq, Empty, draws).parts[k + 1].fade == Level(1.0)
  {
    var L := Slotted(eq);
    forall k | 0 <= k < |L|
      ensures Generate(eq, Empty, draws).parts[k + 1].countdown == Some(eq.order[L[k]].interval)
      ensures Generate(eq, Empty, draws).parts[k + 1].fade == Level(1.0)
    {
      assert Lookup(Empty.parts, eq.order[L[k]].key) == None;
      assert Generate(eq, Empty, draws).parts[k + 1] == SlotAt(eq, Empty, draws, L[k]);
    }
  }

  /** No two order entries share a key. */
  predicate DistinctKeys(eq: Equation)
  {
    forall a, b :: 0 <= a < b < |eq.order| ==> eq.order[a].key != eq.order[b].key
  }

  /** No order entry has a negative interval. */
  predicate NonNegativeIntervals(eq: Equation)
  {
    forall j :: 0 <= j < |eq.order| ==> eq.order[j].interval >= 0
  }

  /** A slot part within its entry's bounds: its key, a countdown between zero
      and the interval, and an opacity between zero and one. */
  predicate SlotSettled(p: Part, e: Entry)
  {
    && p.key == e.key
    && p.countdown.Some? && 0 <= p.countdown.value <= e.interval
    && p.fade.Level? && 0.0 <= p.fade.r <= 1.0
  }

  /** The shape every output of the page has: the prefix part without a
      countdown, then one settled part per slot. */
  ghost predicate Settled(eq: Equation, out: Output)
  {
    && |out.parts| == 1 + |Slotted(eq)|
    && out.parts[0].countdown.None?
    && forall k :: 0 <= k < |Slotted(eq)| ==> SlotSettled(out.parts[k + 1], eq.order[Slotted(eq)[k]])
  }

  /** The first output of an equation is settled. */
  lemma FreshStartSettled(eq: Equation, draws: nat -> Draw)
    requires NonNegativeIntervals(eq)
    ensures Settled(eq, Generate(eq, Empty, draws))
  {
  }

  lemma SlotStaysSettled(eq: Equation, prev: Output, draws: nat -> Draw, k: nat)
    requires DistinctKeys(eq) && NonNegativeIntervals(eq) && Settled(eq, prev)
    requires k < |Slotted(eq)|
    ensures SlotSettled(Generate(eq, prev, draws).parts[k + 1], eq.order[Slotted(eq)[k]])
  {
    var L := Slotted(eq);
    var e := eq.order[L[k]];
    match FirstWithKey(prev.parts, e.key)
    case None =>
    case Some(i) =>
      var p := prev.parts[i];
      if !Expired(p) {
        assert i != 0;
        var m := i - 1;
        assert SlotSettled(prev.parts[m + 1], eq.order[L[m]]);
        ListedExactly(eq, |eq.order|);
        assert L[m] == L[k];
        SlotCountsDown(eq, prev, draws, k, p);
      }
  }

  /** A tick keeps the output settled: no countdown goes negative or above its
      interval and every opacity stays in [0, 1], provided keys are distinct
      (see DuplicateKeysOverfade for why). */
  lemma TickKeepsSettled(eq: Equation, prev: Output, draws: nat -> Draw)
    requires DistinctKeys(eq) && NonNegativeIntervals(eq) && Settled(eq, prev)
    ensures Settled(eq, Generate(eq, prev, draws))
  {
    forall k | 0 <= k < |Slotted(eq)|
      ensures SlotSettled(Generate(eq, prev, draws).parts[k + 1], eq.order[Slotted(eq)[k]])
    {
      SlotStaysSettled(eq, prev, draws, k);
    }
  }

  /** With two entries sharing a key, the second finds the first one's part,
      counts it down and divides by its own, smaller interval: a countdown of
      4 above the interval 2, and opacity 2. */
  lemma DuplicateKeysOverfade()
    ensures var eq := Equation("", [Entry("a", 0.0, 5), Entry("a", 0.0, 2)], map["a" := ["x"]]);
      var draws := (j: nat) => Draw(true, "x");
      var first := Generate(eq, Empty, draws);
      && Generate(eq, first, draws).parts[2].countdown == Some(4)
      && Generate(eq, first, draws).parts[2].fade == Level(2.0)
  {
    var eq := Equation("", [Entry("a", 0.0, 5), Entry("a", 0.0, 2)], map["a" := ["x"]]);
    var draws := (j: nat) => Draw(true, "x");
    assert Slotted(eq) == [0, 1];
    var first := Generate(eq, Empty, draws);
    assert first.parts[1].countdown == Some(5);
    assert FirstWithKey(first.parts, "a") == Some(1);
  }

  /** The random sources answer honestly: the drawn word is in the slot's list
      (or, for an empty list, nothing is drawn). */
  ghost predicate HonestDraws(eq: Equation, draws: nat -> Draw)
  {
    forall j :: 0 <= j < |eq.order| && eq.order[j].key in eq.lists ==>
      var list := eq.lists[eq.order[j].key];
      draws(j).word in list || (list == [] && draws(j).word == "")
  }

  /** Every part that can be kept is hidden or shows a word of its key's list. */
  ghost predicate WordsDrawn(eq: Equation, out: Output)
  {
    forall i :: 0 <= i < |out.parts| ==>
      var p := out.parts[i];
      p.countdown.None? || p.value == "" || (p.key in eq.lists && p.value in eq.lists[p.key])
  }

  /** Kept words stay words of their lists, whatever the tick keeps or redraws. */
  lemma TickKeepsWordsDrawn(eq: Equation, prev: Output, draws: nat -> Draw)
    requires HonestDraws(eq, draws) && WordsDrawn(eq, prev)
    ensures WordsDrawn(eq, Generate(eq, prev, draws))
  {
    var out := Generate(eq, prev, draws);
    forall i | 0 <= i < |out.parts|
      ensures var p := out.parts[i];
        p.countdown.None? || p.value == "" || (p.key in eq.lists && p.value in eq.lists[p.key])
    {
      if i > 0 {
        var j := Slotted(eq)[i - 1];
        var e := eq.order[j];
        match FirstWithKey(prev.parts, e.key)
        case None =>
        case Some(h) =>
          assert prev.parts[h].key == e.key;
      }
    }
  }

  /** When the last part is hidden, no "." is shown at all. */
  lemma HiddenLastShowsNoDot(out: Output)
    requires |out.parts| > 0 && out.parts[|out.parts| - 1].value == ""
    ensures forall i :: 0 <= i < |Render(out)| && Render(out)[i].Some? ==>
      Render(out)[i].value.text == out.parts[i].value
  {
  }

  /** When the last part shows, it ends with "." and the others show their
      values unchanged. */
  lemma VisibleLastEndsWithDot(out: Output)
    requires |out.parts| > 0 && out.parts[|out.parts| - 1].value != ""
    ensures Render(out)[|out.parts| - 1] ==
      Some(Shown(out.parts[|out.parts| - 1].key, |out.parts| - 1, out.parts[|out.parts| - 1].fade, out.parts[|out.parts| - 1].value + "."))
    ensures forall i :: 0 <= i < |out.parts| - 1 && Render(out)[i].Some? ==>
      Render(out)[i].value.text == out.parts[i].value
  {
  }

  /** The page after `toggle` is settled, and stays settled over any number of
      ticks. */
  lemma {:induction false} RunKeepsSettled(page: Page, ticks: seq<nat -> Draw>)
    requires DistinctKeys(page.equation) && NonNegativeIntervals(page.equation)
    requires Settled(page.equation, page.output)
    ensures Run(page, ticks).equation == page.equation
    ensures Settled(page.equation, Run(page, ticks).output)
    decreases |ticks|
  {
    if ticks != [] {
      TickKeepsSettled(page.equation, page.output, ticks[0]);
      RunKeepsSettled(Tick(page, ticks[0]), ticks[1..]);
    }
  }

  lemma ToggleThenTicksSettled(equations: seq<Equation>, index: nat, draws: nat -> Draw, ticks: seq<nat -> Draw>)
    requires index < |equations|
    requires DistinctKeys(equations[index]) && NonNegativeIntervals(equations[index])
    ensures Run(Toggle(equations, index, draws), ticks).equation == equations[index]
    ensures Settled(equations[index], Run(Toggle(equations, index, draws), ticks).output)
  {
    FreshStartSettled(equations[index], draws);
    RunKeepsSettled(Toggle(equations, index, draws), ticks);
  }
}
