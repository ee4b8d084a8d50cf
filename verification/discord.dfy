/** Grouping embeds into Discord messages, under two limits at once. */
module Discord {
  import opened Core
  import opened Packing

  const MAX_EMBEDS: int := 10
  const MAX_MESSAGE: int := 5800

  /** Length in UTF-16 code units. */
  function Utf16Len(s: string): nat {
    if s == "" then 0 else Utf16Len(s[..|s| - 1]) + if s[|s| - 1] as int >= 0x10000 then 2 else 1
  }

  /** The measure Pack is used with, so its results hold for Discord and Telegram texts. */
  lemma {:induction false} Utf16LenAdds(a: string, b: string)
    ensures Utf16Len(a + b) == Utf16Len(a) + Utf16Len(b)
  {
    if b == "" {
      assert a + b == a;
    } else {
      assert (a + b)[..|a + b| - 1] == a + b[..|b| - 1];
      Utf16LenAdds(a, b[..|b| - 1]);
    }
  }

  lemma Utf16LenIsAdditive()
    ensures Additive(Utf16Len)
  {
    forall a, b ensures Utf16Len(a + b) == Utf16Len(a) + Utf16Len(b) { Utf16LenAdds(a, b); }
  }

  /** How many characters of the text need two units: those outside the basic plane. */
  function Wide(s: string): nat {
    |set i | 0 <= i < |s| && 0xFFFF < s[i] as int|
  }

  lemma {:induction false} UnitsCounted(s: string)
    ensures Utf16Len(s) == |s| + Wide(s)
  {
    var wide := set i | 0 <= i < |s| && 0xFFFF < s[i] as int;
    if s == "" {
      assert wide == {};
    } else {
      var n := |s| - 1;
      UnitsCounted(s[..n]);
      var before := set i | 0 <= i < |s[..n]| && 0xFFFF < s[..n][i] as int;
      assert wide == before + (if 0xFFFF < s[n] as int then {n} else {});
    }
  }

  /** Colour and timestamp do not count. */
  datatype Embed = Embed(title: string, description: string, footer: Option<string>)

  function Size(e: Embed): nat {
    Utf16Len(e.title) + Utf16Len(e.description) + match e.footer case None => 0 case Some(f) => Utf16Len(f)
  }

  /** An embed is as long as its title, description and footer written one after the other. */
  lemma SizeIsTextLength(e: Embed)
    ensures Size(e) == Utf16Len(e.title + e.description + match e.footer case None => "" case Some(f) => f)
  {
    Utf16LenAdds(e.title, e.description);
    Utf16LenAdds(e.title + e.description, match e.footer case None => "" case Some(f) => f);
  }

  function Total(es: seq<Embed>): nat {
    if es == [] then 0 else Total(es[..|es| - 1]) + Size(es[|es| - 1])
  }

  function Flatten(ms: seq<seq<Embed>>): seq<Embed> {
    if ms == [] then [] else Flatten(ms[..|ms| - 1]) + ms[|ms| - 1]
  }

  predicate WithinLimits(es: seq<Embed>) { |es| <= 10 && Total(es) <= 5800 }

  function Limits(embeds: seq<Embed>): (int, int) -> bool {
    (i: int, j: int) => 0 <= i < j <= |embeds| && WithinLimits(embeds[i..j])
  }

  lemma {:induction false} TotalConcat(a: seq<Embed>, b: seq<Embed>)
    ensures Total(a + b) == Total(a) + Total(b)
  {
    if b == [] {
      assert a + b == a;
    } else {
      assert (a + b)[..|a + b| - 1] == a + b[..|b| - 1];
      TotalConcat(a, b[..|b| - 1]);
    }
  }

  lemma PartTotal(embeds: seq<Embed>, i: int, i': int, j': int, j: int)
    requires 0 <= i <= i' <= j' <= j <= |embeds|
    ensures Total(embeds[i'..j']) <= Total(embeds[i..j])
  {
    hide Total;
    assert embeds[i..j] == embeds[i..i'] + (embeds[i'..j'] + embeds[j'..j]);
    TotalConcat(embeds[i..i'], embeds[i'..j'] + embeds[j'..j]);
    TotalConcat(embeds[i'..j'], embeds[j'..j]);
  }

  lemma LimitsShrink(embeds: seq<Embed>)
    ensures Shrinks(Limits(embeds), |embeds|)
  {
    hide Total;
    forall i, j, i', j' | 0 <= i <= i' < j' <= j <= |embeds| && Limits(embeds)(i, j) ensures Limits(embeds)(i', j') {
      PartTotal(embeds, i, i', j', j);
    }
  }

  /** The messages hold the embeds in order, cut where the cuts say. */
  ghost predicate CutsInto(out: seq<seq<Embed>>, embeds: seq<Embed>, cuts: seq<int>) {
    && |cuts| == |out| + 1 && IsSplit(cuts, cuts[|out|]) && 0 <= cuts[|out|] <= |embeds|
    && Flatten(out) == embeds[..cuts[|out|]]
  }

  lemma CloseMessage(out: seq<seq<Embed>>, cur: seq<Embed>, embeds: seq<Embed>, cuts: seq<int>, i: int)
    requires CutsInto(out, embeds, cuts) && cuts[|out|] < i <= |embeds| && cur == embeds[cuts[|out|]..i]
    ensures CutsInto(out + [cur], embeds, cuts + [i])
  {
  }

  lemma OneMoreEmbed(embeds: seq<Embed>, start: int, i: int)
    requires 0 <= start <= i < |embeds|
    ensures embeds[start..i + 1] == embeds[start..i] + [embeds[i]]
    ensures Total(embeds[start..i + 1]) == Total(embeds[start..i]) + Size(embeds[i])
  {
  }

  ghost predicate AllWithinCount(out: seq<seq<Embed>>) { forall m :: m in out ==> 0 < |m| <= 10 }

  ghost predicate AllWithinSize(out: seq<seq<Embed>>) { forall m :: m in out ==> Total(m) <= 5800 }

  ghost predicate EachWithinSize(embeds: seq<Embed>) { forall e :: e in embeds ==> Size(e) <= 5800 }

  method Messages(embeds: seq<Embed>) returns (out: seq<seq<Embed>>, ghost cuts: seq<int>)
    ensures embeds == [] ==> out == [[]]
    ensures Flatten(out) == embeds
    ensures embeds != [] ==> AllWithinCount(out)
    ensures EachWithinSize(embeds) ==> AllWithinSize(out)
    // No other order-preserving grouping within the limits has fewer messages.
    ensures embeds != [] ==> forall other :: Feasible(Limits(embeds), other, |embeds|) ==> |out| <= |other| - 1
  {
    hide CutsInto, ClosedFull, Total, Size, Flatten;
    ghost var fits := Limits(embeds);
    out, cuts := [], [0];
    var cur: seq<Embed> := [];
    var size := 0;
    Start(embeds, fits);
    for i := 0 to |embeds|
      invariant |cuts| == |out| + 1 && 0 <= cuts[|out|] <= i
      invariant CutsInto(out, embeds, cuts) && ClosedFull(cuts, fits)
      invariant cur == embeds[cuts[|out|]..i] && size == Total(cur)
      invariant |cur| <= MAX_EMBEDS && (i > 0 ==> |cur| > 0) && (i == 0 ==> out == [])
      invariant AllWithinCount(out)
      invariant EachWithinSize(embeds) ==> AllWithinSize(out) && size <= MAX_MESSAGE
    {
      var e := embeds[i];
      OneMoreEmbed(embeds, cuts[|out|], i);
      if |cur| > 0 && (|cur| == MAX_EMBEDS || size + Size(e) > MAX_MESSAGE) {
        CloseMessage(out, cur, embeds, cuts, i);
        assert !fits(cuts[|out|], i + 1);
        OneMoreCut(cuts, i, fits);
        out := out + [cur];
        cuts := cuts + [i];
        cur, size := [], 0;
        OneMoreEmbed(embeds, i, i);
        EmptyTotal();
      } else if |cur| == 0 {
        EmptyTotal();
      }
      cur := cur + [e];
      size := size + Size(e);
    }
    Finish(out, cur, embeds, cuts);
    out := out + [cur];
    cuts := cuts + [|embeds|];
  }

  lemma EmptyTotal()
    ensures Total([]) == 0
  {
  }

  lemma Start(embeds: seq<Embed>, fits: (int, int) -> bool)
    ensures CutsInto([], embeds, [0]) && ClosedFull([0], fits) && Total([]) == 0
  {
  }

  lemma Finish(out: seq<seq<Embed>>, cur: seq<Embed>, embeds: seq<Embed>, cuts: seq<int>)
    requires CutsInto(out, embeds, cuts) && ClosedFull(cuts, Limits(embeds)) && cur == embeds[cuts[|out|]..]
    requires embeds != [] ==> |cur| > 0
    requires embeds == [] ==> out == []
    ensures Flatten(out + [cur]) == embeds
    ensures embeds == [] ==> out + [cur] == [[]]
    ensures embeds != [] ==> forall other :: Feasible(Limits(embeds), other, |embeds|) ==> |out| + 1 <= |other| - 1
  {
    assert cuts[|cuts| - 1] == cuts[|out|];
    FlattenLast(out, cur, embeds, cuts[|out|]);
    hide Feasible, Flatten, Limits, ClosedFull;
    if embeds != [] { FewestCuts(cuts, embeds); }
  }

  lemma FlattenLast(out: seq<seq<Embed>>, cur: seq<Embed>, embeds: seq<Embed>, at: int)
    requires 0 <= at <= |embeds| && Flatten(out) == embeds[..at] && cur == embeds[at..]
    ensures Flatten(out + [cur]) == embeds
  {
  }

  lemma FewestCuts(cuts: seq<int>, embeds: seq<Embed>)
    requires |cuts| > 0 && IsSplit(cuts, cuts[|cuts| - 1]) && 0 <= cuts[|cuts| - 1] < |embeds|
    requires ClosedFull(cuts, Limits(embeds))
    ensures forall other :: Feasible(Limits(embeds), other, |embeds|) ==> |cuts| <= |other| - 1
  {
    LastCut(cuts, embeds);
    LimitsShrink(embeds);
    hide Feasible, Limits, ClosedFull, IsSplit, Greedy, Shrinks;
    forall other | Feasible(Limits(embeds), other, |embeds|) ensures |cuts| <= |other| - 1 {
      GreedyIsFewest(Limits(embeds), cuts + [|embeds|], other, |embeds|);
    }
  }

  /** With the last message closed at the end, the cuts are the greedy ones. */
  lemma LastCut(cuts: seq<int>, embeds: seq<Embed>)
    requires |cuts| > 0 && IsSplit(cuts, cuts[|cuts| - 1]) && 0 <= cuts[|cuts| - 1] < |embeds|
    requires ClosedFull(cuts, Limits(embeds))
    ensures IsSplit(cuts + [|embeds|], |embeds|) && Greedy(Limits(embeds), cuts + [|embeds|], |embeds|)
  {
  }
}
