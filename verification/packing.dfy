/** Packing rendered changes into as few message parts as possible. */
module Packing {
  // ----- greedy splitting in general -------------------------------------------------------

  /** Ways to cut 0..n into consecutive non-empty pieces. */
  ghost predicate IsSplit(cuts: seq<int>, n: int) {
    && |cuts| > 0 && cuts[0] == 0 && cuts[|cuts| - 1] == n
    && forall i, j :: 0 <= i < j < |cuts| ==> cuts[i] < cuts[j]
  }

  /** A part of what fits, fits. */
  ghost predicate Shrinks(fits: (int, int) -> bool, n: int) {
    forall i, j, i', j' :: 0 <= i <= i' < j' <= j <= n && fits(i, j) ==> fits(i', j')
  }

  ghost predicate Feasible(fits: (int, int) -> bool, cuts: seq<int>, n: int) {
    IsSplit(cuts, n) && forall k :: 0 <= k < |cuts| - 1 ==> fits(cuts[k], cuts[k + 1])
  }

  /** Every piece but the last would no longer fit with one more element. */
  ghost predicate Greedy(fits: (int, int) -> bool, cuts: seq<int>, n: int) {
    IsSplit(cuts, n) && forall k :: 0 <= k < |cuts| - 2 ==> !fits(cuts[k], cuts[k + 1] + 1)
  }

  lemma AheadStep(fits: (int, int) -> bool, n: int, c: int, c': int, g: int, g': int)
    requires Shrinks(fits, n) && 0 <= c <= g < g' && c < c' <= n && fits(c, c')
    requires g' < n ==> !fits(g, g' + 1)
    ensures c' <= g' || n <= g'
  {
  }

  lemma {:induction false} GreedyStaysAhead(fits: (int, int) -> bool, greedy: seq<int>, other: seq<int>, n: int, k: int)
    requires Shrinks(fits, n) && Greedy(fits, greedy, n) && Feasible(fits, other, n)
    requires 0 <= k < |greedy| && k < |other|
    ensures other[k] <= greedy[k]
  {
    SplitWithin(greedy, n, k);
    SplitWithin(other, n, k);
    if k > 0 {
      SplitWithin(other, n, k - 1);
      GreedyStaysAhead(fits, greedy, other, n, k - 1);
      AheadStep(fits, n, other[k - 1], other[k], greedy[k - 1], greedy[k]);
    }
  }

  lemma SplitWithin(cuts: seq<int>, n: int, k: int)
    requires IsSplit(cuts, n) && 0 <= k < |cuts|
    ensures 0 <= cuts[k] <= n
    ensures cuts[k] == n ==> k == |cuts| - 1
  {
  }

  /** No split into pieces that fit has fewer pieces than the greedy one. */
  lemma GreedyIsFewest(fits: (int, int) -> bool, greedy: seq<int>, other: seq<int>, n: int)
    requires Shrinks(fits, n) && Greedy(fits, greedy, n) && Feasible(fits, other, n)
    ensures |greedy| <= |other|
  {
    if |other| <= |greedy| {
      GreedyStaysAhead(fits, greedy, other, n, |other| - 1);
      SplitWithin(greedy, n, |other| - 1);
    }
  }

  // ----- blocks under headings ----------------------------------------------------------------

  /** One change as rendered text, grouped under a target heading. */
  datatype Block = Block(group: string, text: string)

  ghost predicate Additive(size: string -> nat) {
    forall a, b :: size(a + b) == size(a) + size(b)
  }

  /** A chunk of blocks i..j: the first has its heading, later ones only where the group changes. */
  function Render(blocks: seq<Block>, heading: string -> string, i: int, j: int): string
    requires 0 <= i < j <= |blocks|
    decreases j - i
  {
    if j == i + 1 then heading(blocks[i].group) + blocks[i].text
    else Render(blocks, heading, i, j - 1) + Addition(blocks, heading, j - 1)
  }

  /** What block j adds to a chunk that already holds the one before it. */
  function Addition(blocks: seq<Block>, heading: string -> string, j: int): string
    requires 0 < j < |blocks|
  {
    if blocks[j].group != blocks[j - 1].group then heading(blocks[j].group) + blocks[j].text else blocks[j].text
  }

  function WithinBudget(
    blocks: seq<Block>, heading: string -> string, budget: int, size: string -> nat): (int, int) -> bool {
    (i: int, j: int) => 0 <= i < j <= |blocks| && size(Render(blocks, heading, i, j)) <= budget
  }

  lemma OneMoreBlock(blocks: seq<Block>, heading: string -> string, size: string -> nat, i: int, j: int)
    requires Additive(size) && 0 <= i < j < |blocks|
    ensures size(Render(blocks, heading, i, j + 1)) ==
      size(Render(blocks, heading, i, j)) + size(Addition(blocks, heading, j))
  {
  }

  lemma OneBlock(blocks: seq<Block>, heading: string -> string, size: string -> nat, i: int)
    requires Additive(size) && 0 <= i < |blocks|
    ensures size(Render(blocks, heading, i, i + 1)) == size(heading(blocks[i].group)) + size(blocks[i].text)
    ensures i > 0 ==>
      var repeated := if blocks[i].group != blocks[i - 1].group then size(heading(blocks[i].group)) else 0;
      size(Addition(blocks, heading, i)) == repeated + size(blocks[i].text)
  {
  }

  /** Dropping the first block repeats a heading at most once, in place of one that was there. */
  lemma {:induction false} DropFirst(blocks: seq<Block>, heading: string -> string, size: string -> nat, i: int, j: int)
    requires Additive(size) && 0 <= i && i + 1 < j <= |blocks|
    ensures size(Render(blocks, heading, i + 1, j)) <= size(Render(blocks, heading, i, j))
    decreases j - i
  {
    hide Additive, Render, Addition;
    OneMoreBlock(blocks, heading, size, i, j - 1);
    if j == i + 2 {
      OneBlock(blocks, heading, size, i);
      OneBlock(blocks, heading, size, i + 1);
    } else {
      OneMoreBlock(blocks, heading, size, i + 1, j - 1);
      DropFirst(blocks, heading, size, i, j - 1);
    }
  }

  lemma {:induction false} PartIsSmaller(
    blocks: seq<Block>, heading: string -> string, size: string -> nat, i: int, j: int, i': int, j': int)
    requires Additive(size) && 0 <= i <= i' < j' <= j <= |blocks|
    ensures size(Render(blocks, heading, i', j')) <= size(Render(blocks, heading, i, j))
    decreases j - i
  {
    hide Additive, Render, Addition;
    if i < i' {
      PartIsSmaller(blocks, heading, size, i + 1, j, i', j');
      DropFirst(blocks, heading, size, i, j);
    } else if j' < j {
      PartIsSmaller(blocks, heading, size, i, j - 1, i', j');
      OneMoreBlock(blocks, heading, size, i, j - 1);
    }
  }

  lemma BudgetShrinks(blocks: seq<Block>, heading: string -> string, budget: int, size: string -> nat)
    requires Additive(size)
    ensures Shrinks(WithinBudget(blocks, heading, budget, size), |blocks|)
  {
    forall i, j, i', j' | 0 <= i <= i' < j' <= j <= |blocks| && WithinBudget(blocks, heading, budget, size)(i, j)
      ensures WithinBudget(blocks, heading, budget, size)(i', j')
    {
      PartIsSmaller(blocks, heading, size, i, j, i', j');
    }
  }

  ghost predicate IsPiece(chunk: string, blocks: seq<Block>, heading: string -> string, i: int, j: int) {
    0 <= i < j <= |blocks| && chunk == Render(blocks, heading, i, j)
  }

  /** The chunks are exactly the rendered pieces that the cuts mark off. */
  ghost predicate RendersAs(chunks: seq<string>, blocks: seq<Block>, heading: string -> string, cuts: seq<int>) {
    && |cuts| == |chunks| + 1
    && IsSplit(cuts, cuts[|chunks|])
    && forall k {:trigger chunks[k]} :: 0 <= k < |chunks| ==> IsPiece(chunks[k], blocks, heading, cuts[k], cuts[k + 1])
  }

  /** No closed piece would have taken the next block too. */
  ghost predicate ClosedFull(cuts: seq<int>, fits: (int, int) -> bool) {
    forall k {:trigger cuts[k]} :: 0 <= k < |cuts| - 1 ==> !fits(cuts[k], cuts[k + 1] + 1)
  }

  ghost predicate ClosedFit(cuts: seq<int>, fits: (int, int) -> bool) {
    forall k {:trigger cuts[k]} :: 0 <= k < |cuts| - 1 ==> fits(cuts[k], cuts[k + 1])
  }

  lemma CloseChunk(
    chunks: seq<string>, b: string, blocks: seq<Block>, heading: string -> string, cuts: seq<int>, i: int,
    fits: (int, int) -> bool)
    requires RendersAs(chunks, blocks, heading, cuts) && IsPiece(b, blocks, heading, cuts[|chunks|], i)
    ensures RendersAs(chunks + [b], blocks, heading, cuts + [i])
    ensures ClosedFull(cuts, fits) && !fits(cuts[|chunks|], i + 1) ==> ClosedFull(cuts + [i], fits)
    ensures ClosedFit(cuts, fits) && fits(cuts[|chunks|], i) ==> ClosedFit(cuts + [i], fits)
  {
    assert |cuts| == |chunks| + 1;
    hide RendersAs, ClosedFull, ClosedFit;
    OneMorePiece(chunks, b, blocks, heading, cuts, i);
    OneMoreCut(cuts, i, fits);
  }

  lemma OneMorePiece(
    chunks: seq<string>, b: string, blocks: seq<Block>, heading: string -> string, cuts: seq<int>, i: int)
    requires RendersAs(chunks, blocks, heading, cuts) && IsPiece(b, blocks, heading, cuts[|chunks|], i)
    ensures RendersAs(chunks + [b], blocks, heading, cuts + [i])
  {
  }

  lemma OneMoreCut(cuts: seq<int>, i: int, fits: (int, int) -> bool)
    requires |cuts| > 0
    ensures ClosedFull(cuts, fits) && !fits(cuts[|cuts| - 1], i + 1) ==> ClosedFull(cuts + [i], fits)
    ensures ClosedFit(cuts, fits) && fits(cuts[|cuts| - 1], i) ==> ClosedFit(cuts + [i], fits)
  {
  }

  /** What block i is rendered as before it is known whether it fits: its group against the last block's. */
  function Text(blocks: seq<Block>, heading: string -> string, i: int): string
    requires 0 <= i < |blocks|
  {
    if i == 0 then heading(blocks[0].group) + blocks[0].text else Addition(blocks, heading, i)
  }

  /** The open chunk holds the blocks from start up to i. */
  ghost predicate Open(b: string, blocks: seq<Block>, heading: string -> string, start: int, i: int) {
    if i == 0 then start == 0 && b == "" else IsPiece(b, blocks, heading, start, i)
  }

  /** The open chunk takes block i, and fits if it did with room for it. */
  lemma Extend(
    b: string, blocks: seq<Block>, heading: string -> string, budget: int, size: string -> nat, start: int, i: int)
    requires Additive(size) && 0 <= i < |blocks| && Open(b, blocks, heading, start, i)
    ensures Open(b + Text(blocks, heading, i), blocks, heading, start, i + 1)
    ensures WithinBudget(blocks, heading, budget, size)(start, i + 1) <==>
      size(b) + size(Text(blocks, heading, i)) <= budget
  {
    var text := Text(blocks, heading, i);
    assert size(b + text) == size(b) + size(text);
    assert b + text == Render(blocks, heading, start, i + 1);
  }

  lemma Fresh(blocks: seq<Block>, heading: string -> string, budget: int, size: string -> nat, i: int)
    requires 0 <= i < |blocks|
    ensures
      var own := heading(blocks[i].group) + blocks[i].text;
      Open(own, blocks, heading, i, i + 1) &&
        (WithinBudget(blocks, heading, budget, size)(i, i + 1) <==> size(own) <= budget)
  {
    assert Render(blocks, heading, i, i + 1) == heading(blocks[i].group) + blocks[i].text;
  }

  lemma OpenNotEmpty(b: string, blocks: seq<Block>, heading: string -> string, start: int, i: int)
    requires 0 <= i <= |blocks| && Open(b, blocks, heading, start, i)
    requires forall x :: x in blocks ==> x.text != ""
    ensures |b| > 0 <==> i > 0
  {
  }

  ghost predicate EachFits(blocks: seq<Block>, heading: string -> string, budget: int, size: string -> nat) {
    forall i :: 0 <= i < |blocks| ==> size(heading(blocks[i].group) + blocks[i].text) <= budget
  }

  lemma TextOf(blocks: seq<Block>, heading: string -> string, i: int)
    requires 0 <= i < |blocks| && forall x :: x in blocks ==> x.group != ""
    ensures
      var previous := if i == 0 then "" else blocks[i - 1].group;
      Text(blocks, heading, i) ==
        if blocks[i].group != previous then heading(blocks[i].group) + blocks[i].text else blocks[i].text
  {
  }

  /**
   * Joins blocks into chunks, repeating a group's heading when the group
   * continues in the next chunk. The cuts say which blocks went where.
   */
  method Pack(blocks: seq<Block>, heading: string -> string, budget: int, size: string -> nat)
    returns (chunks: seq<string>, ghost cuts: seq<int>)
    requires Additive(size)
    requires forall b :: b in blocks ==> b.group != "" && b.text != ""
    ensures blocks == [] ==> chunks == [""]
    // In order, each block exactly once, each chunk under its first block's heading.
    ensures blocks != [] ==> RendersAs(chunks, blocks, heading, cuts) && IsSplit(cuts, |blocks|)
    ensures blocks != [] && EachFits(blocks, heading, budget, size) ==>
      forall k :: 0 <= k < |chunks| ==> size(chunks[k]) <= budget
    // No other order-preserving split that fits has fewer chunks.
    ensures blocks != [] ==>
      forall other :: Feasible(WithinBudget(blocks, heading, budget, size), other, |blocks|) ==> |chunks| <= |other| - 1
  {
    hide Additive, Open, IsPiece, RendersAs, ClosedFull, ClosedFit, Text, Render, Addition;
    ghost var fits := WithinBudget(blocks, heading, budget, size);
    chunks, cuts := [], [0];
    var b := "";
    var group := "";
    PackStart(blocks, heading, fits);
    for i := 0 to |blocks|
      invariant |cuts| == |chunks| + 1 && (i == 0 ==> chunks == [])
      invariant RendersAs(chunks, blocks, heading, cuts) && ClosedFull(cuts, fits)
      invariant Open(b, blocks, heading, cuts[|chunks|], i)
      invariant EachFits(blocks, heading, budget, size) ==> ClosedFit(cuts, fits) && (i > 0 ==> fits(cuts[|chunks|], i))
      invariant group == if i == 0 then "" else blocks[i - 1].group
    {
      var bl := blocks[i];
      var text := bl.text;
      if bl.group != group { text := heading(bl.group) + text; }
      TextOf(blocks, heading, i);
      OpenNotEmpty(b, blocks, heading, cuts[|chunks|], i);
      Extend(b, blocks, heading, budget, size, cuts[|chunks|], i);
      Fresh(blocks, heading, budget, size, i);
      if |b| > 0 && size(b) + size(text) > budget {
        OpenIsPiece(b, blocks, heading, cuts[|chunks|], i);
        CloseChunk(chunks, b, blocks, heading, cuts, i, fits);
        chunks := chunks + [b];
        cuts := cuts + [i];
        b := "";
        text := heading(bl.group) + bl.text;
        assert b + text == text;
      } else if i == 0 {
        FirstText(b, blocks, heading, size);
      }
      b := b + text;
      group := bl.group;
    }
    OpenNotEmpty(b, blocks, heading, cuts[|chunks|], |blocks|);
    if |b| > 0 || |chunks| == 0 {
      if |blocks| > 0 {
        OpenIsPiece(b, blocks, heading, cuts[|chunks|], |blocks|);
        CloseChunk(chunks, b, blocks, heading, cuts, |blocks|, fits);
        Finished(chunks + [b], blocks, heading, budget, size, cuts, cuts + [|blocks|]);
        EmptyOpen(b, blocks, heading);
      } else {
        EmptyOpen(b, blocks, heading);
      }
      chunks := chunks + [b];
      cuts := cuts + [|blocks|];
    }
  }

  lemma PackStart(blocks: seq<Block>, heading: string -> string, fits: (int, int) -> bool)
    ensures RendersAs([], blocks, heading, [0]) && ClosedFull([0], fits) && ClosedFit([0], fits)
    ensures Open("", blocks, heading, 0, 0)
  {
  }

  lemma EmptyOpen(b: string, blocks: seq<Block>, heading: string -> string)
    ensures Open(b, blocks, heading, 0, 0) ==> b == ""
  {
  }

  lemma FirstText(b: string, blocks: seq<Block>, heading: string -> string, size: string -> nat)
    requires Additive(size) && |blocks| > 0 && Open(b, blocks, heading, 0, 0)
    ensures size(b) == 0 && Text(blocks, heading, 0) == heading(blocks[0].group) + blocks[0].text
  {
    assert "" + "" == "";
    assert size("" + "") == size("") + size("");
  }

  lemma OpenIsPiece(b: string, blocks: seq<Block>, heading: string -> string, start: int, i: int)
    requires Open(b, blocks, heading, start, i) && i > 0
    ensures IsPiece(b, blocks, heading, start, i)
  {
  }

  /** The finished split is greedy, so no other is smaller. */
  lemma Finished(chunks: seq<string>, blocks: seq<Block>, heading: string -> string, budget: int, size: string -> nat,
                 closed: seq<int>, cuts: seq<int>)
    requires Additive(size) && |closed| > 0 && cuts == closed + [|blocks|]
    requires RendersAs(chunks, blocks, heading, cuts) && ClosedFull(closed, WithinBudget(blocks, heading, budget, size))
    ensures IsSplit(cuts, |blocks|)
    ensures ClosedFit(cuts, WithinBudget(blocks, heading, budget, size)) ==>
      forall k :: 0 <= k < |chunks| ==> size(chunks[k]) <= budget
    ensures forall other :: Feasible(WithinBudget(blocks, heading, budget, size), other, |blocks|) ==>
      |chunks| <= |other| - 1
  {
    var fits := WithinBudget(blocks, heading, budget, size);
    BudgetShrinks(blocks, heading, budget, size);
    assert Greedy(fits, cuts, |blocks|) by {
      forall k | 0 <= k < |cuts| - 2 ensures !fits(cuts[k], cuts[k + 1] + 1) { assert cuts[k] == closed[k]; }
    }
    forall other | Feasible(fits, other, |blocks|) ensures |chunks| <= |other| - 1 {
      GreedyIsFewest(fits, cuts, other, |blocks|);
    }
    if ClosedFit(cuts, fits) {
      forall k | 0 <= k < |chunks| ensures size(chunks[k]) <= budget {
        assert IsPiece(chunks[k], blocks, heading, cuts[k], cuts[k + 1]) && fits(cuts[k], cuts[k + 1]);
      }
    }
  }
}
