/** The sequence padder: the list of items the track actually renders.
    In loop mode a copy of the last item is put in front and a copy of the
    first item at the end, so that the track can run past either end and
    then jump silently to the matching real item. */
module Padding {

  /** Render sequence for `items` (src/Carousel.js:94-98). */
  function RenderSequence<T>(items: seq<T>, loop: bool): (r: seq<T>)
    ensures !loop ==> r == items
    ensures loop && |items| == 0 ==> r == []
    ensures loop && |items| > 0 ==>
      |r| == |items| + 2 && r[0] == items[|items| - 1] && r[|items| + 1] == items[0] && r[1..|items| + 1] == items
  {
    if !loop then items
    else if |items| == 0 then []
    else [items[|items| - 1]] + items + [items[0]]
  }

  /** Length of the render sequence, N or N + 2. */
  lemma RenderLength<T>(items: seq<T>, loop: bool)
    ensures |RenderSequence(items, loop)| == if loop && |items| > 0 then |items| + 2 else |items|
  {
  }

  /** The real item shown at render index `i` in loop mode: index 1 is item 0,
      and the two synthetic ends continue the cycle. */
  function RealIndex(n: nat, i: int): (k: int)
    requires n > 0
    ensures 0 <= k < n
  {
    (i - 1) % n
  }

  /** In loop mode the padded sequence is a window of the cyclic item list:
      render index i shows the real item (i - 1) mod N. */
  lemma LoopWindow<T>(items: seq<T>, i: int)
    requires |items| > 0 && 0 <= i < |items| + 2
    ensures RenderSequence(items, true)[i] == items[RealIndex(|items|, i)]
  {
    var n := |items|;
    var r := RenderSequence(items, true);
    if i == 0 {
      ModOfPredecessor(n);
    } else if i == n + 1 {
      assert (i - 1) % n == 0;
    } else {
      assert (i - 1) % n == i - 1;
      assert r[i] == r[1..n + 1][i - 1];
    }
  }

  lemma ModOfPredecessor(n: int)
    requires n > 0
    ensures (0 - 1) % n == n - 1
  {
    assert -1 == n * (-1) + (n - 1);
  }

  /** The two synthetic ends show the same item as the real positions the
      loop jump moves to: index N + 1 matches index 1, index 0 matches index N. */
  lemma BoundaryTwins<T>(items: seq<T>)
    requires |items| > 0
    ensures var r := RenderSequence(items, true);
      r[|items| + 1] == r[1] && r[0] == r[|items|]
  {
    var r := RenderSequence(items, true);
    var n := |items|;
    assert r[1] == r[1..n + 1][0];
    assert r[n] == r[1..n + 1][n - 1];
  }
}
