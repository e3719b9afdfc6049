/**
 The timeline of a joined clip: where each segment is placed, and what every frame shows.

 Lengths and overlaps are counts of cells: frames for video, samples for audio.
 */
module Timeline {
  import opened FilterGraph

  /** Segment k starts once the segments before it have run, less the overlaps between them. */
  function Place(lengths: seq<nat>, overlaps: seq<nat>, k: nat): int
    requires k < |lengths| && |overlaps| == |lengths| - 1
  {
    if k == 0 then 0 else Place(lengths, overlaps, k - 1) + lengths[k - 1] - overlaps[k - 1]
  }

  function End(lengths: seq<nat>, overlaps: seq<nat>, k: nat): int
    requires k < |lengths| && |overlaps| == |lengths| - 1
  {
    Place(lengths, overlaps, k) + lengths[k]
  }

  function Sum(counts: seq<nat>): nat {
    if counts == [] then 0 else counts[0] + Sum(counts[1..])
  }

  /** The overlaps at both ends of a segment: the source's list [0, *overlaps, 0]. */
  function Edge(overlaps: seq<nat>, k: nat): nat {
    if 1 <= k <= |overlaps| then overlaps[k - 1] else 0
  }

  /** No segment is shorter than the overlaps at its two ends. */
  predicate Fits(lengths: seq<nat>, overlaps: seq<nat>) {
    && |overlaps| == |lengths| - 1
    && forall k :: 0 <= k < |lengths| ==> Edge(overlaps, k) + Edge(overlaps, k + 1) <= lengths[k]
  }

  /** An overlap fits both its segments, and two overlaps in one segment don't meet. */
  lemma OverlapFits(lengths: seq<nat>, overlaps: seq<nat>, k: nat)
    requires Fits(lengths, overlaps) && k < |overlaps|
    ensures overlaps[k] <= lengths[k] && overlaps[k] <= lengths[k + 1]
    ensures k > 0 ==> overlaps[k - 1] + overlaps[k] <= lengths[k]
  {
    assert Edge(overlaps, k) + Edge(overlaps, k + 1) <= lengths[k];
    var after := k + 1;
    assert Edge(overlaps, after) + Edge(overlaps, after + 1) <= lengths[after];
  }

  function Lengths(streams: seq<Stream>): seq<nat> {
    seq(|streams|, k requires 0 <= k < |streams| => |streams[k]|)
  }

  /** The clip after its first k junctions. */
  function Blended(streams: seq<Stream>, overlaps: seq<nat>, styles: seq<string>, k: nat): (clip: Stream)
    requires Fits(Lengths(streams), overlaps) && |styles| == |overlaps| && k < |streams|
    ensures |clip| == End(Lengths(streams), overlaps, k) >= |streams[k]|
  {
    if k == 0 then streams[0]
    else
      OverlapFits(Lengths(streams), overlaps, k - 1);
      Overlay(Blended(streams, overlaps, styles, k - 1), streams[k], overlaps[k - 1], styles[k - 1])
  }

  /**
   What the timeline of segments 0 to last is to show `i` cells into segment k: the segment alone,
   or one step of the mix with the one neighbour it overlaps there.
   */
  function Expected(streams: seq<Stream>, overlaps: seq<nat>, styles: seq<string>,
                    last: nat, k: nat, i: nat): Cell
    requires Fits(Lengths(streams), overlaps) && |styles| == |overlaps|
    requires k <= last < |streams| && i < |streams[k]|
  {
    if k > 0 && i < overlaps[k - 1] then
      OverlapFits(Lengths(streams), overlaps, k - 1);
      var n := overlaps[k - 1];
      Mix(styles[k - 1], i, n, streams[k - 1][|streams[k - 1]| - n + i], streams[k][i])
    else if k < last && i >= |streams[k]| - overlaps[k] then
      OverlapFits(Lengths(streams), overlaps, k);
      var step := i - (|streams[k]| - overlaps[k]);
      Mix(styles[k], step, overlaps[k], streams[k][i], streams[k + 1][step])
    else streams[k][i]
  }

  // ---------------------------------------------------------------------------
  // Placement
  // ---------------------------------------------------------------------------

  lemma {:induction false} PlacesAscend(lengths: seq<nat>, overlaps: seq<nat>, j: nat, k: nat)
    requires Fits(lengths, overlaps) && j <= k < |lengths|
    ensures 0 <= Place(lengths, overlaps, j) <= Place(lengths, overlaps, k)
    decreases k
  {
    if k > 0 {
      OverlapFits(lengths, overlaps, k - 1);
      PlacesAscend(lengths, overlaps, if j < k then j else k - 1, k - 1);
    }
  }

  /** A segment is over before the second one after it starts, so three never show at once. */
  lemma TwoApart(lengths: seq<nat>, overlaps: seq<nat>, j: nat, k: nat)
    requires Fits(lengths, overlaps) && j + 2 <= k < |lengths|
    ensures End(lengths, overlaps, j) <= Place(lengths, overlaps, k)
  {
    OverlapFits(lengths, overlaps, j + 1);
    PlacesAscend(lengths, overlaps, j + 2, k);
  }

  /**
   Two segments show the same cell only when they are neighbours and the cell is inside their overlap,
   and there they both do.
   */
  lemma SharedCells(lengths: seq<nat>, overlaps: seq<nat>, j: nat, k: nat, t: int)
    requires Fits(lengths, overlaps) && j < k < |lengths|
    ensures (Place(lengths, overlaps, j) <= t < End(lengths, overlaps, j)
             && Place(lengths, overlaps, k) <= t < End(lengths, overlaps, k))
       <==> (k == j + 1 && Place(lengths, overlaps, k) <= t < Place(lengths, overlaps, k) + overlaps[j])
  {
    if k > j + 1 {
      TwoApart(lengths, overlaps, j, k);
    } else {
      OverlapFits(lengths, overlaps, j);
    }
  }

  /** Every cell up to the end of the clip is inside some segment. */
  lemma {:induction false} Covered(lengths: seq<nat>, overlaps: seq<nat>, last: nat, t: nat) returns (k: nat)
    requires Fits(lengths, overlaps) && last < |lengths| && t < End(lengths, overlaps, last)
    ensures k <= last && Place(lengths, overlaps, k) <= t < End(lengths, overlaps, k)
  {
    k := last;
    if t < Place(lengths, overlaps, last) {
      k := Covered(lengths, overlaps, last - 1, t);
    }
  }

  lemma {:induction false} SumAppend(counts: seq<nat>, n: nat)
    ensures Sum(counts + [n]) == Sum(counts) + n
  {
    if counts == [] {
      assert [n][1..] == [];
    } else {
      SumAppend(counts[1..], n);
      assert (counts + [n])[1..] == counts[1..] + [n];
    }
  }

  lemma {:induction false} PlaceIsPrefix(lengths: seq<nat>, overlaps: seq<nat>, k: nat)
    requires |overlaps| == |lengths| - 1 && k < |lengths|
    ensures Place(lengths, overlaps, k) == Sum(lengths[..k]) - Sum(overlaps[..k])
  {
    if k > 0 {
      PlaceIsPrefix(lengths, overlaps, k - 1);
      assert lengths[..k] == lengths[..k - 1] + [lengths[k - 1]];
      assert overlaps[..k] == overlaps[..k - 1] + [overlaps[k - 1]];
      SumAppend(lengths[..k - 1], lengths[k - 1]);
      SumAppend(overlaps[..k - 1], overlaps[k - 1]);
    }
  }

  /** The last segment ends at the sum of the lengths less the sum of the overlaps. */
  lemma {:induction false} EndIsTotal(lengths: seq<nat>, overlaps: seq<nat>)
    requires |overlaps| == |lengths| - 1
    ensures End(lengths, overlaps, |lengths| - 1) == Sum(lengths) - Sum(overlaps)
  {
    PlaceIsPrefix(lengths, overlaps, |lengths| - 1);
    var n := |lengths| - 1;
    assert lengths[..n] + [lengths[n]] == lengths && overlaps[..n] == overlaps;
    SumAppend(lengths[..n], lengths[n]);
  }

  // ---------------------------------------------------------------------------
  // Content
  // ---------------------------------------------------------------------------

  /** The cells of an overlay: the first stream, the mix, the second stream. */
  lemma OverlayAt(a: Stream, b: Stream, n: nat, style: string, t: nat)
    requires n <= |a| && n <= |b| && t < |a| - n + |b|
    ensures |Overlay(a, b, n, style)| == |a| - n + |b|
    ensures Overlay(a, b, n, style)[t] ==
            if t < |a| - n then a[t]
            else if t < |a| then Mix(style, t - (|a| - n), n, a[t], b[t - (|a| - n)])
            else b[t - (|a| - n)]
  {
  }

  /** The blend shows what is expected `i` cells into segment k, at that segment's place. */
  predicate Shows(streams: seq<Stream>, overlaps: seq<nat>, styles: seq<string>, last: nat, k: nat, i: nat)
    requires Fits(Lengths(streams), overlaps) && |styles| == |overlaps|
    requires k <= last < |streams| && i < |streams[k]|
  {
    var clip, t := Blended(streams, overlaps, styles, last), Place(Lengths(streams), overlaps, k) + i;
    0 <= t < |clip| && clip[t] == Expected(streams, overlaps, styles, last, k, i)
  }

  lemma ShowsLast(streams: seq<Stream>, overlaps: seq<nat>, styles: seq<string>, last: nat, i: nat)
    requires Fits(Lengths(streams), overlaps) && |styles| == |overlaps|
    requires 0 < last < |streams| && i < |streams[last]| && overlaps[last - 1] <= |streams[last - 1]|
    requires var j := |streams[last - 1]| - overlaps[last - 1] + i;
             i < overlaps[last - 1] ==>
               && Shows(streams, overlaps, styles, last - 1, last - 1, j)
               && Expected(streams, overlaps, styles, last - 1, last - 1, j) == streams[last - 1][j]
    ensures Shows(streams, overlaps, styles, last, last, i)
  {
    var lengths, n := Lengths(streams), overlaps[last - 1];
    OverlapFits(lengths, overlaps, last - 1);
    PlacesAscend(lengths, overlaps, 0, last);
    var before, t := Blended(streams, overlaps, styles, last - 1), Place(lengths, overlaps, last) + i;
    assert |before| == Place(lengths, overlaps, last) + n;
    OverlayAt(before, streams[last], n, styles[last - 1], t);
    if i < n {
      assert before[t] == streams[last - 1][|streams[last - 1]| - n + i];
      assert Expected(streams, overlaps, styles, last, last, i) ==
             Mix(styles[last - 1], i, n, before[t], streams[last][i]);
    }
  }

  lemma ShowsEarlier(streams: seq<Stream>, overlaps: seq<nat>, styles: seq<string>, last: nat, k: nat, i: nat)
    requires Fits(Lengths(streams), overlaps) && |styles| == |overlaps|
    requires k < last < |streams| && i < |streams[k]|
    requires Shows(streams, overlaps, styles, last - 1, k, i)
    ensures Shows(streams, overlaps, styles, last, k, i)
  {
    var lengths, n := Lengths(streams), overlaps[last - 1];
    OverlapFits(lengths, overlaps, last - 1);
    if k < last - 1 {
      TwoApart(lengths, overlaps, k, last);
    }
    var before := Blended(streams, overlaps, styles, last - 1);
    OverlayAt(before, streams[last], n, styles[last - 1], Place(lengths, overlaps, k) + i);
  }

  /** Every cell of every segment shows where the placement says, alone or mixed as expected. */
  lemma {:induction false} ShowsExpected(streams: seq<Stream>, overlaps: seq<nat>, styles: seq<string>,
                                         last: nat, k: nat, i: nat)
    requires Fits(Lengths(streams), overlaps) && |styles| == |overlaps|
    requires k <= last < |streams| && i < |streams[k]|
    ensures Shows(streams, overlaps, styles, last, k, i)
    decreases last
  {
    if last == 0 {
    } else if k < last {
      ShowsExpected(streams, overlaps, styles, last - 1, k, i);
      ShowsEarlier(streams, overlaps, styles, last, k, i);
    } else {
      var lengths, n := Lengths(streams), overlaps[last - 1];
      OverlapFits(lengths, overlaps, last - 1);
      if i < n {
        ShowsExpected(streams, overlaps, styles, last - 1, last - 1, lengths[last - 1] - n + i);
      }
      ShowsLast(streams, overlaps, styles, last, i);
    }
  }
}
