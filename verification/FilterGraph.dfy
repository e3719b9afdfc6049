/**
 What the ffmpeg filters this program emits mean, counted in frames and samples.

 A stream is a sequence of cells, each a video frame or an audio sample. A filter consumes labelled
 streams and produces labelled streams; running a graph fails as soon as a filter names a stream that
 is not there, names one twice, or produces a label that was produced before.
 */
module FilterGraph {
  import opened Wrappers
  import opened Numbers

  /** Where a frame or sample comes from, and what was done to it. */
  datatype Cell =
    | Raw(segment: nat, index: nat)
    | Silence
    | Mix(style: string, step: nat, steps: nat, before: Cell, after: Cell)
    | Captioned(of: Cell)
    | FadedIn(step: nat, steps: nat, of: Cell)
    | FadedOut(step: nat, steps: nat, of: Cell)

  type Stream = seq<Cell>

  datatype Label =
    | InVideo(position: nat)   // [N:v:0]
    | InAudio(position: nat)   // [N:a:0]
    | Video(position: nat)     // [vN]
    | Audio(position: nat)     // [aN]
    | JoinedVideo(position: nat)   // [jvN]
    | JoinedAudio(position: nat)   // [jaN]
    | Joined
    | Mixed
    | CaptionedVideo
    | OutVideo   // [v]
    | OutAudio   // [a]

  /** A frame range to keep, half open. */
  datatype Range = Range(first: nat, end: nat)

  datatype Node =
    | Tpad(count: nat)                          // repeat the last frame
    | Trim(end: nat)
    | PadTrim(end: nat)                         // apad, then atrim
    | Select(piece: nat, ranges: seq<Range>)    // select, or asetnsamples and aselect
    | Ass                                       // burn in captions
    | FadeIn(count: nat)
    | FadeOut(start: nat, count: nat)

  datatype Op =
    | Chain(nodes: seq<Node>)                   // with no input, an endless silent source
    | Concat(n: nat)
    | XFade(style: string, duration: nat, offset: int)
    | ACrossfade(curve: string, count: nat)

  datatype Filter = Filter(inputs: seq<Label>, op: Op, outputs: seq<Label>)

  /** The caller's list that join appends to. */
  class FilterList {
    var items: seq<Filter>

    constructor ()
      ensures items == []
    {
      items := [];
    }

    method Append(item: Filter)
      modifies this
      ensures items == old(items) + [item]
    {
      items := items + [item];
    }
  }

  // ---------------------------------------------------------------------------
  // Nodes on one stream
  // ---------------------------------------------------------------------------

  predicate Chosen(ranges: seq<Range>, n: nat) {
    exists i :: 0 <= i < |ranges| && ranges[i].first <= n < ranges[i].end
  }

  /** The first `upTo` cells of s whose piece is chosen, a piece being `piece` cells long. */
  function Kept(s: Stream, piece: nat, ranges: seq<Range>, upTo: nat): Stream
    requires piece > 0 && upTo <= |s|
  {
    if upTo == 0 then []
    else
      Kept(s, piece, ranges, upTo - 1)
      + if Chosen(ranges, (upTo - 1) / piece) then [s[upTo - 1]] else []
  }

  function Apply(node: Node, s: Stream): Stream {
    match node
    case Tpad(count) => if s == [] then [] else s + seq(count, _ => s[|s| - 1])
    case Trim(end) => s[..Min(end, |s|)]
    case PadTrim(end) => if end <= |s| then s[..end] else s + seq(end - |s|, _ => Silence)
    case Select(piece, ranges) => if piece == 0 then [] else Kept(s, piece, ranges, |s|)
    case Ass => seq(|s|, i requires 0 <= i < |s| => Captioned(s[i]))
    case FadeIn(count) =>
      seq(|s|, i requires 0 <= i < |s| => if i < count then FadedIn(i, count, s[i]) else s[i])
    case FadeOut(start, count) =>
      seq(|s|, i requires 0 <= i < |s| =>
        if i < start then s[i] else FadedOut(Min(i - start, count), count, s[i]))
  }

  function ApplyAll(nodes: seq<Node>, s: Stream): Stream {
    if nodes == [] then s else ApplyAll(nodes[1..], Apply(nodes[0], s))
  }

  // ---------------------------------------------------------------------------
  // Filters on several streams
  // ---------------------------------------------------------------------------

  /** Every other stream, from `start` on: concat takes its video and audio inputs by turns. */
  function EveryOther(streams: seq<Stream>, start: nat, count: nat): seq<Stream>
    requires start < 2 && |streams| == 2 * count
  {
    seq(count, i requires 0 <= i < count => streams[2 * i + start])
  }

  /** The streams end to end. */
  function EndToEnd(streams: seq<Stream>): Stream {
    if streams == [] then [] else EndToEnd(streams[..|streams| - 1]) + streams[|streams| - 1]
  }

  /** The last n cells of a mixed with the first n of b, the rest of both around them. */
  function Overlay(a: Stream, b: Stream, n: nat, style: string): Stream
    requires n <= |a| && n <= |b|
  {
    a[..|a| - n]
    + seq(n, i requires 0 <= i < n => Mix(style, i, n, a[|a| - n + i], b[i]))
    + b[n..]
  }

  /** The output streams, or None when ffmpeg has no meaning for these inputs. */
  function Meaning(op: Op, ins: seq<Stream>): Option<seq<Stream>> {
    match op
    case Chain(nodes) =>
      if |ins| > 1 then None
      else Some([ApplyAll(nodes, if ins == [] then [] else ins[0])])
    case Concat(n) =>
      if |ins| != 2 * n then None else Some([EndToEnd(EveryOther(ins, 0, n)), EndToEnd(EveryOther(ins, 1, n))])
    case XFade(style, duration, offset) =>
      // The second stream enters `offset` frames in; what the first has after the mix is dropped.
      if |ins| != 2 || !(0 <= offset && offset + duration <= |ins[0]| && duration <= |ins[1]|) then None
      else Some([Overlay(ins[0][..offset + duration], ins[1], duration, style)])
    case ACrossfade(curve, count) =>
      if |ins| != 2 || !(count <= |ins[0]| && count <= |ins[1]|) then None
      else Some([Overlay(ins[0], ins[1], count, curve)])
  }

  // ---------------------------------------------------------------------------
  // Graphs
  // ---------------------------------------------------------------------------

  /** The streams waiting to be consumed, and every label produced so far. */
  datatype State = State(live: map<Label, Stream>, made: set<Label>)

  predicate Distinct<T(==)>(s: seq<T>) {
    forall i, j :: 0 <= i < j < |s| ==> s[i] != s[j]
  }

  function Take(live: map<Label, Stream>, labels: seq<Label>): seq<Stream>
    requires forall i :: 0 <= i < |labels| ==> labels[i] in live
  {
    seq(|labels|, i requires 0 <= i < |labels| => live[labels[i]])
  }

  function Put(live: map<Label, Stream>, labels: seq<Label>, streams: seq<Stream>): map<Label, Stream>
    requires |labels| == |streams|
    decreases |labels|
  {
    if labels == [] then live
    else Put(live[labels[0] := streams[0]], labels[1..], streams[1..])
  }

  function LabelSet(labels: seq<Label>): set<Label> {
    set i | 0 <= i < |labels| :: labels[i]
  }

  function Step(st: State, f: Filter): Option<State> {
    if !(forall i :: 0 <= i < |f.inputs| ==> f.inputs[i] in st.live) then None
    else if !Distinct(f.inputs) || !Distinct(f.outputs) then None
    else if exists i :: 0 <= i < |f.outputs| && f.outputs[i] in st.made then None
    else
      match Meaning(f.op, Take(st.live, f.inputs))
      case None => None
      case Some(streams) =>
        if |streams| != |f.outputs| then None
        else Some(State(Put(st.live - LabelSet(f.inputs), f.outputs, streams),
                        st.made + LabelSet(f.outputs)))
  }

  function Run(st: State, filters: seq<Filter>): Option<State>
    decreases |filters|
  {
    if filters == [] then Some(st)
    else
      match Step(st, filters[0])
      case None => None
      case Some(next) => Run(next, filters[1..])
  }

  lemma {:induction false} RunAppend(st: State, first: seq<Filter>, second: seq<Filter>)
    ensures Run(st, first + second) ==
            match Run(st, first) { case None => None case Some(mid) => Run(mid, second) }
    decreases |first|
  {
    if first == [] {
      assert first + second == second;
    } else {
      assert (first + second)[1..] == first[1..] + second;
      match Step(st, first[0]) {
        case None =>
        case Some(next) => RunAppend(next, first[1..], second);
      }
    }
  }

  /** The state after one single-output filter. */
  lemma StepOne(st: State, f: Filter, stream: Stream)
    requires |f.outputs| == 1 && f.outputs[0] !in st.made
    requires forall i :: 0 <= i < |f.inputs| ==> f.inputs[i] in st.live
    requires Distinct(f.inputs)
    requires Meaning(f.op, Take(st.live, f.inputs)) == Some([stream])
    ensures Step(st, f) ==
            Some(State((st.live - LabelSet(f.inputs))[f.outputs[0] := stream], st.made + {f.outputs[0]}))
  {
    var rest := st.live - LabelSet(f.inputs);
    assert LabelSet(f.outputs) == {f.outputs[0]};
    assert Put(rest, f.outputs, [stream]) == Put(rest[f.outputs[0] := stream], f.outputs[1..], [stream][1..]);
  }

  /** The state after one filter with a video and an audio output. */
  lemma StepTwo(st: State, f: Filter, video: Stream, audio: Stream)
    requires |f.outputs| == 2 && f.outputs[0] != f.outputs[1]
    requires f.outputs[0] !in st.made && f.outputs[1] !in st.made
    requires forall i :: 0 <= i < |f.inputs| ==> f.inputs[i] in st.live
    requires Distinct(f.inputs)
    requires Meaning(f.op, Take(st.live, f.inputs)) == Some([video, audio])
    ensures Step(st, f) ==
            Some(State((st.live - LabelSet(f.inputs))[f.outputs[0] := video][f.outputs[1] := audio],
                       st.made + {f.outputs[0], f.outputs[1]}))
  {
    var rest, streams := st.live - LabelSet(f.inputs), [video, audio];
    assert LabelSet(f.outputs) == {f.outputs[0], f.outputs[1]};
    var first := rest[f.outputs[0] := video];
    assert Put(rest, f.outputs, streams) == Put(first, f.outputs[1..], streams[1..]);
    assert Put(first, f.outputs[1..], streams[1..])
        == Put(first[f.outputs[1] := audio], f.outputs[1..][1..], streams[1..][1..]);
  }

  /** A chain on one stream consumes its label and makes its output's, if the one waits and the other is new. */
  lemma ChainRuns(st: State, input: Label, nodes: seq<Node>, output: Label)
    ensures Step(st, Filter([input], Chain(nodes), [output])) ==
            if input in st.live && output !in st.made then
              Some(State((st.live - {input})[output := ApplyAll(nodes, st.live[input])], st.made + {output}))
            else None
  {
    hide ApplyAll, Apply;
    var f := Filter([input], Chain(nodes), [output]);
    if input in st.live && output !in st.made {
      assert Take(st.live, [input]) == [st.live[input]];
      assert LabelSet([input]) == {input} by {
        assert [input][0] == input;
      }
      StepOne(st, f, ApplyAll(nodes, st.live[input]));
    } else {
      assert f.inputs[0] == input && f.outputs[0] == output;
    }
  }

  /** The state after a chain with a silent source. */
  lemma SilenceRuns(st: State, nodes: seq<Node>, output: Label)
    requires output !in st.made
    ensures Step(st, Filter([], Chain(nodes), [output])) ==
            Some(State(st.live[output := ApplyAll(nodes, [])], st.made + {output}))
  {
    hide ApplyAll, Apply;
    var f := Filter([], Chain(nodes), [output]);
    assert Take(st.live, []) == [];
    assert st.live - LabelSet([]) == st.live;
    StepOne(st, f, ApplyAll(nodes, []));
  }

  lemma RunTwo(st: State, f: Filter, g: Filter, mid: State, next: State)
    requires Step(st, f) == Some(mid) && Step(mid, g) == Some(next)
    ensures Run(st, [f, g]) == Some(next)
  {
    hide Step;
    assert [f, g][1..] == [g] && [g][1..] == [];
    assert Run(mid, [g]) == Run(next, []) == Some(next);
  }
}
