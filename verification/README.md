# Verified core of Praxis Agents OS

A Dafny model of the small algorithms the API and the renderer rest on, and proofs of what they promise.
`dafny verify dfyconfig.toml` checks the whole project.

| part | modules |
|---|---|
| Seccomp filter compiler | `Seccomp`: the program builder, its byte encoding, a classic-BPF interpreter, and the policy as a plain function |
| Clip joiner | `FilterGraph` (what filter nodes and labels mean), `Ffmpeg`, `Timeline` (where segments stand and what each cell shows), `Keep`, `Transitions`, `Cut` (the methods that validate a request and assemble the graph), `JoinGraph` and `CutGraph` (what running the graph gives), `GraphLabels` (the label discipline alone), `ClipContent` (what the streams show), `ClipOutcome` (which graphs run, when sound and picture are in step, and when a clip is as long as counted on) |
| Account discovery | `Hierarchy` (provider answers and merging), `HierarchySearch` (the breadth-first search and its invariant), `Discovery` (the two loops) |
| Worker batches | `WorkerBatch`: lanes of any number of batches under one semaphore, as an interleaved step system |
| QuickXorHash | `QuickXorHash`: the column-folded loop against the byte-at-a-time definition; an integer is modelled by the set of its one bits |
| Crop planner | `Reframe` (the planner), `ReframePlan` (the piecewise-linear position), `ReframeExpression` (the printed sum of ramps) |
| Text windows | `TextWindow`: paged reads over UTF-8 (sections 3 and 4 of RFC 3629) |
| Rate limiter | `RateLimiter` (the bounded table as a class), `RateLimiterRuns` (whole runs against an unbounded counter) |
| Audio chunks | `AudioChunks` |
| Money | `Money` |

`Wrappers`, `Numbers` and `Selections` (what a filtering loop must keep, said without the loop) hold what several
parts share. Code that changes state step by step is a method or a class here, and its contract names a function of
the inputs or of the old state; the lemmas are about that function, and what it stands for is also stated from the
inputs alone, without it. Exceptions are `Failure` values, one constructor per message.

Four findings of the proofs differ from what a reader of the source may expect:

- `run_cut` passes `join` the listed keep lengths, although a segment whose source ends early is trimmed first.
  `CutGraph.ClampedKeepOverstates` is an accepted request where the two differ, and `ClipOutcome.ClampedClipIsShort`
  what becomes of its clip.
- A file whose sound outlasts its picture by more than the second tpad adds is accepted, because a range is clamped to
  the duration of the file; its clip's sound is then longer than its picture (`ClipOutcome.OutlastedClipIsOutOfStep`).
  `CutGraph.Supplied` says of one segment, from its frames, its ranges and the source's frames alone, whether the
  picture has every frame kept of it. For every accepted request, `ClipOutcome.AcceptedOutcome`: whenever the graph
  runs, its sound is in step exactly when all segments are supplied; and it gives the length counted on exactly when
  all of them are and every keep range ends inside its trimmed segment.
- A chunk of `extract_audio` can be left with no time at all (`AudioChunks.TooShortCanBeEmpty`). Whether some
  silences of an arbitrary report do so depends on the duration and the chunk count alone, and
  `AudioChunks.NeverEmpty` computes it: `AudioChunks.NeverEmptyIff`. It never happens above 10/9 of a millisecond a
  chunk, nor at exactly one, and always can below one. The detector is run to report silences of 0.3 s or more: with
  such ones, no chunk is empty exactly when there is a millisecond for each (`AudioChunks.DetectedNeverEmptyIff`).
- The byte encoding of the seccomp program is refused, never truncated, exactly outside `Seccomp.Compilable`:
  254 calls in all when there is a socket call, 255 denied calls when there is none.

## Model

| member | source | states |
|---|---|---|
| Seccomp.PackUnpack | apps/renderer/driver/isolation.py:69-70 | The eight bytes of an instruction whose fields fit hold all four fields: reading them back gives the instruction |
| Seccomp.PackedBytes | apps/renderer/driver/isolation.py:69-70 | The eight bytes one by one: 16-bit code, jt, jf and 32-bit k, the least significant byte of a number first |
| Seccomp.EncodeDecode | apps/renderer/driver/isolation.py:106 | Joining the packed instructions succeeds iff every field fits, is eight bytes an instruction, and decodes to the same program |
| Seccomp.BuildProgram | apps/renderer/driver/isolation.py:80-105 | The list grown by the two index-driven loops is the program the lemmas are about, for any record |
| Seccomp.BuildSeccompFilter | apps/renderer/driver/isolation.py:73-106 | A named machine, or the host's when the name is absent or empty, gets its record's filter, never a packing error; an unknown one is refused by name |
| Seccomp.Layout | apps/renderer/driver/isolation.py:80-105 | Which instruction stands at every index, for call lists of any length |
| Seccomp.EncodableIffCompilable | apps/renderer/driver/isolation.py:91-106 | Packing fails exactly for records with a number wider than 32 bits or too many calls for the 8-bit jump fields: no silent truncation |
| Seccomp.JumpsStayInside | apps/renderer/driver/isolation.py:91-105 | Every jump is forward and lands inside the program |
| Seccomp.EveryRunReturns | apps/renderer/driver/isolation.py:80-105 | Execution from any instruction, with any call and anything in the accumulator, ends at a RET |
| Seccomp.DomainCheck | apps/renderer/driver/isolation.py:101-104 | Execution that reaches the domain check allows AF_UNIX and answers EPERM otherwise |
| Seccomp.DeniedPhase | apps/renderer/driver/isolation.py:95-100 | From any denied check on, the denied numbers still to come decide between EPERM and allow |
| Seccomp.SocketPhase | apps/renderer/driver/isolation.py:92-100 | From any socket check on, a socket number wins over a duplicate denied one |
| Seccomp.ProgramDecidesPolicy | apps/renderer/driver/isolation.py:73-105 | Interpreting the program on any architecture, number and first argument returns exactly the policy's verdict, for every record |
| Seccomp.FilterDecidesPolicy | apps/renderer/driver/isolation.py:69-119 | The bytes of exactly the compilable records exist; read back as the kernel reads them they decide the policy, and their length over eight is the instruction count, which fits 16 bits |
| Seccomp.RecordsDecide | apps/renderer/driver/isolation.py:35-56 | The two records, number by number: sockets of domain 1 and no other, the six calls refused by name with EPERM, foreign architectures and x32 calls killed, everything else allowed |
| Ffmpeg.CheckRange | apps/renderer/media/ffmpeg.py:58-64 | A range is accepted iff it starts at 0 or later and ends after its start |
| Ffmpeg.ClampRange | apps/renderer/media/ffmpeg.py:67-74 | Refused iff it starts past the video; else the end is trimmed to the video and a checked range stays non-empty and inside |
| Ffmpeg.SoundDrift | apps/renderer/media/ffmpeg.py:101-102 | Over n frames a whole number of samples a frame strays from the picture by at most n / 2 samples, and not at all iff the frame rate divides 48000 |
| Numbers.RoundHalfEven | apps/renderer/media/transitions.py:67 | round() on an exact quotient: the nearest integer, and the even one of two equally near |
| FilterGraph.RunAppend | apps/renderer/media/cut.py:176-180 | Running two graphs joined is running one, then the other: labels made by the first are inputs of the second |
| FilterGraph.ChainRuns | apps/renderer/media/cut.py:214-221 | A chain consumes its input label and makes its output label exactly if the one waits and the other was never made before; otherwise the graph is refused |
| Timeline.OverlapFits | apps/renderer/media/transitions.py:70-72 | The guard of join makes every overlap fit both its segments, and two overlaps of one segment not meet |
| Timeline.TwoApart | apps/renderer/media/transitions.py:70-95 | A segment is over before the second one after it starts |
| Timeline.SharedCells | apps/renderer/media/transitions.py:65-95 | Two segments show the same cell iff they are neighbours and the cell is inside their overlap: never three at once |
| Timeline.Covered | apps/renderer/media/transitions.py:57-96 | Every cell of the clip is inside some segment's placement |
| Timeline.EndIsTotal | apps/renderer/media/transitions.py:96 | The last placement ends at the sum of the lengths less the sum of the overlaps |
| Timeline.ShowsExpected | apps/renderer/media/transitions.py:73-95 | Every cell of every segment is shown where the placement says: alone, or mixed with its one neighbour by the junction's style at the right step of the overlap |
| Transitions.ValidateTransitions | apps/renderer/media/transitions.py:36-54 | Accepts iff there are no transitions or one per junction, each offered and of an allowed length, and both fades are in range; otherwise reports the first fault, of the count, of a transition or of a fade |
| Transitions.Fault | apps/renderer/media/transitions.py:41-51 | What one transition is allowed: a known curve, and either the style none with no duration or a known style for 100 to 3000 ms; and which fault is reported |
| Transitions.OverlapLasts | apps/renderer/media/transitions.py:66-69 | A transition overlaps the number of frames nearest to its duration, half to even, but one at least, and a hard cut none |
| Transitions.JoinMixes | apps/renderer/media/transitions.py:66-94 | The filters of join hold, for every transition, an xfade of its style and an acrossfade of its curve into its segment, as long as asked and in step |
| Transitions.Join | apps/renderer/media/transitions.py:57-96 | Refused, with nothing appended, iff a segment is shorter than the overlaps with its neighbours; else appends exactly the join's filters, each transition mixed as long as it asks, and returns lengths less those overlaps |
| Transitions.HardCutsFit | apps/renderer/media/transitions.py:60-63 | Hard cuts overlap nothing and always fit, so the early return skips no refusal and its sum is the same total |
| Transitions.Fades | apps/renderer/media/transitions.py:99-116 | Refused iff the two fades would meet; else the fades of picture and sound that end at [v] and [a] |
| Transitions.FadeFrames | apps/renderer/media/transitions.py:101-102 | A fade lasts the number of frames nearest to its milliseconds, half to even |
| Transitions.AudioFadesScale | apps/renderer/media/transitions.py:106-112 | The fades of the sound start and last `samples` times as many cells as those of the picture |
| Keep.ValidateKeep | apps/renderer/media/cut.py:114-128 | Accepts iff every range is in segment order, after its predecessor and inside its segment; otherwise names the first fault |
| Keep.ValidKeepIff | apps/renderer/media/cut.py:114-128 | Comparing each range with the one before it is enough: the lists accepted are those of at most 500 ranges inside their segments of which every two stand apart, in segment order |
| Keep.GroupKeep | apps/renderer/media/cut.py:149-151 | Each segment gets its entries of the list: all of them and no other, in the order listed |
| Keep.RangesAreEntries | apps/renderer/media/cut.py:149-151 | The ranges of a segment are made from its entries, one from each, in order |
| Keep.ChosenIffAsked | apps/renderer/media/cut.py:149-151 | They choose a frame iff some entry for the segment asks for it |
| Keep.SpanIsAsked | apps/renderer/media/cut.py:157 | Their lengths add up to those of the entries for the segment |
| Keep.ValidKeepIsOrdered | apps/renderer/media/cut.py:121-128 | Comparing only with the previous (segment, end) pair makes every segment's ranges disjoint, ascending and inside the segment as requested |
| Keep.SelectKeepsSlices | apps/renderer/media/cut.py:224-232 | Choosing frames one by one by the printed condition keeps exactly the slices named, in order and each once, for frames and for frame-long pieces of sound |
| Keep.SlicesLength | apps/renderer/media/cut.py:224-232 | Sound cut into frame-long pieces keeps `samples_per_frame` times as many cells as the picture keeps frames |
| Keep.SpanKeptIffInside | apps/renderer/media/cut.py:157 | The kept frames number the sum of (end - first) iff every range ends inside the frames there are |
| Keep.KeptWhenShort | apps/renderer/media/cut.py:224-232 | Of the first n of a segment's frames ordered ranges keep as many as of all of them iff none keeps one after the first n, which each range shows by itself |
| Keep.OverstatedIffOverlapping | apps/renderer/media/cut.py:121-128 | For ranges in any order, the frames kept never exceed the sum of (end - first), and equal it iff no two ranges overlap: what the order check is for |
| Cut.ValidateSegments | apps/renderer/media/cut.py:73-84 | Accepts iff there are one to ten non-empty ranges that use every input from 0; otherwise reports the first fault |
| Cut.ShotIsProper | apps/renderer/media/cut.py:153-157 | A segment that starts inside its source has at least one frame, and listed ranges never sum to 0, so the fallback to all frames is taken iff no range is listed |
| Cut.AcceptedShotIsAsAsked | apps/renderer/media/cut.py:153-162 | A segment of an accepted request, read off the request's own lists: its frames are its range inside the source rounded up, its ranges choose the frames its entries ask for, and the length passed to join is the number asked for, or all frames without an entry |
| Cut.AssembleSegment | apps/renderer/media/cut.py:153-167 | One segment adds exactly its two filters and its length, or is refused iff it starts past its source |
| Cut.AssembleSegments | apps/renderer/media/cut.py:152-167 | The loop over the segments: all lengths and all filters, in order |
| Cut.AssembleFinish | apps/renderer/media/cut.py:169-174 | Captions, when asked for, then fades, on the right label |
| Cut.AssembleCut | apps/renderer/media/cut.py:140-180 | Which of the three refusals, the first that applies, or else the whole graph, for every accepted request; that graph is one of segments and overlaps as the request asks for them |
| JoinGraph.PlaceScales | apps/renderer/media/transitions.py:90-95 | A segment's sound is placed exactly `samples` times where its picture is |
| JoinGraph.CutRuns | apps/renderer/media/transitions.py:80-84 | A two-way concat puts the next segment's picture and sound after the clip so far |
| JoinGraph.MixRuns | apps/renderer/media/transitions.py:85-93 | xfade at offset elapsed - overlap and acrossfade by overlap * samples overlap the next segment with the end of the clip so far, in picture and sound alike |
| JoinGraph.JunctionsRun | apps/renderer/media/transitions.py:73-95 | After every junction the labels so far hold the timeline of the segments so far, and every other segment still waits |
| JoinGraph.ConcatRuns | apps/renderer/media/transitions.py:60-63 | The one concat of a clip of hard cuts gives the same timeline as joining one by one |
| JoinGraph.JoinRuns | apps/renderer/media/transitions.py:57-96 | Running what join emits consumes every [vN] and [aN] once and makes [joined] and [mixed], the timelines of picture and sound |
| CutGraph.SegmentLengths | apps/renderer/media/cut.py:202-232 | For ranges in order, whether or not they end inside the trimmed segment, [aN] has exactly `samples` cells for each frame kept of the segment, and [vN] one for each frame kept of those the padded picture has |
| CutGraph.SegmentInStepIff | apps/renderer/media/cut.py:202-232 | For ranges in order and any source, [aN] is `samples` times as long as [vN] iff the picture, padded by a second, has every frame kept of the segment: `Supplied`, computed from the frames and the ranges |
| CutGraph.JoinLengthIsRealIff | apps/renderer/media/cut.py:152-157 | The length passed to join is the length of [vN] iff every keep range ends inside the trimmed segment |
| CutGraph.ClampedKeepOverstates | apps/renderer/media/cut.py:126-157 | An accepted request whose length is overstated because its source ends before the kept range does |
| CutGraph.InsideSourcesKeepsFit | apps/renderer/media/cut.py:126-157 | A segment that ends inside its source starts in it, and its validated ranges end inside its frames |
| CutGraph.SegmentsRun | apps/renderer/media/cut.py:152-167 | Running the segments' filters consumes every input pad once and makes every [vN] and [aN] |
| CutGraph.SegmentsAligned | apps/renderer/media/cut.py:202-232 | Every [aN] is `samples` times as long as its [vN] iff all segments are supplied; every [vN] is as long as join was told iff all are and all keep ranges end inside their trimmed segments; every [aN] iff the ranges do |
| CutGraph.FinishRuns | apps/renderer/media/cut.py:169-174 | Captions and fades consume [joined] and [mixed] and leave only [v] and [a] |
| CutGraph.FadesKeepLength | apps/renderer/media/transitions.py:106-116 | Fading changes no length, whichever fades are present |
| CutGraph.ClipLengths | apps/renderer/media/transitions.py:57-96 | The joined picture has lengths less overlaps frames, and the mixed sound lengths less scaled overlaps samples, whatever the lengths |
| CutGraph.PartsRun | apps/renderer/media/cut.py:152-180 | The graph runs and leaves only [v] and [a] whenever the segments, however long their pictures and sounds really are, can hold the overlaps it says; each is as long as its segments less what they overlap |
| CutGraph.CutGraphRuns | apps/renderer/media/cut.py:140-180 | If all keep ranges fit and all segments are supplied, the whole graph runs from the input pads alone, makes every label once and consumes it once, and leaves only [v] and [a]: the captioned, faded timeline of the segments, exactly as long as join reported, with exactly `samples_per_frame` samples a frame |
| ClipOutcome.HardCutsRun | apps/renderer/media/transitions.py:60-63 | Joined by hard cuts the graph runs whatever the ranges and the pictures, and [v] and [a] are as long as their segments together |
| ClipOutcome.JunctionsFollow | apps/renderer/media/transitions.py:73-95 | The junctions up to any one run iff before each transition among them the picture is as long as join counted on and the overlap fits the next one, for pictures no longer than join was told and than their sounds; then the labels hold clips of exactly the lengths joined so far |
| ClipOutcome.RunsIff | apps/renderer/media/transitions.py:57-96 | With any mix of cuts and transitions, captions and fades, the whole graph runs iff every transition meets the picture join counted on, and then [v] and [a] last as long as their segments less what they overlap |
| ClipOutcome.InStepIff | apps/renderer/media/transitions.py:57-116 | Whenever the graph runs, [a] is `samples_per_frame` times as long as [v] iff all segments are supplied; [v] has the length join reported iff all are and all keep ranges fit; [a] lasts that long iff the ranges fit |
| ClipOutcome.TotalIff | apps/renderer/media/transitions.py:57-96 | With any mix of cuts and transitions, captions and fades, the graph runs to the length join reported iff every keep range ends inside its trimmed segment and every segment is supplied |
| ClipOutcome.AcceptedIsSteady | apps/renderer/media/cut.py:114-157 | If its segments start inside their sources, those of an accepted request have ordered ranges: all that the lengths are proved from |
| ClipOutcome.InsideFits | apps/renderer/media/cut.py:126-157 | If its segments end inside their sources, an accepted request's segments all start and all its ranges fit |
| ClipOutcome.AcceptedOutcome | apps/renderer/media/cut.py:140-180 | Of the graph run_cut hands over for any accepted request, from the input pads: when it runs, when its sound is in step, and that it gives a clip of the length join reported iff every keep range ends inside its trimmed segment and every segment is supplied; that length is the frames asked for less the overlaps asked for |
| ClipOutcome.AcceptedClipRuns | apps/renderer/media/cut.py:140-180 | And if its segments end inside their sources and are supplied, that graph gives the whole captioned and faded timeline, exactly that long, sound in step |
| ClipOutcome.ClampedClipIsShort | apps/renderer/media/cut.py:152-168 | The accepted request whose source ends early is assembled without complaint, and its graph does not give the length counted on |
| ClipOutcome.OutlastedClipIsOutOfStep | apps/renderer/media/cut.py:140-180 | An accepted request inside its source, whose ranges fit, whose graph runs and gives 144 frames of picture and 240 frames' worth of sound |
| ClipContent.KeptPieces | apps/renderer/media/cut.py:224-232 | For any ranges, choosing by the printed condition keeps whole frames of picture and whole frame-long pieces of sound, those of the chosen frames in order |
| ClipContent.PictureAndSoundInStep | apps/renderer/media/cut.py:202-232 | For any ranges and any source, frame k of [vN] and the k-th frame-long piece of [aN] come from the same frame of the segment, as far as the picture lasts; it repeats its last frame, and the sound is silent, past the source's end |
| ClipContent.FadesShow | apps/renderer/media/transitions.py:99-116 | The first frames of the clip fade in step by step, the last ones fade out to its very end, and the rest are untouched |
| ClipContent.SoundFadesShow | apps/renderer/media/transitions.py:106-112 | The sound fades over exactly the samples of the frames the picture fades over |
| ClipContent.PictureOfClip | apps/renderer/media/cut.py:152-180 | Every frame of every segment in the delivered picture: where it stands, alone or at which step of a mix, captioned, at which step of the fades |
| ClipContent.SoundOfClip | apps/renderer/media/cut.py:152-180 | Every sample of every segment in the delivered sound: `samples` times as far on as its frame, alone or at its step of the mix, at its step of the fades |
| ClipContent.ClipShows | apps/renderer/media/cut.py:140-232 | All of it for the whole graph from the input pads: frame k of segment p and each of its samples stand together in [v] and [a] and come from the same frame of the source |
| ClipContent.ShownAreAsked | apps/renderer/media/cut.py:149-162 | The frames of an accepted segment that are shown are those its entries ask for, or all without one, each once and in order |
| ClipContent.AcceptedClipShows | apps/renderer/media/cut.py:140-180 | For an accepted request whose segments end inside their sources and are supplied: the k-th frame asked of a segment, and its samples, at their place in [v] and [a], in the right mix and fade |
| GraphLabels.StepUses | apps/renderer/media/cut.py:176-180 | Whatever a filter does with streams it does with their labels, so the label discipline is no weaker than the graph's meaning |
| GraphLabels.SegmentsUse | apps/renderer/media/cut.py:152-167 | For any segments, their filters use every pad once and make every [vN] and [aN] once |
| GraphLabels.JunctionUses | apps/renderer/media/transitions.py:77-94 | A junction of either kind uses the clip so far and its segment, and makes two labels never made before |
| GraphLabels.JoinUses | apps/renderer/media/transitions.py:57-96 | However long the segments, join uses every [vN] and [aN] once and leaves only [joined] and [mixed] |
| GraphLabels.FinishUses | apps/renderer/media/cut.py:169-174 | Captions and fades, present or not, leave only [v] and [a] |
| GraphLabels.LabelsUsedOnce | apps/renderer/media/cut.py:152-174 | In the graph of any mix of cuts, transitions, captions and fades, also of requests whose keep ranges or sources fall short, every label is made once before use and used once, leaving only [v] and [a] |
| Hierarchy.ReadRows | apps/api/integrations/google_ads/discover_resources.py:113-151 | The loop over an answer's rows queues its new managers and merges its candidates in place, in row order |
| Hierarchy.MergeKeepsBest | apps/api/integrations/google_ads/discover_resources.py:149-199 | Merging keeps, for each account mentioned and no other, the first of the best candidates: every earlier one is worse in writability, then level, and no later one is better |
| Hierarchy.CandidatesAre | apps/api/integrations/google_ads/discover_resources.py:113-148 | The candidates of an answer are those of its relevant rows |
| Hierarchy.DescentsAre | apps/api/integrations/google_ads/discover_resources.py:122-129 | The accounts queued are the relevant rows one level down that are managers not asked yet, at the next level |
| HierarchySearch.NoShortcut | apps/api/integrations/google_ads/discover_resources.py:99-129 | Any manager n links below the root was asked within n, or something within n still waits |
| HierarchySearch.TurnIsShortest | apps/api/integrations/google_ads/discover_resources.py:101-105 | The account taken from the front of the queue is asked at its shortest distance, cycles or not |
| HierarchySearch.RoundKeeps | apps/api/integrations/google_ads/discover_resources.py:101-151 | One turn of the loop keeps the search's invariant: the queue ascends by at most one level, nothing asked is closer than recorded, everything found is real |
| HierarchySearch.EverythingFound | apps/api/integrations/google_ads/discover_resources.py:101-151 | When the queue is empty every account below the root was recorded within its distance |
| HierarchySearch.AskedAtShortest | apps/api/integrations/google_ads/discover_resources.py:99-105 | When the queue is empty every manager below the root was asked, at its shortest distance |
| Discovery.Unique | apps/api/integrations/google_ads/discover_resources.py:84-90 | The roots are the names, each once |
| Discovery.UniqueKeepsOrder | apps/api/integrations/google_ads/discover_resources.py:84-90 | In the order in which the names occur first |
| Discovery.DiscoveredIffReached | apps/api/integrations/google_ads/discover_resources.py:91-152 | An account is discovered iff some root reaches it through managers |
| Discovery.BestIsNearest | apps/api/integrations/google_ads/discover_resources.py:149-199 | The kept record is writable if any root gives that, and as near as any chain from a root giving the same writability |
| Discovery.BestIsFirst | apps/api/integrations/google_ads/discover_resources.py:92-199 | Of the roots that are as near and give the same writability, the kept record is found from the one listed first |
| Discovery.ParentIsNearer | apps/api/integrations/google_ads/discover_resources.py:127-151 | Every recorded parent is itself recorded at a strictly smaller level, so parents form a forest even over cycles |
| Discovery.MergedIsCorrect | apps/api/integrations/google_ads/discover_resources.py:91-152 | Every merged record is right: writability, role, manager flag, level, root (the first of the equally good ones) and parent at once |
| Discovery.RecordsGrow | apps/api/integrations/google_ads/discover_resources.py:92-152 | A finished search adds its root's records to those of the earlier roots |
| Discovery.SearchRoot | apps/api/integrations/google_ads/discover_resources.py:99-151 | The search below one root ends, having asked each customer at most once and merged exactly what it found |
| Discovery.DiscoverBelow | apps/api/integrations/google_ads/discover_resources.py:91-152 | The loop over distinct roots keeps all of this |
| Discovery.Discover | apps/api/integrations/google_ads/discover_resources.py:73-152 | Over any accessible names: exactly the reachable accounts, each recorded writable iff a root with a writing role reaches it as a non-manager, at the least such distance and from the first such root, each customer asked at most once a root, and exactly the roots and the managers below them asked |
| WorkerBatch.DoKeepsOk | apps/api/workers/concurrency.py:43-57 | Every step of every lane keeps the counters, the slots and each lane's place in the loop consistent |
| WorkerBatch.RunKeepsOk | apps/api/workers/concurrency.py:43-62 | So does every interleaving of any number of batches |
| WorkerBatch.RunningWithinLimit | apps/api/workers/concurrency.py:29-33 | In every run the items running in all batches together stay within the slot limit |
| WorkerBatch.StartsAreCounted | apps/api/workers/concurrency.py:52-57 | A batch has as many lanes as items or slots, whichever are fewer, starts at most max_items calls, and every start and every completion is some lane's own |
| WorkerBatch.NoneStartsAfterShutdown | apps/api/workers/concurrency.py:49-51 | Once its shutdown is set a batch starts nothing more, whatever follows |
| WorkerBatch.CollectResults | apps/api/workers/concurrency.py:63-74 | The loop computes what the batch comes to: a cancelled lane is raised over everything; else the errors, all of them in lane order; else the sum of the counts |
| WorkerBatch.OutcomeOfLanes | apps/api/workers/concurrency.py:59-74 | So for the lanes of an ended batch: cancelled iff a lane was, else failed with exactly the failed lanes' errors in lane order, else a count |
| WorkerBatch.TruesAreCalls | apps/api/workers/concurrency.py:55-57 | A batch's counted completions are exactly its calls that returned True in the run |
| WorkerBatch.CleanBatchReturnsTrues | apps/api/workers/concurrency.py:59-74 | What run_worker_batch makes of the lanes of a batch that ends without errors is its return: exactly the number of its calls that returned True |
| WorkerBatch.CleanBatchDidAll | apps/api/workers/concurrency.py:48-60 | Without errors or shutdown a finished batch started all its items, or exactly min(max_items, limit) of its calls returned False |
| WorkerBatch.FalsesAreStops | apps/api/workers/concurrency.py:55-56 | The lanes that ended on a False are as many as the calls of the run that returned False |
| WorkerBatch.AllSlotsAreUsed | apps/api/workers/concurrency.py:59-60 | From the start some run has min(max_items, limit) items of a batch running at once |
| WorkerBatch.EventsDecrease | apps/api/workers/concurrency.py:48-57 | Every step of a lane lowers a measure that nothing raises |
| WorkerBatch.RunsAreBounded | apps/api/workers/concurrency.py:48-57 | No run has more lane steps than its start's measure |
| WorkerBatch.NeverStuck | apps/api/workers/concurrency.py:29-57 | While some lane has not ended, some lane can take a slot, check, or have its call finish: no deadlock over the shared slots |
| QuickXorHash.TwoPartRotates | apps/api/utils/quickxorhash.py:17-18 | (shifted & mask) \| (shifted >> 160) is a true 160-bit rotation |
| QuickXorHash.RotateXor | apps/api/utils/quickxorhash.py:16-18 | Rotation distributes over XOR, so a column can be folded before it is rotated |
| QuickXorHash.ColumnAppend | apps/api/utils/quickxorhash.py:16 | Appending a byte changes only the column of its position |
| QuickXorHash.FoldJoined | apps/api/utils/quickxorhash.py:15-18 | A byte that joins one column changes the fold by its own rotation, once that column is folded |
| QuickXorHash.FoldIsDefinition | apps/api/utils/quickxorhash.py:14-18 | Folding columns equals XORing each byte i rotated by 11 * i mod 160 |
| QuickXorHash.ShortFold | apps/api/utils/quickxorhash.py:15 | Stopping at min(len, 160) columns loses nothing |
| QuickXorHash.FoldColumn | apps/api/utils/quickxorhash.py:16 | The reduce over every 160th byte from an index |
| QuickXorHash.QuickXor | apps/api/utils/quickxorhash.py:10-20 | The twenty bytes hold the definition's word with the length at bit 96; they exist iff the length is below 2^64 |
| QuickXorHash.DefinedIsParity | apps/api/utils/quickxorhash.py:14-18 | A bit of the definition is set iff an odd number of ones lands on it, digit k of byte i landing on bit (11 * i + k) mod 160 |
| QuickXorHash.HashDigits | apps/api/utils/quickxorhash.py:10-20 | In integers alone: digit k of byte j of the hash is a one iff an odd number of ones lands on bit 8 * j + k, those of the length landing from bit 96 on |
| QuickXorHash.FitsIffShort | apps/api/utils/quickxorhash.py:19-20 | The word fits 20 bytes iff the length is below 2^64 |
| QuickXorHash.BytesHoldWord | apps/api/utils/quickxorhash.py:20 | Bit 8 * j + k of the word is bit k of byte j |
| QuickXorHash.BitsBelow | apps/api/utils/quickxorhash.py:12-13 | The model of integers by their bits agrees with the integers: n is below 2^width iff its bits are |
| QuickXorHash.IntOfBits | apps/api/utils/quickxorhash.py:12-13 | And every bounded set of bits is some integer's |
| QuickXorHash.ShiftLeftMultiplies | apps/api/utils/quickxorhash.py:17-19 | In that model << multiplies by a power of two |
| QuickXorHash.ShiftRightDivides | apps/api/utils/quickxorhash.py:18 | >> divides by it |
| QuickXorHash.MaskIsRemainder | apps/api/utils/quickxorhash.py:13-18 | & with 2^width - 1 is the remainder |
| QuickXorHash.XorIsBitwise | apps/api/utils/quickxorhash.py:16-19 | and ^ is digit by digit |
| Reframe.CropHasOutputShape | apps/renderer/media/reframe.py:47-52 | The crop has exactly the output's shape, fits the frame, and touches it on one axis |
| Reframe.Position | apps/renderer/media/reframe.py:120-122 | Every planned position is in the frame |
| Reframe.PositionIsNearest | apps/renderer/media/reframe.py:120-122 | No place for the crop inside the frame puts its middle nearer the subject |
| Reframe.StaysInMiddleThird | apps/renderer/media/reframe.py:88-91 | The crop stays iff the subject is between one third and two thirds of it, or it is already where the subject asks |
| Reframe.CentreIsHalfway | apps/renderer/media/reframe.py:18 | A crop at the position CENTRE leaves as much of the frame on one side as on the other |
| Reframe.FramedIsInside | apps/renderer/media/reframe.py:89-91 | A subject in the middle third, or whose best clamped position the crop has, is inside the crop |
| Reframe.Largest | apps/renderer/media/reframe.py:116 | The first of the faces of greatest area |
| Reframe.SubjectIsMidway | apps/renderer/media/reframe.py:113-117 | The subject is the first of the largest faces, and its centre lies midway between that face's edges; there is none iff there is no face |
| Reframe.PlanShot | apps/renderer/media/reframe.py:86-93 | The loop over one shot's sightings appends exactly the shot's pans |
| Reframe.PlanShots | apps/renderer/media/reframe.py:76-94 | The loop over the shots plans the segment |
| Reframe.CutsInside | apps/renderer/media/reframe.py:70 | The cuts inside the segment, ascending and without repeats |
| Reframe.SubjectTrack | apps/renderer/media/reframe.py:55-94 | The planner over any cuts, in any order, repeated or outside the segment |
| ReframePlan.PansInTurn | apps/renderer/media/reframe.py:86-93 | Every pan takes time, ends before the next sighting and within its shot, and leads where the last sighting asked |
| ReframePlan.CropHoldsStill | apps/renderer/media/reframe.py:86-93 | As long as the subject stays in the middle third of the crop no pan is planned |
| ReframePlan.ShotInTurn | apps/renderer/media/reframe.py:82-93 | A shot's moves: one jump, at its start, unless it is the first shot, and then only pans |
| ReframePlan.MovesInTurn | apps/renderer/media/reframe.py:76-94 | Over any number of shots the moves come in time order, never overlap, and jump only at cuts |
| ReframePlan.PlanIsOrderly | apps/renderer/media/reframe.py:76-94 | All of this for the whole plan, with every position in [0, 1] and every move inside the segment |
| ReframePlan.FoundAre | apps/renderer/media/reframe.py:71-80 | A shot's sightings are exactly its samples with a face that no cut is within the guard of |
| ReframePlan.EmptyShotIsCentred | apps/renderer/media/reframe.py:81-85 | A shot in which no face was found is centred from its start to its end |
| ReframePlan.CropStaysFramed | apps/renderer/media/reframe.py:86-93 | From a sighting that asks for no pan, or from the end of its pan, until the next sighting or the shot's end the crop stands where that sighting asked: it has the subject in its middle third or sits at the clamped best position |
| ReframePlan.SubjectStaysInside | apps/renderer/media/reframe.py:86-122 | So a centre in [0, 1] is inside the crop for as long |
| ReframeExpression.CropExpression | apps/renderer/media/reframe.py:97-110 | The loop prints one term for the start and one for each move that is not tiny |
| ReframeExpression.PrintedIff | apps/renderer/media/reframe.py:101-103 | A move is printed iff it changes the position by a ten-thousandth or more |
| ReframeExpression.FourDecimals | apps/renderer/media/reframe.py:99-109 | A printed number has four decimals, rounded half to even |
| ReframeExpression.RampsArePlan | apps/renderer/media/reframe.py:97-110 | Because moves never overlap, the sum of ramps is the piecewise-linear plan at every time |
| ReframeExpression.RampIsProgress | apps/renderer/media/reframe.py:108 | The printed clip(...) in seconds is the move's progress in milliseconds |
| ReframeExpression.TermError | apps/renderer/media/reframe.py:102-109 | A printed or dropped term is off by at most 0.0001 at every time |
| ReframeExpression.PrintedIsPlanned | apps/renderer/media/reframe.py:97-110 | The printed sum is within 0.0001 * (moves + 1) of the plan at every time |
| ReframeExpression.PlanInFrame | apps/renderer/media/reframe.py:76-110 | A plan between positions in [0, 1] stays in [0, 1], also inside a pan |
| ReframeExpression.ExpressionFollowsPlan | apps/renderer/media/reframe.py:76-110 | For every segment the printed expression follows its plan, and stays in the frame, up to that tolerance |
| TextWindow.StepBack | apps/api/utils/text_window.py:44-47 | The loop finds the last boundary at or before an index, no further back than a bound |
| TextWindow.Utf8Window | apps/api/utils/text_window.py:20-37 | The window or which refusal, for any bytes, offset and size; a window ends at the last place within the size where no character goes on, and its characters written again are its bytes |
| TextWindow.NextWidthIsFirstWidth | apps/api/utils/text_window.py:50-59 | The width named in a refusal is that of the next character |
| TextWindow.NextWidthIs | apps/api/utils/text_window.py:50-59 | For any byte, also one that starts no character: the width its leading bits announce, or 1 |
| TextWindow.BoundarySplits | apps/api/utils/text_window.py:40-41 | In well-formed text the mask test accepts exactly the places where the text before is well-formed; there the text and its characters split |
| TextWindow.DecodedEncodes | apps/api/utils/text_window.py:37 | What is read from well-formed bytes are characters up to U+10FFFF and no surrogates, and written in the forms of section 3 of RFC 3629 they are the bytes again |
| TextWindow.TextComesBack | apps/api/utils/text_window.py:37 | Any such characters written are read as those characters |
| TextWindow.WellFormedIffWritten | apps/api/utils/text_window.py:37 | So the bytes that decode are exactly the texts that can be written |
| TextWindow.NextBoundary | apps/api/utils/text_window.py:40-59 | The next boundary is one character's width away, and none is nearer |
| TextWindow.ReadIsExact | apps/api/utils/text_window.py:20-37 | From a boundary of well-formed text: refused as too small iff the next character does not fit, naming the least size that works; else it ends at the last boundary within the size, gets further, and its characters are those whose bytes lie there |
| TextWindow.PagesMakeTheText | apps/api/utils/text_window.py:20-37 | With pages of at least four bytes, of any sizes, reading on from each end never fails, ends, and the pages make up the text |
| TextWindow.ReadingFromTheStart | apps/api/utils/text_window.py:20-37 | So reading from 0 gives the characters whose bytes are the whole data |
| RateLimiter.Limiter.CheckMemoryRateLimit | apps/api/core/rate_limiting.py:71-132 | The whole answer and the whole new table of one call, with the two fixed answers that leave the table alone |
| RateLimiter.Limiter.PruneMemoryBuckets | apps/api/core/rate_limiting.py:98-108 | Deleting while walking a copy removes exactly the expired buckets, and then the oldest |
| RateLimiter.Limiter.PruneOldest | apps/api/core/rate_limiting.py:104-108 | A table still over its cap loses its oldest buckets in insertion order, down to nine tenths |
| RateLimiterRuns.WindowHolds | apps/api/core/rate_limiting.py:308-311 | A clock reading is inside the window that starts at its window start |
| RateLimiterRuns.RetryAfterIsExact | apps/api/core/rate_limiting.py:313-315 | Waiting some seconds reaches a later window iff they are at least retry_after |
| RateLimiterRuns.PruningLeaves | apps/api/core/rate_limiting.py:98-108 | Pruning drops the buckets whose window is over; if more than 20,000 keys are left it keeps only the 18,000 that came last, all in their order |
| RateLimiterRuns.CallKeepsOrder | apps/api/core/rate_limiting.py:79-85 | A key keeps the place its first use gave it, and a new one comes last |
| RateLimiterRuns.CallIsServed | apps/api/core/rate_limiting.py:71-108 | One call's effect on every key: its own is kept and counted, others are unchanged, or gone because expired or evicted |
| RateLimiterRuns.RunKeepsCap | apps/api/core/rate_limiting.py:83-108 | The table never exceeds its cap after a call |
| RateLimiterRuns.RunTracks | apps/api/core/rate_limiting.py:71-108 | Over any run under a clock that never goes back, each bucket equals the unbounded counter of its key and window unless that key was evicted in it, and never exceeds it |
| RateLimiterRuns.AttemptsAreCounted | apps/api/core/rate_limiting.py:79-96 | The attempt number answered is the unbounded counter's, unless the key was evicted in this window, and never more |
| RateLimiterRuns.UsedKeyIsKept | apps/api/core/rate_limiting.py:82-108 | The key just used is in the table after pruning, with its count |
| RateLimiterRuns.WindowAdmitsItsLimit | apps/api/core/rate_limiting.py:79-96 | A key not evicted in a window is allowed exactly the lesser of its calls and its limit there |
| RateLimiterRuns.AtMostTwiceTheLimit | apps/api/core/rate_limiting.py:71-96 | In any interval one window long an unevicted key is allowed at most twice its limit |
| RateLimiterRuns.FewKeysNeverEvict | apps/api/core/rate_limiting.py:84-108 | A run over at most 20,000 keys evicts none |
| RateLimiterRuns.FewKeysAreExact | apps/api/core/rate_limiting.py:71-108 | So every call of such a run is answered with its exact number in its window |
| AudioChunks.Silences | apps/renderer/media/extract_audio.py:83-95 | The silences are exactly the start edges directly followed by an end edge |
| AudioChunks.SilencesAreAdjacent | apps/renderer/media/extract_audio.py:83-95 | Each start edge and the end edge right after it make a silence, all of them, in order, for any report |
| AudioChunks.SilencesReadBack | apps/renderer/media/extract_audio.py:83-95 | Printed silences are read back as they were, whatever is still open at the end |
| AudioChunks.Nearest | apps/renderer/media/extract_audio.py:105-107 | The first of the longest silences near a share's end, or none if none is near |
| AudioChunks.ChunkBounds | apps/renderer/media/extract_audio.py:98-111 | Every split is the middle of that silence, or the rounded share's end |
| AudioChunks.NearIff | apps/renderer/media/extract_audio.py:100-104 | A silence is near iff its middle is within a tenth of a share of the share's end |
| AudioChunks.SplitIsMiddle | apps/renderer/media/extract_audio.py:103-110 | A split is the middle, to half a millisecond, of the first of the longest near silences, or if none is near the millisecond nearest to the share's end, half to even |
| AudioChunks.SplitIsClose | apps/renderer/media/extract_audio.py:101-110 | However silences fall, a split strays from its share's end by a tenth of a share or half a millisecond, and half a millisecond more before it |
| AudioChunks.ChunksAreNearlyEqual | apps/renderer/media/extract_audio.py:62-80 | Every chunk lasts at most 1.2 shares and 1 ms, and at least the lesser of 0.8 of a share less 0.5 ms and 0.9 of a share less 1 ms, for any duration |
| AudioChunks.NearlyAShareIsSome | apps/renderer/media/extract_audio.py:98-111 | A chunk that is nearly a share has some time above 10/9 ms a chunk |
| AudioChunks.BoundBetween | apps/renderer/media/extract_audio.py:98-111 | For any silences, every bound is between the earliest and the latest that its share's end allows, both computed from the duration and the chunk count |
| AudioChunks.EmptyChunk | apps/renderer/media/extract_audio.py:98-111 | Both are reached: where the latest bound of one end is not before the earliest of the next, some silences leave the chunk between them empty |
| AudioChunks.NeverEmptyIff | apps/renderer/media/extract_audio.py:62-111 | The bounds strictly increase for every list of silences iff, for the duration and the chunk count, every end's latest bound is before the next one's earliest |
| AudioChunks.TenNinthsIsEnough | apps/renderer/media/extract_audio.py:98-111 | That holds above 10/9 ms a chunk, so at 2 ms a chunk |
| AudioChunks.OneEachIsEnough | apps/renderer/media/extract_audio.py:98-111 | It holds at exactly 1 ms a chunk |
| AudioChunks.BelowOneIsNotEnough | apps/renderer/media/extract_audio.py:98-111 | It never holds below 1 ms a chunk |
| AudioChunks.ChunksNeverGoBack | apps/renderer/media/extract_audio.py:98-111 | No chunk ends before it starts, for any duration and silences |
| AudioChunks.DetectedNeverEmptyIff | apps/renderer/media/extract_audio.py:62-111 | For silences as the detector is run to report them, inside the audio and 0.3 s long up to rounding, in up to 32 chunks: no chunk is empty iff there is a millisecond for each |
| AudioChunks.TooShortCanBeEmpty | apps/renderer/media/extract_audio.py:98-111 | At 11 ms in 10 chunks, one silence from 6 to 7 ms leaves a chunk empty |
| AudioChunks.Validate | apps/renderer/media/extract_audio.py:29-36 | A request is accepted iff it asks for 1 to 32 chunks of a proper range |
| AudioChunks.ExtractAudio | apps/renderer/media/extract_audio.py:39-80 | The reported ranges tile the audio from its offset without gap or overlap, meet at the splits, are nearly a share each, and are none of them empty whenever the duration and the chunk count allow for none; the two refusals are exact |
| Money.DecimalPlaces | apps/api/integrations/meta_ads/money.py:84-91 | No places for exactly the listed one-unit currencies, two for exactly the other supported ones, and a refusal for every other code |
| Money.ToDecimal | apps/api/integrations/meta_ads/money.py:94-117 | The loop that drops trailing zeros ends with the stripped number; type, finiteness and bounds are checked first |
| Money.WithinBoundsIff | apps/api/integrations/meta_ads/money.py:103-109 | Within the bounds are exactly the numbers of at most 256 digits, an exponent of at most 256 either way, and a size below 10^256 |
| Money.StrippingKeepsValue | apps/api/integrations/meta_ads/money.py:110-117 | Stripping keeps the value, the sign and the first digit's exponent, leaves no trailing zero, and makes every zero the one zero |
| Money.StrippedIsWholeIff | apps/api/integrations/meta_ads/money.py:63-81 | A stripped non-zero number is whole iff its exponent is not negative |
| Money.MinorToAmountIff | apps/api/integrations/meta_ads/money.py:63-70 | Accepts exactly bounded whole numbers in a supported currency, and the amount in minor units is the number given |
| Money.MinorRefusals | apps/api/integrations/meta_ads/money.py:63-70 | The reason of every refusal, in the order of the checks: currency, type, finiteness, bounds, fraction |
| Money.AmountToMinorIff | apps/api/integrations/meta_ads/money.py:73-81 | Accepts exactly the bounded amounts with whole minor units whose first digit stays in bounds, and returns that many |
| Money.AmountRefusals | apps/api/integrations/meta_ads/money.py:73-81 | The same for amounts, where the bounds are met before and after the point is moved |
| Money.MinorComesBack | apps/api/integrations/meta_ads/money.py:63-81 | Every accepted minor amount comes back from its amount, never refused by a bound |
| Money.IntegerComesBack | apps/api/integrations/meta_ads/money.py:63-81 | Every integer of at most 256 digits is accepted and comes back |
| Money.AmountComesBack | apps/api/integrations/meta_ads/money.py:63-81 | Every accepted amount comes back from its minor units as the same number |

## Left out

- The effects around these algorithms: prctl and setrlimit, starting ffmpeg, HTTP requests, downloads, clocks and
  the database. Their results are parameters (the host's name, probed summaries, provider answers, clock readings).
- Seccomp.ProgramDecidesPolicy: the socket domain is decided on the low 32 bits of the first argument, as the
  emitted program loads them; the kernel's view of the high half is not part of this model.
- The text of the filter graph: filters are records, `.6f` times are exact frame and sample counts, and labels are
  constructors, so formatting and quoting are not modelled.
- The framing filters and frame rate conversion are one opaque node before each input pad: a pad's stream is what
  reaches tpad. Width, height, shot cuts, captions parsing and codec options are not modelled.
- The lists of xfade styles and acrossfade curves are a parameter: no property depends on a name but `none`.
- ClipOutcome.RunsIff: a crossfade whose first stream ends before the mix does, or that is longer than its second, has
  no meaning in the model, so a run that meets one stops; `GraphLabels.LabelsUsedOnce` does not depend on it.
- CutGraph.CutGraphRuns: asks that every keep range ends inside its trimmed segment and every segment is supplied;
  `ClipOutcome.TotalIff` shows that the length it promises cannot be had otherwise. So does
  ClipOutcome.AcceptedClipRuns, as run_cut does not check how long a picture lasts.
- FilterGraph.RunAppend: in the model concat appends cells. ffmpeg pads a segment's shorter sound with silence and
  starts the next segment after the longer stream, so across hard cuts the exact sample count, where [aN] does not
  last as long as [vN], depends on every segment being supplied and the frame rate dividing 48000
  (`Ffmpeg.SoundDrift`).
- CutGraph.InsideSourcesKeepsFit: asks that segments lie inside their sources, which validation cannot know.
- Pixel and sample contents: a crossfade is a named mix of two cells, and a fade a named change of one.
- Discovery.Discover: takes each customer's normalised rows and each root's role as fixed, and assumes that every
  answer holds its customer's own level-0 row and no other, that the manager flag is the same wherever an account
  appears, and that only managers list others. Names, currencies and statuses copied into a record, the order of the
  returned tuple, and the parsing of rows are left out. Which of several parents equally near under one root is kept
  is said of the candidates in their order (Hierarchy.MergeKeepsBest), not of the hierarchy.
- WorkerBatch.NeverStuck: a call may finish at any time but is assumed to finish; waiting lanes take a free slot in
  any order. The semaphore that is made anew when the event loop or the setting changes is one fixed semaphore.
  Exceptions that are neither errors nor cancellations are not modelled, and shutdown is only ever set.
- QuickXorHash.QuickXor: stops at the twenty bytes; the base64 text is left out.
- Reframe.SubjectTrack: positions are reals, so the rounding of binary floating point is not modelled; face
  detection and `detection_size` are left out.
- TextWindow.Utf8Window: malformed bytes make one decoding error, without Python's reason and position.
- RateLimiter.Limiter.CheckMemoryRateLimit: whether the address parses is a parameter, and the limits are fixed
  when the limiter is made. Limits kept in PostgreSQL, login budgets and proxy addresses are left out.
- AudioChunks.ChunkBounds: shares and reaches are exact fractions, so the rounding of binary floating point at the
  edge of the reach is not modelled; the re-encoding of the chunks is left out.
- Money.ToDecimal: a text comes with the decimal it reads as; Python's decimal syntax is left out.
- Job leasing and scheduling, tenant context, schema reconciliation, cryptography and the provider clients.
