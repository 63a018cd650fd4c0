# LodorOS launcher and emulator front end: a verified model

Dafny models of the parts of the launcher (`minui.c`), the emulator front end (`minarch.c`) and
their shared library (`api.c`, `scaler.c`) in which something can go wrong quietly, with proofs
of what they keep. Check everything with `dafny verify dfyconfig.toml`.

| files | what they model |
|---|---|
| ArtSpec, ArtCache, ArtProtocol, ArtRecency, ArtAnswers | the box-art cache: a linked list bounded by bytes, the locked regions that update it, every interleaving of the UI thread with the decode worker, what has been used least recently in each, and what each request and each turn of the worker does |
| FixedWalk, ArtFit, MenuScale | fitting artwork to its slot, the 16.16 nearest walk, and the menu preview that reuses rows |
| Resampler, AudioSpec, AudioProtocol, Audio | the sample ring, its nearest-neighbour resampler, and every interleaving of producer and callback |
| Pixels, AASpec, AAScaler, AABlend, AAPicture | RGB565 averages in packed words, the anti-aliasing scaler built on them, and the picture it leaves as a formula per channel |
| Rows, IntScaler | images as rows of pixels, and the integer scalers with their packed words |
| PosixShell, ShellQuote | launch commands, and an independent reading of them by the rules of POSIX.1-2017, Shell Command Language |
| Json, FirstHost, HostCut | JSON texts by the grammar of RFC 8259, the brace-matching scan that cuts one object out of them, and files that were read only in part |
| AtomicWrite | whole-file replacement on a card that may lose power between any two steps |
| ListWindow, AlphaIndex, Directory, DirectoryStack | scrolling windows, the alphabetical groups L1 and R1 jump between, both under entries that come and go, and windows that are saved and put back |
| CStrings, ConfigText, Config | `minarch.cfg`: written, searched and read back |
| ChtValue, Cheats, SidecarText | the cheat table, the ownership of its strings, and its sidecar file |
| Arith, Seqs, Options | shared arithmetic, sequences and the option type |

Code that updates something in place is a class or a method over arrays here too, and is proved
against a specification function; what the code is for is then proved about that function, for
all inputs, all runs or all interleavings. Concurrency is a state machine whose steps are the
regions under the mutex (or the audio lock). Pixels are 32-bit words holding one or two RGB565
values; lengths, pitches and counters are unbounded integers unless a wrap-around matters, and
then it is written out.

## What turned out not to hold

Each of these is a lemma about the code as it is, with an input and the exact condition.

- Asking again for artwork whose decode is in flight discards that decode: it is delivered exactly
  when no request queued a new one meanwhile (`ArtProtocol.DeliveredIffNotSuperseded`,
  `ArtProtocol.RepeatedRequestStarves`); the comment at minui.c:3020 speaks of a newer request only.
- L1 and R1 use group starts that only a scan computes. Once the Continue tile or the banner has
  been removed they can select an entry behind the end of the list, or land in the middle of a
  group (`Directory.JumpLeavesTheList`; exactly when: `Directory.StepKeepsIff`,
  `Directory.JumpLandsIff`).
- Inserting the Continue tile can leave the selection outside the window
  (`ListWindow.InsertLosesSelection`; exactly when: `ListWindow.InsertKeepsIff`).
- A directory that is opened again gets its saved window back without a look at what it holds now,
  and another directory gets it if it is opened at the same depth and selection: the selection can
  lie behind the end (`DirectoryStack.ShrunkDirectory`; exactly when: `DirectoryStack.OpensOkIff`).
- Names that sort before a and after z form two groups with the same letter 0, so 28 groups are
  possible in an array of 27 (`AlphaIndex.AlphabetOverflows`; exactly when, for sorted names:
  `AlphaIndex.OverflowIff`). The root is not sorted as a whole and reaches 28 with 23 systems
  (`AlphaIndex.RootOverflows`; exactly when: `AlphaIndex.RootOverflowIff`). For any list at all,
  `AlphaIndex.Index` gives the number of groups.
- `Lodor_firstHost` starts at the first text `"hosts"` wherever it stands, not at the top-level key
  its comment names. A platform folder named hosts hides the hosts, and an older array of hosts is
  read instead (`FirstHost.FolderNamedHosts`, `FirstHost.OlderHosts`; exactly when:
  `FirstHost.FirstHostIff`).
- A key of `minarch.cfg` that another key ends with reads the other's value if that line stands
  first (`ConfigText.SuffixShadows`; exactly when, for every file: `ConfigText.OwnLineIff` and
  `ConfigText.AnswersIff`).
- The cheat sidecar is not always replaced whole, since `Lodor_cheatsSidecarSave` looks at no result
  before it renames. If one write of many fails and the flush and the sync succeed, lines are
  missing even without a crash (`AtomicWrite.SidecarLosesLines`); if the sync fails, a crash may
  leave anything. Exactly when it is whole: `AtomicWrite.Card.SidecarReplace`.
- A crash between the rename and the sync of the directory can leave both names on one file, which
  the next write then truncates (`AtomicWrite.TwoNamesOneFile`; exactly when:
  `AtomicWrite.NextWriteSafeIff`).
- The 16.16 walk can show the column before the exact one, and a source of 2^16 columns shows
  only its first (`FixedWalk.WalkFallsShort`; exactly when: `FixedWalk.WalkExactIff`).
- The output past a column's far blend bound, marked bbbb at api.c:511, is not always the right pixel:
  an earlier output of the column may have left its blend in b (`AABlend.FarShowsBlend`; exactly
  when: `AABlend.FarShowsRightIff`).
- A ring of one frame is full although it is empty (`AudioProtocol.BothStuckIffOneFrame`).
- The notes at minui.c:1491 and minui.c:1556 say that `escapeSingleQuotes` modifies its argument. It
  does not; the model follows the code.

## Model

| member | source | states |
|---|---|---|
| ArtSpec.EvictIsLeastRecentlyUsed | workspace/all/minui/minui.c:2876-2888 | what an insertion evicts is exactly the unpinned entries behind one recency threshold: the head stays, one victim fewer would still exceed the budget, and what is left is within budget or has no unpinned entry behind the head |
| ArtRecency.ListedByLastUse | workspace/all/minui/minui.c:2855-2889 | from start-up, in every interleaving, the list is in the order of last use: the last hit or insertion of each path |
| ArtRecency.InsertionEvictsOldest | workspace/all/minui/minui.c:2876-2888 | from start-up, in every interleaving, whatever a delivered decode evicts was last used before every unpinned entry it leaves |
| ArtRecency.StepKeepsOrder | workspace/all/minui/minui.c:2855-2889 | every step of either thread keeps that order: a hit and an insertion come to the front, eviction and everything else leaves it |
| ArtRecency.NotedIsLastUse | workspace/all/minui/minui.c:2859-2862 | the time kept for a path is that of the last action of the run that hit or inserted it |
| ArtSpec.EvictBound | workspace/all/minui/minui.c:2876-2888 | with distinct paths, a cache still over budget after eviction holds only the new head and at most the pinned entry |
| ArtSpec.EvictStops | workspace/all/minui/minui.c:2876-2882 | eviction ends within budget or where the walk finds no victim |
| ArtSpec.EvictConserves | workspace/all/minui/minui.c:2883-2888 | each surface of the list is afterwards listed or freed, as often as it was listed before |
| ArtSpec.EvictPayload | workspace/all/minui/minui.c:2874-2886 | bytes kept and bytes freed add up to the bytes before |
| ArtSpec.EvictDistinct | workspace/all/minui/minui.c:2867-2889 | eviction keeps paths distinct, keeps the head in front, keeps the pinned entry and adds nothing |
| ArtSpec.LastVictimIsLast | workspace/all/minui/minui.c:2879-2882 | the victim is not pinned and everything older than it, apart from the head, is |
| ArtSpec.IndexOfIsFirst | workspace/all/minui/minui.c:2855-2866 | a lookup finds the first entry for a path, or there is none |
| ArtSpec.TouchDistinct | workspace/all/minui/minui.c:2859-2862 | moving a hit to the front keeps exactly the same entries and distinct paths |
| ArtSpec.TouchKeeps | workspace/all/minui/minui.c:2859-2862 | moving a hit to the front changes neither the number of entries nor their bytes |
| ArtSpec.SurfacesFreed | workspace/all/minui/minui.c:3009-3014 | draining frees each listed surface as often as it is listed |
| ArtCache.Cache.constructor | workspace/all/minui/minui.c:2986-3001 | an empty list, empty slots, no pin, the given budget |
| ArtCache.Cache.Find | workspace/all/minui/minui.c:2855-2866 | relinks a hit to the front in place and returns its surface; misses change nothing |
| ArtCache.Cache.FindVictim | workspace/all/minui/minui.c:2879-2882 | the walk ends at the least recently used node that is neither head nor pinned, with its predecessor |
| ArtCache.Cache.Insert | workspace/all/minui/minui.c:2867-2889 | links the head, counts its bytes and evicts as the specification says; without memory the surface is freed and the list stays |
| ArtCache.Cache.EvictLoop | workspace/all/minui/minui.c:2876-2888 | the list and the freed surfaces after the loop are those of the specification |
| ArtCache.Cache.Take | workspace/all/minui/minui.c:2952-2962 | under shutdown the worker leaves; otherwise it takes the first filled slot, or sleeps when there is none |
| ArtCache.Cache.Finish | workspace/all/minui/minui.c:2967-2982 | a superseded or duplicate decode is freed, anything else is inserted and raises the ready flag |
| ArtCache.Cache.Request | workspace/all/minui/minui.c:3024-3042 | a hit is bumped, pinned and returned; a miss that is not already queued as current takes slot 0 with a new sequence number and signals |
| ArtCache.Cache.Prefetch | workspace/all/minui/minui.c:3046-3063 | fills the first free prefetch slot unless the path is cached or queued; signals exactly then |
| ArtCache.Cache.PollReady | workspace/all/minui/minui.c:3065-3072 | returns the flag and clears it, nothing else |
| ArtCache.Cache.RequestShutdown | workspace/all/minui/minui.c:3002-3008 | raises the shutdown flag, nothing else |
| ArtCache.Cache.Drain | workspace/all/minui/minui.c:3009-3014 | frees every entry once, in list order, and leaves an empty list of zero bytes |
| ArtProtocol.StepKeepsInv | workspace/all/minui/minui.c:2949-3072 | every locked region, decode, wake-up and quit step keeps the invariant of the whole system |
| ArtProtocol.EveryRunKeepsInv | workspace/all/minui/minui.c:2949-3072 | so does every interleaving of the two threads |
| ArtProtocol.CacheSafety | workspace/all/minui/minui.c:2855-3042 | from start-up, in every interleaving: distinct paths, the byte counter equals the sum over the list, within budget unless at most two entries are left, and every surface ever created is in exactly one place (an entry, the worker's hand, or freed once) |
| ArtProtocol.HeldSurfaceSafe | workspace/all/minui/minui.c:3020-3032 | until the cache is drained, the surface of the last hit is still cached and has not been freed |
| ArtProtocol.NoLeakAfterQuit | workspace/all/minui/minui.c:3002-3019 | after quitting every surface ever created has been freed exactly once |
| ArtProtocol.SleeperHasNothingToDo | workspace/all/minui/minui.c:2954-2960 | a worker asleep on the condition variable has no filled slot and no shutdown request waiting: no signal is lost |
| ArtProtocol.InsertedIffDelivers | workspace/all/minui/minui.c:2968-2981 | a decode is inserted exactly when it is not superseded and not a duplicate, and a current-slot decode that is answers the newest current request queued |
| ArtProtocol.DeliveredIffNotSuperseded | workspace/all/minui/minui.c:2969-2973 | an up-to-date current decode is delivered exactly when no request queued a new current decode while it was in flight, not even for the same path |
| ArtProtocol.RequestsCount | workspace/all/minui/minui.c:3033-3037 | the sequence number counts the current requests queued |
| ArtProtocol.RepeatedRequestStarves | workspace/all/minui/minui.c:3033-3037 | asking for a path again during each of its decodes discards all n of them and leaves the path uncached, for every n |
| ArtProtocol.FirstRequestWaits | workspace/all/minui/minui.c:3033-3037 | a first request puts a new system into the state that result starts from |
| ArtProtocol.LandingRaisesReady | workspace/all/minui/minui.c:2977-2980 | only the worker's second region makes a missing path cached, and it raises the ready flag |
| ArtProtocol.LandedIsAnnounced | workspace/all/minui/minui.c:2977-2980 | a path that was missing and is cached later landed in between, and since then the flag is up or a poll has returned true |
| ArtProtocol.FlagClearedByPoll | workspace/all/minui/minui.c:3065-3072 | only a poll that returns true takes the flag down |
| ArtProtocol.QueueDrains | workspace/all/minui/minui.c:2949-2985 | with the UI quiet the worker stops after at most 12 steps, with the queue empty or having left on request |
| ArtAnswers.HitHandsOutEntry | workspace/all/minui/minui.c:3028-3032 | in every state a run from start-up reaches: a request for a listed path hands out exactly that entry, pins its path, moves it to the front past the others in their order, and changes nothing else |
| ArtAnswers.MissBecomesCurrent | workspace/all/minui/minui.c:3025-3041 | a request for a path that is not listed leaves list, pin and the UI's surface alone; it takes slot 0 with its own size and flag and the next sequence number and wakes the worker, unless slot 0 still holds the path or the path is empty: then nothing changes |
| ArtAnswers.LongPathNeverHits | workspace/all/minui/minui.c:3028-3037 | over every run, a path too long for its buffer is never found and queued anew by every request |
| ArtAnswers.AheadHit | workspace/all/minui/minui.c:3046-3049 | a prefetch of a listed path only moves its entry to the front |
| ArtAnswers.AheadQueued | workspace/all/minui/minui.c:3049-3059 | a prefetch of a path neither listed nor queued takes the first free slot behind the current request, with its own size and flag and no sequence number, and wakes the worker |
| ArtAnswers.AheadDropped | workspace/all/minui/minui.c:3047-3060 | where the path is queued already, or no slot is free, a prefetch changes nothing |
| ArtAnswers.WorkerTakesFirstFilled | workspace/all/minui/minui.c:2955-2958 | the worker takes the current request before any prefetch and the first prefetch slot before the second, and empties only the slot it takes |
| ArtAnswers.WorkerSleepsOrLeaves | workspace/all/minui/minui.c:2954-2961 | with nothing queued it sleeps; after a shutdown request it leaves, whatever is queued |
| ArtAnswers.NoImageNoChange | workspace/all/minui/minui.c:2967-2982 | a decode that failed changes nothing |
| ArtAnswers.OutdatedIsFreed | workspace/all/minui/minui.c:2971-2973 | a decode that a newer current request has overtaken is freed, and nothing else happens |
| ArtAnswers.TooLateIsFreed | workspace/all/minui/minui.c:2974-2976 | a decode whose path has been cached meanwhile is freed; that entry moves to the front |
| ArtAnswers.NoMemoryIsFreed | workspace/all/minui/minui.c:2977-2980 | a decode for which no entry can be allocated is freed and evicts nothing, and is announced all the same |
| ArtAnswers.AnnouncedOnce | workspace/all/minui/minui.c:3065-3072 | after a poll no poll returns true again before the worker has finished another decode |
| FixedWalk.WalkInRange | workspace/all/minui/minui.c:2934-2944 | the 16.16 accumulator never wraps and the index never leaves the source, for any sizes |
| FixedWalk.WalkNear | workspace/all/minui/minui.c:2934-2944 | for sizes below 2^16 the index is the exact floor or one less, and which of them: exact where the fraction of the exact position covers what the truncated increments have lost |
| FixedWalk.WalkExactIff | workspace/all/minui/minui.c:2934-2944 | for a source of any width the column shown is the exact one exactly when it is the first, or the source is narrower than 2^16 and the fraction of the exact position covers what the truncated increments have lost |
| FixedWalk.WalkFallsShort | workspace/all/minui/minui.c:2934-2934 | concrete sizes for which it falls one short, and a source 2^16 wide for which it stays at column 0 |
| FixedWalk.WalkRow | workspace/all/minui/minui.c:2942-2943 | the inner loop writes each target pixel from the column the walk reaches and nothing else |
| ArtFit.PlanFits | workspace/all/minui/minui.c:2898-2914 | a resized surface fits the slot; it is wider than the input exactly when it is an integer upscale by the largest factor of 2 to 6 that fits, which only grow asks for; otherwise neither side grows |
| ArtFit.AspectKept | workspace/all/minui/minui.c:2899-2914 | an upscale keeps the aspect exactly; a downscale fills the slot along one side and is off by less than a pixel along the other, unless that side is clamped to one |
| ArtFit.ShrunkExactly | workspace/all/minui/minui.c:2900-2907 | the exact size of a shrunk surface: as wide as the slot unless that is too high by a whole pixel, and then as high; the other side is the exact one rounded down, and at least one |
| ArtFit.FittedPixel | workspace/all/minui/minui.c:2895-2948 | pixel (x, y) of the fitted surface is the converted input pixel it comes from: that of its block where the surface grew, that the two walks reach where it shrank |
| ArtFit.KeptIff | workspace/all/minui/minui.c:2896-2914 | exactly when a surface is kept as decoded |
| ArtFit.Fit | workspace/all/minui/minui.c:2895-2948 | the result has the planned size and shows the converted input: replicated through the integer scaler when it grows, by the nearest walk when it shrinks; without memory or need the input is returned; every surface created and the input is returned or freed, exactly once |
| ArtFit.Blit | workspace/all/minui/minui.c:2923-2923 | the conversion to RGB565 copies every visible pixel, row by row |
| ArtFit.Shrink | workspace/all/minui/minui.c:2934-2944 | row y of the result shows source row Walk(y), column x source column Walk(x) |
| MenuScale.Scale | workspace/all/minarch/minarch.c:4485-4513 | every row of the view shows its source row, whether drawn or copied from the row above, and rows outside the view are unchanged; margins of copied rows are those of the run's first row |
| MenuScale.RepeatRow | workspace/all/minarch/minarch.c:4502-4504 | the shortcut makes the row equal to the one above, margins included, and changes nothing else |
| MenuScale.ShortcutExact | workspace/all/minarch/minarch.c:4500-4511 | pixel (i, j) of the view is the source pixel the two walks reach, whichever branch drew its row |
| MenuScale.RepeatedIsShown | workspace/all/minarch/minarch.c:4502-4504 | copying the row above shows what recomputing would when both walks are on the same source row |
| Resampler.EveryCallWorks | workspace/all/common/api.c:1099-1115 | every resampler call writes or consumes a frame |
| Resampler.BatchesDoNotMatter | workspace/all/common/api.c:1099-1115 | splitting the input into batches changes neither the output nor the remainder |
| Resampler.NearestClosedForm | workspace/all/common/api.c:1099-1115 | output frame w is input frame floor((diff + w*rate_in)/rate_out), and written and consumed counts differ by exactly the remainder |
| Resampler.OutputLength | workspace/all/common/api.c:1099-1115 | how many frames are written for an input, in closed form |
| Resampler.PassThrough | workspace/all/common/api.c:1094-1098 | equal rates pass every frame through and leave the remainder alone |
| Resampler.DriftBounded | workspace/all/common/api.c:1099-1115 | after any number of calls the remainder accounts for both counts and stays below the larger rate |
| AudioSpec.WriteAppends | workspace/all/common/api.c:1094-1098 | a write into a ring that is not full appends one frame to the unread ones and overwrites none of them |
| AudioSpec.FullIffOneLeft | workspace/all/common/api.c:1140-1148 | the producer stops exactly when one slot is left |
| AudioSpec.PopTakesFirst | workspace/all/common/api.c:1051-1061 | the callback takes the oldest unread frame, and frame_filled follows frame_out |
| AudioSpec.ReadIsPrefix | workspace/all/common/api.c:1051-1061 | reading n frames delivers the oldest unread ones in order and keeps frame_filled the cyclic predecessor of frame_out |
| AudioSpec.CallbackWritesAll | workspace/all/common/api.c:1039-1073 | a callback writes exactly its len frames: unread frames first, then silence or samples it has already written in that call, for any SAMPLES |
| AudioSpec.UnderrunPlaysBackwards | workspace/all/common/api.c:1063-1072 | after m frames read, sample k of the rest is sample 4m-2-k of the same call, from the last but one back to the first, and then zero; where exactly SAMPLES frames are missing, all zero |
| AudioSpec.PlaysInOrder | workspace/all/common/api.c:1051-1056 | samples 2k and 2k+1 are left and right of the k-th oldest unread frame |
| AudioProtocol.FeedKeepsPending | workspace/all/common/api.c:1124-1160 | feeding the resampler neither loses nor invents a frame still to be heard |
| AudioProtocol.ReadTakesPending | workspace/all/common/api.c:1039-1073 | a callback takes what it delivers off the front of what is still to be heard |
| AudioProtocol.BothStuckIffOneFrame | workspace/all/common/api.c:1140-1148 | producer and consumer are both stuck exactly in a ring of a single frame |
| AudioProtocol.StepKeepsInv | workspace/all/common/api.c:1039-1160 | each producer or callback step keeps: heard so far plus still to be heard is the whole resampled stream |
| AudioProtocol.HeardIsPrefix | workspace/all/common/api.c:1039-1160 | in every interleaving the frames heard are a prefix of the resampled input, and all of it once the input is consumed and the ring empty |
| Audio.Context.ResizeBuffer | workspace/all/common/api.c:1074-1093 | a zeroed ring of the computed size with nothing unread, or no change when the size is zero, however the quotient is rounded |
| Audio.Context.Resample | workspace/all/common/api.c:1094-1123 | one call updates ring and remainder as specified and reports whether it consumed |
| Audio.Context.BatchSamples | workspace/all/common/api.c:1124-1160 | consumes the batch in order; whatever callbacks fire while it waits, heard plus pending is unchanged; it stops early only where it would wait for ever |
| Audio.Context.FillRing | workspace/all/common/api.c:1148-1155 | resamples until the amount is consumed or the ring is full, keeping what is still to be heard |
| Audio.Context.AudioCallback | workspace/all/common/api.c:1039-1073 | stream and ring after a callback are those of the specification, for any SAMPLES; past its len nothing is written |
| Audio.Context.FillRest | workspace/all/common/api.c:1063-1072 | the underrun fill, reading only what the callback itself has written |
| Pixels.Average16IsMean | workspace/all/common/api.c:421-423 | each RGB565 channel of average16 is the rounded-up mean of that channel alone |
| Pixels.CarryOut | workspace/all/common/api.c:424-428 | the comparison detects exactly the carry out of a wrapping 32-bit addition |
| Pixels.Average32IsTwo | workspace/all/common/api.c:424-430 | average32 is two average16 results side by side, the top carry included |
| Pixels.AverageWithin | workspace/all/common/api.c:421-423 | an average stays within the channel ranges of its arguments |
| Pixels.AverageSelf | workspace/all/common/api.c:437-437 | averaging equal pixels changes nothing, so the macros' shortcut is exact |
| AASpec.GcdIsGreatest | workspace/all/common/api.c:443-445 | Euclid's recursion yields the greatest common divisor |
| AASpec.AxisFits | workspace/all/common/api.c:541-565 | the reduced ratios stand for the sizes they came from |
| AASpec.BoundsFit | workspace/all/common/api.c:549-563 | the outer blend bound never exceeds the reduced target size |
| AASpec.CellIsFloor | workspace/all/common/api.c:502-536 | output k lies in source column floor(k*src/dst), inside the source |
| AASpec.TapsLength | workspace/all/common/api.c:508-531 | a column emits exactly the outputs whose offset is below the ratio |
| AASpec.RowFromAt | workspace/all/common/api.c:502-536 | output k takes its pixels from column Cell(k) and its successor |
| AASpec.RowExact | workspace/all/common/api.c:502-536 | a row has exactly dst_w outputs, output k from column floor(k*src_w/dst_w) |
| AASpec.EndsAt | workspace/all/common/api.c:533-536 | at the far edge the outputs are used up and the accumulator is zero |
| AASpec.TapsWithin | workspace/all/common/api.c:508-531 | however often a and b are overwritten, every output stays within the channel ranges of the column's two pixels |
| AASpec.LeftIsSource | workspace/all/common/api.c:508-514 | outputs up to the outer blend bound are the column's own pixel, unblended |
| AASpec.AlignedIsSource | workspace/all/common/api.c:471-531 | an output that falls exactly on a source pixel is that pixel |
| AASpec.MixWithin | workspace/all/common/api.c:471-500 | a blended row stays within the channel ranges of the two source rows |
| AASpec.OutputWithin | workspace/all/common/api.c:459-538 | every output lies within the channel ranges of its four source pixels |
| AASpec.UniformStaysUniform | workspace/all/common/api.c:459-538 | a uniform region keeps its colour |
| AABlend.BoundIsNearest | workspace/all/common/api.c:549-563 | the outer bound is the integer nearest to a fifth of the reduced target size where the width shrinks, and to two fifths where not |
| AABlend.AxisZoned | workspace/all/common/api.c:549-563 | for all sizes the two bounds cut a column into zones that lie in order: plain, leaning left, middle, leaning right, plain |
| AABlend.OutputShaded | workspace/all/common/api.c:508-531 | each channel of every output of a column, by rounded-up means alone: up to the first bound the left pixel; then the right one moved halfway to the left once per earlier left-leaning output and twice more; in the middle once more; then the left one moved halfway to that, once per earlier right-leaning output and twice more; past the far bound what the right pixel has become |
| AABlend.FirstBlendShades | workspace/all/common/api.c:515-522 | a column's first blended output: in the middle the mean of both pixels, left and right of it the mean of that mean and the nearer pixel; with none before it the output past the far bound is the right pixel |
| AABlend.FarShowsRightIff | workspace/all/common/api.c:511-519 | past the far bound the output is the right pixel exactly when no output of its column has leaned left, or the channel is one that rounding leaves in place |
| AABlend.GreyBetween | workspace/all/common/api.c:515-522 | 240 to 360 columns: between black and white the second output is 0x8410 |
| AABlend.FarShowsBlend | workspace/all/common/api.c:511-522 | 30 to 240 columns: past the far bound the output is a blend, not the right pixel |
| AABlend.RowShaded | workspace/all/common/api.c:470-500 | each channel between two rows: the row above, or the mean leaning to it, the plain mean, the mean leaning to the row below, or the row below |
| AAScaler.Blend.GetAAScaler | workspace/all/common/api.c:541-565 | sets the reduced ratios and allocates one line of the source width |
| AAScaler.Blend.BlendRows | workspace/all/common/api.c:479-500 | the two-pixels-at-a-time loops blend each pixel as the one-pixel blend does |
| AAScaler.Blend.EmitColumn | workspace/all/common/api.c:504-533 | one column writes exactly its outputs |
| AAScaler.Blend.EmitRow | workspace/all/common/api.c:502-536 | one row writes exactly its outputs |
| AAScaler.Blend.ScaleAA | workspace/all/common/api.c:447-539 | every target row is drawn from source row floor(j*src_h/dst_h) and its successor, even and odd widths alike, and nothing outside the target rows is written |
| AAScaler.Blend.ChooseLine | workspace/all/common/api.c:468-500 | a row's line is the row below, the row above or both blended; blending leaves out the last pixel of an odd width |
| AAScaler.PixelExact | workspace/all/common/api.c:447-539 | pixel (k, j) of a finished target in closed form, up to the reach of its line: all but the last source column, and in blended rows of an odd width all but the last two |
| AAScaler.ScaledWithin | workspace/all/common/api.c:447-539 | and each of its channels lies between the smallest and largest value of that channel over its four source pixels |
| AAPicture.PictureShaded | workspace/all/common/api.c:447-539 | each channel of pixel (k, j) of a finished target, up to the reach of its line: the two columns it lies between, each shaded between the two rows it lies between, shaded by its offset |
| AAPicture.ColumnStartShaded | workspace/all/common/api.c:502-514 | the outputs up to the first bound of their column show that column, the last one too, whatever lies behind it in memory |
| AAScaler.BlendWord | workspace/all/common/api.c:437-441 | AVERAGE32 and AVERAGE32_1_3 on a word are the pixel operation on both halves |
| IntScaler.PairIsStretch | workspace/all/common/scaler.c:128-133 | the words each packed kernel stores for two pixels are n copies of the left, then n copies of the right |
| IntScaler.TailIsStretch | workspace/all/common/scaler.c:134-138 | the odd-width tail of each kernel is n copies of the last pixel |
| IntScaler.StretchAt | workspace/all/common/scaler.c:121-142 | place i of a stretched row shows pixel i/n |
| IntScaler.ScaleRow | workspace/all/common/scaler.c:121-142 | a kernel row writes exactly the stretched source row, odd widths included |
| IntScaler.ScaleNx | workspace/all/common/scaler.c:121-393 | scale2x_c16 to scale6x_c16: every target row shows its source row stretched, nothing else is written |
| IntScaler.Scale1x | workspace/all/common/scaler.c:78-89 | scale1x_c16, with its single-copy case and its clipping to the target pitch, likewise |
| IntScaler.PixelReplicated | workspace/all/common/scaler.c:78-393 | target pixel (x, y) is source pixel (x/xmul, y/ymul) |
| IntScaler.Scaler | workspace/all/common/scaler.c:2868-2879 | the dispatch: supported multipliers scale as above, all others and empty sources leave the target unchanged |
| ShellQuote.EscapeSingleQuotes | workspace/all/minui/minui.c:1341-1358 | writes the escaped text and its NUL, or fails and leaves an empty string, exactly when they do not fit |
| ShellQuote.EscapeField | workspace/all/minui/minui.c:1567-1573 | one field through its 1024-byte buffer |
| ShellQuote.LaunchCommand | workspace/all/minui/minui.c:1562-1582 | returns the launch command, refused exactly when it does not fit 1024 bytes |
| ShellQuote.PakCommand | workspace/all/minui/minui.c:1498-1503 | openPak's command, refused exactly when the escaped path does not fit its buffer |
| ShellQuote.CommandTokens | workspace/all/minui/minui.c:1575-1579 | POSIX token recognition yields exactly the intended words, every character of every field quoted |
| ShellQuote.CommandParses | workspace/all/minui/minui.c:1575-1579 | the shell runs the pak with the rom as its one argument and exactly the intended assignments, whatever the fields hold |
| ShellQuote.PakCommandParses | workspace/all/minui/minui.c:1500-1503 | openPak's command is one word: the path and its launcher |
| ShellQuote.ReadEscaped | workspace/all/minui/minui.c:1341-1358 | inside single quotes the escaped text is read back as the original, all of it quoted |
| FirstHost.FirstHost | workspace/all/minui/minui.c:2113-2141 | the buffer holds the extracted object, cut to its capacity, or an empty string when there is none |
| FirstHost.MatchBrace | workspace/all/minui/minui.c:2122-2137 | the scan stops where the specification's scan stops |
| FirstHost.FindObject | workspace/all/minui/minui.c:2115-2121 | from the key to the opening brace of the array's first element, or nothing |
| FirstHost.NeutralValue | workspace/all/minui/minui.c:2124-2134 | any JSON value inside an object passes the scan without effect, whatever braces, quotes or escapes its strings hold |
| FirstHost.ObjectScanned | workspace/all/minui/minui.c:2122-2136 | for any JSON object the scan ends at exactly its closing brace, whatever follows |
| FirstHost.FirstHostIff | workspace/all/minui/minui.c:2113-2141 | of any JSON array holding an object first, that object is the one located, exactly when neither a bracket nor a brace stands between the first text "hosts" and the array; it is then cut out verbatim |
| FirstHost.LocateIff | workspace/all/minui/minui.c:2115-2121 | the same for the place alone, whatever the object holds |
| FirstHost.FirstHostFound | workspace/all/minui/minui.c:2113-2141 | so it is where the first text "hosts" is the array's own key: located and cut out |
| FirstHost.FolderNamedHosts | workspace/all/minui/minui.c:2115-2118 | a platform folder named hosts in the directory mappings, which stand before the hosts: none is found, whatever hosts follow |
| FirstHost.OlderHosts | workspace/all/minui/minui.c:2115-2121 | an array of hosts inside an earlier member: its first element is cut out instead, whatever hosts follow |
| FirstHost.FirstHostHidden | workspace/all/minui/minui.c:2115-2118 | an earlier text "hosts" with a brace before the next bracket hides the array |
| HostCut.ExtractCut | workspace/all/minui/minui.c:2113-2141 | for every file and every cut: a file read only up to the cut yields the same object if the cut lies behind it, and otherwise nothing |
| HostCut.HalfReadHost | workspace/all/minui/minui.c:2134-2135 | so for any JSON object as first host: cut inside its strings, escapes or nested values, or anywhere before its closing brace, the file yields no host |
| HostCut.CutShort | workspace/all/minui/minui.c:2124-2135 | inside an object, a text that ends before the closing brace ends the scan without it |
| HostCut.LocateCut | workspace/all/minui/minui.c:2115-2121 | a cut file locates the object the whole file locates if its brace lies before the cut, and otherwise none |
| AtomicWrite.Card.AtomicWrite | workspace/all/minui/minui.c:1366-1388 | 1 exactly if the temporary name fits and every checked call succeeds, and no temporary file is then left behind; then the new contents are live and, after a directory sync, all that is left. Where the temporary name does not lead to the target's file: a crash between any two steps leaves the complete old or the complete new contents, 0 means the old are untouched, and the next call may follow |
| AtomicWrite.NextWriteSafeIff | workspace/all/minui/minui.c:1370-1370 | in a directory found after a crash, opening the temporary file leaves the target alone exactly when the two names do not share a file |
| AtomicWrite.TwoNamesOneFile | workspace/all/minui/minui.c:1378-1378 | a crash between the rename and the directory sync may leave both names on one file |
| AtomicWrite.SettledStaysApart | workspace/all/minui/minui.c:1379-1386 | after the directory sync no crash does |
| AtomicWrite.RecoveredReads | workspace/all/minui/minui.c:1359-1365 | what a directory found after a crash shows under a name is among what the crash may leave it with |
| AtomicWrite.EveryOutcomeFound | workspace/all/minui/minui.c:1359-1365 | and everything a crash may leave a name with is shown by some such directory |
| AtomicWrite.Card.SidecarReplace | workspace/all/minarch/minarch.c:3107-3126 | the cheat sidecar's replacement, which looks at no result before renaming: the file holds all of the text if every write and the flush succeed, and whatever else is in it otherwise; a crash between any two steps leaves old or new contents exactly if the rename fails or the renamed file is intact, as it is where writes, flush and sync succeed |
| AtomicWrite.RenameIntactIff | workspace/all/minarch/minarch.c:3125-3125 | renaming a file leaves old or new contents exactly if it is synced with the new contents, or with contents a crash could have left before, or unsynced where a crash could have left anything before |
| AtomicWrite.RenameShows | workspace/all/minarch/minarch.c:3125-3125 | what a crash leaves after the rename: what it left before or the file's contents, and any contents if those are not synced |
| AtomicWrite.SidecarLosesLines | workspace/all/minarch/minarch.c:3120-3125 | a write is lost, the flush, the sync and the rename succeed: the sidecar is left without it, neither old nor new |
| AtomicWrite.Card.WriteTemp | workspace/all/minui/minui.c:1370-1376 | filling and syncing the temporary file does not show under the target name |
| AtomicWrite.RenameSwaps | workspace/all/minui/minui.c:1378-1378 | after the rename a crash leaves the old contents or the synced new ones, nothing else |
| AtomicWrite.SyncDirSettles | workspace/all/minui/minui.c:1379-1386 | after the directory sync only the new contents can be found |
| AtomicWrite.UnsyncedRenameTears | workspace/all/minui/minui.c:1374-1374 | without the data sync before the rename, a crash could leave anything |
| AtomicWrite.OpenKeeps | workspace/all/minui/minui.c:1370-1370 | opening the temporary file leaves the target's recoverable contents alone |
| AtomicWrite.UnlinkKeeps | workspace/all/minui/minui.c:1377-1378 | so does removing it |
| AtomicWrite.RenameKeepsOthers | workspace/all/minui/minui.c:1378-1378 | the rename leaves every other name as it is, for programs and for a crash |
| AtomicWrite.SyncDirSettlesAll | workspace/all/minui/minui.c:1379-1386 | the directory sync changes nothing for programs, and leaves a crash only the entries there are |
| Directory.RunKeepsIff | workspace/all/minui/minui.c:6664-6756 | a run of navigation, paging, group jumps, restores, rescans, removals and insertions keeps the selection inside a full window throughout exactly when each of its jumps and insertions is safe by what was inserted and removed since the last scan |
| Directory.StepKeepsIff | workspace/all/minui/minui.c:6664-6756 | the same for one step: a jump is safe exactly while fewer entries have been removed than the scan found from the target's start on plus the tiles inserted; everything but jumps and insertions is safe |
| Directory.JumpLandsIff | workspace/all/minui/minui.c:6731-6756 | a jump lands on the first entry of the group it asks for exactly when that group still has an entry and, unless it is the first, as many tiles were inserted as entries of earlier groups removed |
| Directory.JumpAfterRun | workspace/all/minui/minui.c:6731-6756 | both conditions over any run that follows a scan |
| Directory.FreshJumpLands | workspace/all/minui/minui.c:6731-6756 | right after a scan every jump is safe and lands |
| Directory.NextGroupKey | workspace/all/minui/minui.c:6744-6756 | right after a scan, by the entries' groups alone: R1 selects the first entry of the next group that has any, and does nothing in the last |
| Directory.PreviousGroupKey | workspace/all/minui/minui.c:6731-6743 | L1 selects the first entry of the previous group, and does nothing in the first |
| Directory.StepKept | workspace/all/minui/minui.c:4264-4338 | every step keeps the entries in the order of their groups, with the start of each group off by exactly what was inserted and removed before it |
| Directory.JumpLeavesTheList | workspace/all/minui/minui.c:4320-4338 | a root of Continue, Sync and Tools: the tile is removed, Sync is selected, and R1 selects an entry that is not there |
| Directory.ScanKept | workspace/all/minui/minui.c:279-325 | a scan starts the books afresh |
| Directory.Directory.constructor | workspace/all/minui/minui.c:337-364 | a scanned directory shows its first entries |
| Directory.Directory.Placed | workspace/all/minui/minui.c:1615-1617 | a scanned directory with a window put over it, whether it fits or not |
| DirectoryStack.OpensOkIff | workspace/all/minui/minui.c:1604-1617 | a directory opens in good order exactly when no window is put over it, or the saved window was over no entries, or as many rows are shown as then and they end inside the list |
| DirectoryStack.ReopenedIsTheSame | workspace/all/minui/minui.c:1604-1630 | closing a directory and opening it again with as many entries restores selection and window |
| DirectoryStack.ElsewhereOpensAtTop | workspace/all/minui/minui.c:1604-1617 | at another depth or below another entry than it was closed to, a directory opens at its first entry |
| DirectoryStack.ShrunkDirectory | workspace/all/minui/minui.c:1604-1617 | a directory that has lost its selected last entry opens with the selection behind the end |
| DirectoryStack.Launcher.OpenDirectory | workspace/all/minui/minui.c:1604-1620 | the saved window is put over the directory that opens exactly where depth and selection are those it was closed to; otherwise its first rows are shown |
| DirectoryStack.Launcher.CloseDirectory | workspace/all/minui/minui.c:1621-1630 | selection and window of the closed directory are saved, with the depth and the selection it is closed to |
| Directory.Directory.Up | workspace/all/minui/minui.c:6664-6681 | one entry up with the smallest scroll; a press at the top wraps, a repeat stops |
| Directory.Directory.Down | workspace/all/minui/minui.c:6682-6698 | one entry down with the smallest scroll; a press at the bottom wraps, a repeat stops |
| Directory.Directory.PageUp | workspace/all/minui/minui.c:6699-6711 | a page up, stopping at the first entry |
| Directory.Directory.PageDown | workspace/all/minui/minui.c:6715-6728 | a page down, stopping at the last entry |
| Directory.Directory.PreviousGroup | workspace/all/minui/minui.c:6731-6742 | L1: the recorded start of the group before becomes the first visible row, as far as the list allows |
| Directory.Directory.NextGroup | workspace/all/minui/minui.c:6744-6756 | R1: the same for the group after |
| Directory.Directory.Reveal | workspace/all/minui/minui.c:1732-1739 | the restored entry is selected and, if it lies below the window, shown |
| Directory.Directory.RescanTop | workspace/all/minui/minui.c:1635-1655 | a fresh index, and selection and window fitted to the new list |
| Directory.Directory.RemoveEntry | workspace/all/minui/minui.c:4264-4281 | an entry goes, selection and window are fitted, the index stays as it was |
| Directory.Directory.InsertTile | workspace/all/minui/minui.c:4314-4319 | the Continue tile comes in group 0: selection and end move, start and index do not |
| ListWindow.MoveKeepsWindow | workspace/all/minui/minui.c:6664-6728 | Up, Down and paging keep the selection inside a full window |
| ListWindow.ReloadKeepsWindow | workspace/all/minui/minui.c:1641-1651 | so does fitting it to a list of any length |
| ListWindow.PagesDown | workspace/all/minui/minui.c:6715-6728 | n page-downs select the smaller of the selection plus n screens and the last entry |
| ListWindow.PagesUp | workspace/all/minui/minui.c:6699-6711 | n page-ups select the larger of the selection minus n screens and the first entry |
| ListWindow.PageUpUndoesPageDown | workspace/all/minui/minui.c:6699-6728 | away from the end a page-up undoes a page-down; the window comes back too exactly when a further page fits or it stood at the top |
| ListWindow.PageShown | workspace/all/minui/minui.c:6699-6728 | a page key that leaves the window shows the neighbouring page or what there is of it, and otherwise does not scroll |
| ListWindow.HeldDownStops | workspace/all/minui/minui.c:6682-6698 | n repeats of Down select the smaller of the selection plus n and the last entry |
| ListWindow.HeldUpStops | workspace/all/minui/minui.c:6664-6681 | n repeats of Up select the larger of the selection minus n and the first entry |
| ListWindow.UpUndoesDown | workspace/all/minui/minui.c:6664-6698 | fresh presses of Up and Down undo each other, all the way round |
| ListWindow.ScrollIsSmallest | workspace/all/minui/minui.c:6664-6698 | Up and Down scroll no further than any window that shows the new selection must |
| ListWindow.ReloadSelects | workspace/all/minui/minui.c:1641-1651 | a selection that still exists is kept, else the last entry is taken; the list is shown from its top, or with the selection in its last row |
| ListWindow.JumpShows | workspace/all/minui/minui.c:6735-6740 | a jump selects its target and shows it in the first row, or else the end of the list |
| ListWindow.RevealShows | workspace/all/minui/minui.c:1732-1739 | restoring only selects what is shown, and shows what lies below as a jump does |
| ListWindow.JumpKeepsIff | workspace/all/minui/minui.c:6735-6740 | a jump does exactly when its target lies inside the list |
| ListWindow.RevealKeepsIff | workspace/all/minui/minui.c:1732-1739 | restoring does exactly when its target does not lie above the window |
| ListWindow.InsertKeepsIff | workspace/all/minui/minui.c:4314-4319 | the insertion does exactly when there was an entry, the list was unscrolled and the selection has room to move |
| ListWindow.InsertLosesSelection | workspace/all/minui/minui.c:4314-4319 | with the last visible row selected, or into an empty list, it puts the selection below the window |
| ListWindow.OptionList.Up | workspace/all/minarch/minarch.c:4040-4052 | the option list's Up, which also wraps on a repeat |
| ListWindow.OptionList.Down | workspace/all/minarch/minarch.c:4053-4064 | the option list's Down, likewise |
| ListWindow.DownGoesRound | workspace/all/minui/minui.c:6682-6698 | n presses of Down advance the selection by n, modulo the number of entries |
| AlphaIndex.Index | workspace/all/minui/minui.c:279-325 | for any names: group starts increase strictly from zero, neighbouring groups differ in letter, every entry's group is the run that contains it, and there are as many groups as runs, whether or not they fit the array |
| AlphaIndex.IntArray.Push | workspace/all/minui/minui.c:178-180 | appends; the array keeps the first 27, the count goes on |
| AlphaIndex.OverflowIff | workspace/all/minui/minui.c:167-180 | sorted names form at most 28 groups and exceed the array exactly when something sorts before a, every letter occurs and something sorts after z |
| AlphaIndex.RootOverflowIff | workspace/all/minui/minui.c:858-1011 | the root, which is sorted only between its fixed rows: it has a group for each of them and the groups of the systems, but for those that merge with a neighbouring row, and exceeds the array exactly when these do |
| AlphaIndex.BareRootFits | workspace/all/minui/minui.c:858-1011 | without systems it has at most five groups |
| AlphaIndex.RootOverflows | workspace/all/minui/minui.c:858-1011 | 23 systems and all five fixed rows form 28 groups |
| AlphaIndex.RunsJoin | workspace/all/minui/minui.c:311-322 | groups of two lists in a row add up, but for one that goes on from the first into the second |
| AlphaIndex.AlphabetOverflows | workspace/all/minui/minui.c:167-180 | 28 names, sorted, in 28 groups: one more than the array holds |
| AlphaIndex.JumpTarget | workspace/all/minui/minui.c:6731-6756 | by a fresh index the neighbouring group starts before or behind the selection and has another letter |
| AlphaIndex.Group | workspace/all/minui/minui.c:314-322 | one entry: a group is opened exactly when its letter is new |
| ConfigText.ConfigGetValue | workspace/all/minarch/minarch.c:951-969 | finds the value the substring search finds, cuts it at 255 characters and at the line break, and reports the lock |
| ConfigText.FindValue | workspace/all/minarch/minarch.c:953-958 | the search loop, going on behind keys that no separator follows |
| ConfigText.LineReadsBackIff | workspace/all/minarch/minarch.c:962-965 | a written value comes back exactly when it has no newline and is shorter than 256 characters, and at 255 has no carriage return |
| ConfigText.OwnLineIff | workspace/all/minarch/minarch.c:951-969 | of any file Config_write prints, an entry's own line is the one found exactly when no earlier line, read alone, answers for its key |
| ConfigText.AnswersIff | workspace/all/minarch/minarch.c:953-957 | a line answers only for keys that its own key ends with or its value embeds, and for every one of those that does not overlap itself |
| ConfigText.TextAnswersIff | workspace/all/minarch/minarch.c:953-957 | a file answers for a key exactly when one of its lines does |
| ConfigText.ReadBack | workspace/all/minarch/minarch.c:951-969 | every entry of a file in which no line answers for a later key is read back whole |
| ConfigText.SuffixShadows | workspace/all/minarch/minarch.c:953-957 | of two keys one of which ends with the other, the shorter gets the longer one's value if that line stands first; the other order reads back |
| ConfigText.HitInLine | workspace/all/minarch/minarch.c:953-957 | a line holds "key = " only behind the end of its own key or inside its value |
| ConfigText.FirstLineStops | workspace/all/minarch/minarch.c:961-965 | for any text behind the separator: the value is the longest front without a line break that fits 255 characters, a carriage return counting only where no newline does |
| ConfigText.LocksIff | workspace/all/minarch/minarch.c:953-957 | an option is locked exactly when a dash stands before its key in the line that answers or anywhere before it, for a key that does not overlap itself |
| Config.BindReadsBackIff | workspace/all/minarch/minarch.c:1307-1311 | a binding survives its label exactly when it is bound or carries no MENU modifier |
| Config.UnknownUnbinds | workspace/all/minarch/minarch.c:1156-1172 | a text that is no label unbinds, as NONE does |
| Config.LastColonCuts | workspace/all/minarch/minarch.c:1154-1154 | a control's label ends at the last colon |
| Config.Store.BindTo | workspace/all/minarch/minarch.c:3676-3709 | binding sets button and modifier, and keeps every binding one that survives its label |
| Config.Store.Unbind | workspace/all/minarch/minarch.c:3711-3718 | so does unbinding |
| Config.Store.Restore | workspace/all/minarch/minarch.c:1323-1372 | presets first, then the files that are left: what no file mentions ends at its preset, a shortcut without a button; nothing set before remains, and every binding survives its label |
| Config.IndexOfValue | workspace/all/minarch/minarch.c:1404-1410 | the index of a value is found again when the option's values differ |
| Config.IndexIsFirst | workspace/all/minarch/minarch.c:1404-1410 | a value counts where it stands first among the option's values, and as the first of all if it is none of them |
| Config.LockedIff | workspace/all/minarch/minarch.c:954-954 | after any files an option is locked exactly when it was or one of them locks it |
| Config.Store.ReadOptionList | workspace/all/minarch/minarch.c:1121-1126 | every option of a list takes the index its value has in the file, if the file mentions it |
| Config.Store.ReadBindList | workspace/all/minarch/minarch.c:1148-1196 | every binding takes the label the file gives it, if any |
| Config.Store.SetOptionValue | workspace/all/minarch/minarch.c:1619-1630 | the option is found again by its key and set by value |
| Config.Store.ReadOptions | workspace/all/minarch/minarch.c:1271-1277 | system, default and user settings, one over the other |
| Config.Store.ReadControls | workspace/all/minarch/minarch.c:1278-1281 | default and user bindings, one over the other; bindings stay ones that survive their labels |
| Config.Store.Write | workspace/all/minarch/minarch.c:1296-1319 | the file's text, line by line |
| Config.LastPresentWins | workspace/all/minarch/minarch.c:1271-1277 | the last file that mentions an option decides it; if none does it stays |
| Config.LastPresentBinds | workspace/all/minarch/minarch.c:1278-1281 | the same for a binding |
| Config.RoundTrip | workspace/all/minarch/minarch.c:1271-1321 | what one session writes another reads back over any system and default files: every option index, binding and modifier, whatever they were before |
| Cheats.Table.Compact | workspace/all/minarch/minarch.c:3061-3083 | exactly the coded entries stay, in index order and at the front; every string has one owner, nothing is behind count, and what nobody owns has been freed |
| Cheats.CodedInOrder | workspace/all/minarch/minarch.c:3065-3081 | a kept slot ends up behind exactly the kept slots before it, under its name or its fallback name; there is nothing else |
| Cheats.FallbackNumbers | workspace/all/minarch/minarch.c:3068-3071 | the name of an unnamed cheat is "Cheat " and its number in the file, from one, without leading zeros; no two slots get the same |
| Cheats.DropRound | workspace/all/minarch/minarch.c:3067-3072 | a slot that is not kept: its strings are freed, the others stay |
| Cheats.KeepRound | workspace/all/minarch/minarch.c:3068-3080 | a kept slot: named if needed, moved to the front with its strings |
| Cheats.DropOwned | workspace/all/minarch/minarch.c:3067-3067 | freeing a slot's strings keeps single ownership |
| Cheats.NameOwned | workspace/all/minarch/minarch.c:3068-3071 | allocating a fallback name keeps single ownership |
| Cheats.MoveOwned | workspace/all/minarch/minarch.c:3074-3077 | moving an entry keeps single ownership |
| Cheats.Table.SidecarSave | workspace/all/minarch/minarch.c:3120-3121 | the contents written: the descriptions of the enabled cheats, one per line |
| Cheats.Table.SidecarLoad | workspace/all/minarch/minarch.c:3086-3100 | without a file nothing changes; with one, exactly the cheats a line names are enabled |
| SidecarText.LineSurvivesIff | workspace/all/minarch/minarch.c:3092-3095 | a description's line is read back as it exactly when it holds no line break and does not end in a carriage return |
| SidecarText.LinesSplit | workspace/all/minarch/minarch.c:3091-3092 | fgets splits a text into pieces that lose nothing: a line break only ends a piece, and a piece that ends without one fills the buffer or is the last |
| SidecarText.SavedThenRestored | workspace/all/minarch/minarch.c:3086-3126 | save, then load, enables a cheat exactly when an enabled one has the same description |
| SidecarText.RestoringTwice | workspace/all/minarch/minarch.c:3086-3126 | doing it again changes nothing |
| ChtValue.ChtValue | workspace/all/minarch/minarch.c:2969-2983 | trims and unquotes in the buffer itself, exactly as specified, and writes nothing before the value |
| ChtValue.Unquote | workspace/all/minarch/minarch.c:2974-2981 | the in-place unescape: the write position stays behind the read position |
| ChtValue.ValueUndoesQuoting | workspace/all/minarch/minarch.c:2969-2983 | whatever a text holds, its quoted form reads back as that text; whitespace before it and anything behind the closing quote are ignored |
| ChtValue.ValueOfPlain | workspace/all/minarch/minarch.c:2969-2983 | an unquoted value only loses the whitespace around it |

## Left out

- ArtProtocol.QueueDrains: progress is stated with the UI quiet, as a bound on worker steps; fairness of the operating system's scheduler is not modelled, nor is a thread or mutex that cannot be created.
- ArtCache.Cache.Finish: the sequence number is unbounded, so its overflow after 2^31 requests is not captured.
- Audio.Context.BatchSamples: the callbacks that fire while it waits are given as a list; where the list ends with the ring still full, the model returns and the source keeps waiting.
- Audio.Context.ResizeBuffer: the quotient is any real number the floating-point division may come to; the allocation succeeds, since the source does not check it.
- AAScaler.Blend.ScaleAA: pitches of an odd number of bytes are not modelled. The pixel read one past the line, and the last pixel of an odd line that blending leaves out, are any pixels, so outputs that use them are not determined.
- AAScaler.Blend.GetAAScaler: the rounding of the blend bounds is exact; ratios fit 16 bits.
- IntScaler.Scaler: memory is an array of 16-bit pixels addressed in words, so unaligned words and pitches of an odd number of bytes are not modelled; neither is overflow of size times multiplier.
- MenuScale.Scale: the rectangle of the view is given; the floating-point choice of it and of the screen scaling mode is not modelled.
- ArtFit.Fit: what SDL's conversion makes of a pixel is a function that is given.
- ShellQuote.LaunchCommand: the fields are given; looking up tags, paks and discs is not modelled.
- PosixShell: quoting by backslash and single quotes, blanks and assignments; input that needs any other rule is refused, which the launch commands never are.
- AtomicWrite.Card.AtomicWrite: numbers of removed files are not used again, and blocks of a replaced file are not reused before the directory is synced.
- AtomicWrite.Card.SidecarReplace: the directory that may have to be made first is one of the reasons for which the file can or cannot be opened.
- Directory.Directory.NextGroup: on an empty list the source reads an entry that is not there; the model asks for an entry. Relabelling the banner or the tile in place changes neither count nor groups.
- DirectoryStack.Launcher.OpenDirectory: starts where a directory is opened and nothing is launched instead. The number of rows is fixed; on some devices it changes with the screen.
- AlphaIndex.Index: aliases from map.txt and the unique names of duplicates are not modelled, nor what a push behind the end of the array overwrites.
- ConfigText.ConfigGetValue: the key is not empty, for which the source would not return.
- Config.RoundTrip: the number after minarch_gamepad_type is written but its reading back is not modelled; locks are read but not written.
- Config.Store.ReadOptions: side effects of a setting on the running front end are not modelled, nor is discovering buttons from default.cfg.
- Config.Store.BindTo: starts where a button has been pressed; the round for NONE shifts by minus one and is taken to report none.
- Cheats.Table.Compact: starts from a parsed table; splitting the lines of a .cht file and scanning their keys is not modelled.
- The c32 scalers store one pixel n times and would only repeat the row argument of IntScaler; the NEON and ARM assembly, the c16to32 scalers and the line and grid effects are not modelled.
- Rendering, input polling, network and shell calls, libretro callbacks, achievements, power management, the clock and the settings programs are not modelled.
