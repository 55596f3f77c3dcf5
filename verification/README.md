# Verified models of the CycleSmolVLA evaluation and logging scripts

Four scripts of the repository hold self-contained logic with state, branching and arithmetic. This
project models them in Dafny and proves what they are for. `dafny verify dfyconfig.toml` checks all of it.

**The log forwarder** (`scripts/stream_smolvla_wandb.py`) tails a training log that another process
appends to, parses each complete line, forwards a metric when its step is new for its mode, and on restart
resumes from the summary of the run it logs to.

- `Regex`, `NumberScan`, `NumberValue`, `MetricScan`, `TokenDecode`, `MetricLine`, `MetricParser`: the
  regular expressions are data with a language as their meaning; `re.search` and `re.findall` are relations
  (leftmost match, greedy preference, non-overlapping continuation). `parse_metric` is a deterministic
  scanner and a method with the source's loop. `MetricParser.ParseLineIsParseMetric` proves that on every
  line the scanner returns exactly what the patterns mean.
- `MetricFacts`, `NumberForms`, `LineForms`: exact steps, duplicates, the newline that ends a line, every form
  of a number with its value, the progress display and the evaluation line.
- `TrackerLine`, `TrackerNumbers`, `Rounding`, `PowersOfTwo`, `TrackedMetrics`: the line that LeRobot's own
  tracker prints, how it comes by its digits, and the round trip to the stored dictionary, name by name.
- `LogTail`, `Delivery`, `Endings`, `Follower`, `Sessions`: the file with its cursor, the per-mode filter, the follow
  loop as a method over an arbitrary schedule of writer appends and clock readings, and any number of
  crashes and restarts. The three main results: what is forwarded depends on the complete lines only and
  equals the running maxima of what the dry run lists; the sink always holds a prefix of what one
  uninterrupted follower forwards, and a session that loses nothing completes it; the loop ends within
  `PassLimit` passes, and times out exactly at the first pass that is due.

**The timed replay** (`scripts/evaluate_smolvla_rtc_open_loop.py`) asks an inference engine for an action
at every recorded tick, clamps it around the recorded state, holds the last command when there is none, and
paces the ticks by a deadline.

- `Pacing`: a max-plus closed form for the asynchronous rule, how lateness drains, and why the synchronous
  rule never bursts.
- `RealSums`, `JointErrors`, `JointSums`, `Clamping`, `Replay`, `ReplayReport`, `ReplayLaws`: the tick loop with
  its held command, the error figures, the effect of the clamp on them, per episode and over all episodes, and
  what every field of a report says about the ticks.

**The future-offset table** (`scripts/diagnose_smolvla_action_chunks.py`): `ChunkErrors` holds the loops,
with the error buffer blanked in place; `ChunkFacts` and `ChunkMeans` prove that the means and the rows agree;
`ChunkCoverage` (with `Quotients`) which rows there are and how often each target frame is hit.

**The open-loop evaluation** (`scripts/evaluate_smolvla_open_loop_video.py`): `OpenLoop` selects episodes
and frames and adds up their errors; `Plot` places the points of a series.

Conventions. Joint values, times and errors are reals; NaN cells are an option type; facts about RMSE are
stated for the mean square. Word characters, digits and white space are the ASCII ones. The inference
engine is an arbitrary source of no action, a finite action, a non-finite action or a failure. The clock
and the writer are arbitrary, but a sleep never returns early and the log only grows. The forwarder's
`last` dictionary, which always has the same two keys, is a record. Long proofs stay quick because lemmas
`hide` the definitions they do not need.

## Model

| member | source | states |
|---|---|---|
| NumberScan.NumberLenIsLongest | scripts/stream_smolvla_wandb.py:24 | the scanner returns a match of NUMBER whenever there is one, and no match at the head of the text is longer |
| NumberScan.NumberBounds | scripts/stream_smolvla_wandb.py:24 | every shorter match of NUMBER stops in front of a digit, a point or an exponent letter, so nothing that may follow a number can follow it |
| NumberScan.NumberLenLocal | scripts/stream_smolvla_wandb.py:24 | text that starts with a non-number character cannot change the number in front of it |
| NumberForms.FormReadsBack | scripts/stream_smolvla_wandb.py:24-32 | however a number is written (sign, digits, point, exponent), the scanner takes all of it and reads the value it stands for |
| NumberForms.NumbersAreForms | scripts/stream_smolvla_wandb.py:24 | NUMBER matches exactly the texts written in one of these forms, so the value of every number is fixed |
| NumberForms.WordCharactersAre | scripts/stream_smolvla_wandb.py:31 | the characters of a word and of a key, one by one |
| NumberForms.SpacesAre | scripts/stream_smolvla_wandb.py:28-31 | the characters that separate, one by one |
| MetricScan.HeadMatchIsHeadCuts | scripts/stream_smolvla_wandb.py:31 | the metric pattern matches at one position in at most one way, whatever order a regex engine tries |
| MetricScan.ScanIsFindAll | scripts/stream_smolvla_wandb.py:31 | the left-to-right scan is a result of re.findall and the only one |
| TokenDecode.ScanIsTokenwise | scripts/stream_smolvla_wandb.py:31 | the scan equals decoding each white-space separated token on its own, from its last colon, with at most one pair per token |
| TokenDecode.ScanOfParts | scripts/stream_smolvla_wandb.py:31 | the scan distributes over concatenation at white space |
| MetricLine.TrainCutsArePreferred | scripts/stream_smolvla_wandb.py:28 | the training scanner matches exactly where the pattern does and takes the greedy choice of white space and rest |
| MetricLine.ProgressIsUnique | scripts/stream_smolvla_wandb.py:36 | the progress pattern captures the same digits in every match at a position, and the scanner finds them |
| MetricLine.EvalCutsArePreferred | scripts/stream_smolvla_wandb.py:41 | the evaluation scanner matches exactly where the pattern does and takes the longest loss |
| MetricParser.First | scripts/stream_smolvla_wandb.py:28-41 | the position a search stops at hits, and no earlier one does |
| MetricParser.ParseMetric | scripts/stream_smolvla_wandb.py:27-44 | the loop that fills the dictionary, with the fallback from train to eval and the error, returns the scanner's result |
| MetricParser.ParseLineIsParseMetric | scripts/stream_smolvla_wandb.py:27-44 | a result is one that the patterns allow (leftmost, greedy, findall, finite loss, exact step, fallback, error) if and only if it is the scanner's |
| MetricFacts.StepIsVerbatim | scripts/stream_smolvla_wandb.py:36-43 | every returned step is a whole digit run of the line, never an expanded rounded count |
| MetricFacts.RoundedStepExactly | scripts/stream_smolvla_wandb.py:35-38 | the error is raised if and only if the training match has a finite loss, a rounded step, and no progress display matches anywhere in the line |
| MetricFacts.CollectKeepsLast | scripts/stream_smolvla_wandb.py:30-34 | after aliasing, a name is stored exactly when some finite pair carries it, with the value of the last such pair |
| MetricFacts.NewlineIsInert | scripts/stream_smolvla_wandb.py:27-44 | a line parses the same with and without the newline that ends it |
| LineForms.HitsAtWordStart | scripts/stream_smolvla_wandb.py:28-41 | each pattern matches exactly where its text stands at the start of the line or behind a character that is no word character |
| LineForms.DisplayIsFound | scripts/stream_smolvla_wandb.py:36 | the digits in front of the slash of the first progress display in a line are what the search captures |
| LineForms.EvaluationReadsBack | scripts/stream_smolvla_wandb.py:41-43 | a line with an evaluation loss and no training step reads back as that loss at that step |
| TrackerLine.ShownReadsBack | scripts/stream_smolvla_wandb.py:30-34 | every number shown with fixed decimals, in scientific notation or rounded to thousands reads back as its value, a suffix scaling by 1000 to its index |
| TrackerLine.ScanJoined | scripts/stream_smolvla_wandb.py:31 | the fields of a tracker message are found again one by one, in order |
| TrackerLine.CollectStores | scripts/stream_smolvla_wandb.py:30-34 | distinct fields with finite values are stored under their long names with their values, and nothing else is |
| TrackerLine.MessageReadsBack | scripts/stream_smolvla_wandb.py:27-44 | a line carrying a tracker message with a loss parses back to the values it shows, with the exact step of a progress display, else the printed step, else the error if that is rounded |
| TrackerNumbers.BigNumberIsNear | scripts/stream_smolvla_wandb.py:35-38 | exactly the counts below 10^18 are formatted; one below a thousand is shown as it is, any other with the suffix of its size and off by at most half a unit of it |
| TrackerNumbers.FixedIsNear | scripts/stream_smolvla_wandb.py:30-34 | a value printed with a fixed number of decimals, as most tracker fields are, is off by at most half a unit of the last one |
| TrackerNumbers.PrintedStepIsExact | scripts/stream_smolvla_wandb.py:35-38 | without a progress display, the line of a count below a thousand gives that count as its step, and the line of any larger formatted count the error |
| PowersOfTwo.FiniteExactly | scripts/stream_smolvla_wandb.py:33 | a number counts as finite exactly when its magnitude is below 2^1024 - 2^970 |
| TrackedMetrics.AliasesAre | scripts/stream_smolvla_wandb.py:17-23 | exactly five short names are spelled out, every other name is kept |
| TrackedMetrics.AllIsStored | scripts/stream_smolvla_wandb.py:30-34 | every count and every measure the trainer prints, up to the largest double, is stored with the value shown under its literal long name, and nothing else is |
| TrackedMetrics.TrainingLineReadsBack | scripts/stream_smolvla_wandb.py:27-40 | for every state of the tracker, its line parses back to exactly these values, with the exact step of a progress display, else the count itself below a thousand, else the error |
| LogTail.LinesRejoin | scripts/stream_smolvla_wandb.py:92-96 | the complete lines and the unfinished rest are the text again: no character is lost or repeated |
| LogTail.LinesGrow | scripts/stream_smolvla_wandb.py:91-96 | a complete line stays what it is, wherever the writer cuts its appends |
| LogTail.ReadOn | scripts/stream_smolvla_wandb.py:92-102 | after any growth, a read at the cursor returns the next complete line in order if there is one, and otherwise something that does not end in a newline |
| Delivery.DeliverIsRunningMaxima | scripts/stream_smolvla_wandb.py:102-112 | on every log, what is forwarded is the metrics of the lines up to the first terminal one, reduced to the steps that exceed every earlier step of their mode |
| Delivery.DryRunIsBatch | scripts/stream_smolvla_wandb.py:71 | on every text the dry run lists the metrics of all lines as the follower would parse them, with the unfinished last one; it fails exactly when one of them has only a rounded step |
| Delivery.FollowerMatchesDryRun | scripts/stream_smolvla_wandb.py:71-112 | on a finished log without errors the follower forwards the dry run's list, reduced to the steps that set a new maximum of their mode |
| Delivery.DeliverGrows | scripts/stream_smolvla_wandb.py:102-112 | reading on never takes back an entry, and nothing follows a terminal line |
| Delivery.EndsAgree | scripts/stream_smolvla_wandb.py:102-112 | two followers that end on the same log have handled the same lines, forwarded the same entries and end the same way |
| Delivery.DeliverEndsAtStop | scripts/stream_smolvla_wandb.py:102-112 | the reading ends in the way of the first line that stops it (rounded step, end of training, traceback), whatever was forwarded before |
| Delivery.DeliverReadsOn | scripts/stream_smolvla_wandb.py:102-112 | without such a line the reading goes on |
| Endings.EndingIs | scripts/stream_smolvla_wandb.py:109-112 | a line ends the training exactly when it contains one of the two texts, wherever it stands; "End of training" goes first |
| Endings.FinishedAnywhere | scripts/stream_smolvla_wandb.py:109-110 | "End of training" between any two texts finishes |
| Endings.FailedAnywhere | scripts/stream_smolvla_wandb.py:111-112 | a traceback between any two texts is a failure unless the line also says "End of training" |
| Endings.ReadingOtherwise | scripts/stream_smolvla_wandb.py:109-112 | a line with neither text says nothing about the end |
| Endings.StatusSays | scripts/stream_smolvla_wandb.py:102-112 | reading goes on exactly while no line is terminal; it ends with the first one, as that line says |
| Delivery.LoggedIs | scripts/stream_smolvla_wandb.py:106 | the logged record is the metric with its step under "<mode>/step" and "forwarder/<mode>_step" |
| Delivery.SummaryIsLast | scripts/stream_smolvla_wandb.py:86-87 | the step a follower resumes from, read from the merged summary, is that of the last entry of the mode, or -1 |
| Follower.HandleLine | scripts/stream_smolvla_wandb.py:102-112 | one complete line: the entry forwarded, the new marks, and whether and how the reading ends; a metric on a terminal line is still forwarded |
| Follower.Follow | scripts/stream_smolvla_wandb.py:86-112 | for every schedule: the lines handed over are the complete lines in order, each once; the history grows by exactly their delivery; the outcome is what the first terminal line says, wherever in the line it says it; a timeout comes exactly at the first pass with no complete line and more than the timeout since the last one; the number of passes is bounded |
| Follower.PassesAreLimited | scripts/stream_smolvla_wandb.py:90-101 | passes without a timeout are at most N + (N+1) times (floor(timeout/2)+1) for N lines taken, idle passes being two seconds apart |
| Sessions.ResumeForwardsRest | scripts/stream_smolvla_wandb.py:86-107 | handling the same lines again with the marks of the first k entries forwards exactly the remaining entries, interleaved as before, and ends the same way |
| Sessions.RestartForwardsRest | scripts/stream_smolvla_wandb.py:86-107 | a restart from the top with the summary of a sink that kept the first k entries forwards exactly the entries the sink lacks |
| Sessions.SessionKeepsPrefix | scripts/stream_smolvla_wandb.py:86-112 | one session keeps the sink a prefix of the ideal entries, and completes it when it handles all lines or ends on a terminal one |
| Sessions.ExactlyOnce | scripts/stream_smolvla_wandb.py:86-112 | over any number of crashes, lost ends, restarts and log growth the sink holds a prefix of what one uninterrupted follower forwards |
| Sessions.LastSessionCompletes | scripts/stream_smolvla_wandb.py:86-112 | a last session that handles everything and loses nothing leaves all ideal entries in the sink, whatever happened before |
| Sessions.NoRepeats | scripts/stream_smolvla_wandb.py:105-107 | the entries of a mode in the sink have strictly increasing steps |
| Pacing.RtcStartIsLargestCandidate | scripts/evaluate_smolvla_rtc_open_loop.py:133-182 | closed form: tick n starts at the largest over j of its deadline j*T plus the time ticks j to n-1 take, and some j attains it |
| Pacing.LatenessStep | scripts/evaluate_smolvla_rtc_open_loop.py:179-182 | lateness follows max(0, late + busy - T) plus the oversleep |
| Pacing.LatenessDrains | scripts/evaluate_smolvla_rtc_open_loop.py:179-182 | under work below the period by some slack, each tick takes the slack off the lateness, down to zero |
| Pacing.TicksTakeTheirTime | scripts/evaluate_smolvla_rtc_open_loop.py:179-182 | under both rules no tick starts before its deadline and n ticks take at least n periods |
| Pacing.ReplayRateIsBounded | scripts/evaluate_smolvla_rtc_open_loop.py:236 | the reported replay rate never exceeds the recording rate |
| Pacing.SyncExactGaps | scripts/evaluate_smolvla_rtc_open_loop.py:177-182 | with exact sleeps the synchronous rule spaces ticks by exactly the longer of the period and the work |
| Pacing.SyncNeverBursts | scripts/evaluate_smolvla_rtc_open_loop.py:177-182 | however late the replay is, two synchronous ticks are a period apart but for one clock reading and one oversleep |
| Pacing.RtcCatchesUp | scripts/evaluate_smolvla_rtc_open_loop.py:179-182 | without the synchronous rule a late tick follows the one before it without waiting |
| Pacing.SyncIsNeverAhead | scripts/evaluate_smolvla_rtc_open_loop.py:179-182 | for the same ticks, synchronous start times dominate asynchronous ones |
| JointErrors.PerJointMean | scripts/evaluate_smolvla_rtc_open_loop.py:31-38 | the mean of the per-joint errors is the mean error |
| JointErrors.PerJointMeanSquare | scripts/evaluate_smolvla_open_loop_video.py:457-462 | the mean of the per-joint mean squares is the mean square |
| JointErrors.MaeRmseMax | scripts/evaluate_smolvla_rtc_open_loop.py:31-38 | MAE squared is at most the mean square, and that at most the square of any bound on the errors |
| JointErrors.JointMaeRmse | scripts/evaluate_smolvla_open_loop_video.py:457-462 | in every joint the square of the mean error is at most the mean square |
| JointErrors.NeverFartherScoresLess | scripts/evaluate_smolvla_rtc_open_loop.py:31-38 | a prediction that is nowhere farther from the truth is worse in no figure |
| JointErrors.GlobalIsWeightedMean | scripts/evaluate_smolvla_rtc_open_loop.py:273-274 | MAE, mean square and every joint's MAE and mean square over all episodes are the frame-weighted means of those of the episodes |
| JointSums.JointFigures | scripts/evaluate_smolvla_rtc_open_loop.py:33-37 | a joint's MAE and mean square, times the frames, are the sums over the frames of its absolute and squared differences |
| JointSums.OverallFigures | scripts/evaluate_smolvla_rtc_open_loop.py:33-37 | MAE and mean square, times frames and six joints, are the sums of all absolute and squared differences |
| JointSums.ZeroExactly | scripts/evaluate_smolvla_rtc_open_loop.py:33-37 | the MAE is zero if and only if the prediction equals the truth in every frame and joint |
| Clamping.ClampIsInBox | scripts/evaluate_smolvla_rtc_open_loop.py:152 | the clamped action is within the limit of the state if and only if the limit is not negative |
| Clamping.ClampIsNearest | scripts/evaluate_smolvla_rtc_open_loop.py:152 | it is the one point of the box nearest to the prediction, joint by joint; under a negative limit the box is a single command |
| Clamping.NegativeLimitIsFixed | scripts/evaluate_smolvla_rtc_open_loop.py:152 | a negative limit is not refused and commands the state plus the limit, whatever was predicted |
| Clamping.ClampIsRetraction | scripts/evaluate_smolvla_rtc_open_loop.py:152 | clamping is idempotent and never moves two predictions apart |
| Clamping.ClampMovesOutsiders | scripts/evaluate_smolvla_rtc_open_loop.py:152-239 | under any limit, the clamp moves a joint by more than the tolerance if and only if the prediction leaves the box by more than it |
| Clamping.ClampNeverHurts | scripts/evaluate_smolvla_rtc_open_loop.py:237-238 | when every truth is within reach of its state, no error figure grows by clamping |
| Replay.ReplayEpisode | scripts/evaluate_smolvla_rtc_open_loop.py:129-192 | fails exactly with the first fault; otherwise every tick shows and commands its clamped prediction or holds the command of the latest available tick (the first state before any), with the table and the times of the pacing rule |
| ReplayReport.SelectAt | scripts/evaluate_smolvla_rtc_open_loop.py:195-197 | picking by the mask keeps the order: an available tick is found behind as many as were available before it |
| ReplayReport.TicksAreConserved | scripts/evaluate_smolvla_rtc_open_loop.py:231-234 | startup waits, predicted frames and empty ticks after the start, each of them fixed by the next rows, add up to the frames |
| ReplayLaws.StartupWaitIs | scripts/evaluate_smolvla_rtc_open_loop.py:233 | startup_wait_frames is k if and only if tick k has an action and none before it has |
| ReplayLaws.SummaryCounts | scripts/evaluate_smolvla_rtc_open_loop.py:231-234 | the other counters are the numbers of all ticks, of ticks with an action, and of ticks without one from the first with one on |
| ReplayLaws.SummaryTimes | scripts/evaluate_smolvla_rtc_open_loop.py:235-236 | the reported rate times the reported time is the number of frames |
| ReplayLaws.SummaryRate | scripts/evaluate_smolvla_rtc_open_loop.py:236 | the reported rate of a finished replay is at most the recording rate |
| ReplayLaws.ClampedTicks | scripts/evaluate_smolvla_rtc_open_loop.py:239 | clamped_frames is the number of available ticks at which some joint of the command differs from the prediction by more than 0.0001 |
| ReplayLaws.OutsideTicks | scripts/evaluate_smolvla_rtc_open_loop.py:239 | under a limit that is not negative these are the available ticks whose prediction is more than the limit and 0.0001 from the state in some joint |
| ReplayReport.ClampedFramesAreOutsiders | scripts/evaluate_smolvla_rtc_open_loop.py:239 | under any limit, clamped_frames counts the available ticks whose prediction leaves the box (under a negative limit: the one command given) by more than the tolerance |
| ReplayReport.ElapsedIsPositive | scripts/evaluate_smolvla_rtc_open_loop.py:186-236 | the replay rate of a finished episode is defined and at most the recording rate |
| ReplayReport.EpisodeClampNeverHurts | scripts/evaluate_smolvla_rtc_open_loop.py:237-238 | per episode, the clamp makes no figure worse when the truths are within reach |
| ReplayReport.EvaluateReplays | scripts/evaluate_smolvla_rtc_open_loop.py:86-275 | the first failing episode ends the evaluation with its error; otherwise the shared lists are the available ticks of all episodes in order, aligned, none left out, with their figures and summaries |
| ReplayLaws.TickInReport | scripts/evaluate_smolvla_rtc_open_loop.py:190-197 | an available tick stands in the shared lists behind exactly the available ticks before it, with its truth, the prediction of the engine and that prediction clamped |
| ReplayLaws.AllTicksInReport | scripts/evaluate_smolvla_rtc_open_loop.py:190-197 | the shared lists hold nothing else |
| ReplayReport.ReportRecombines | scripts/evaluate_smolvla_rtc_open_loop.py:273-275 | every global figure, before and after the clamp, is the frame-weighted mean of the episodes' |
| ReplayLaws.SummariesRecombine | scripts/evaluate_smolvla_rtc_open_loop.py:237-275 | every figure of the report is the mean of the figures in the summaries weighted with their predicted frames, before and after the clamp |
| ReplayReport.ReportClampNeverHurts | scripts/evaluate_smolvla_rtc_open_loop.py:273-274 | over all episodes, the clamp makes no figure worse when the truths are within reach |
| ChunkErrors.MaskTail | scripts/diagnose_smolvla_action_chunks.py:81-82 | in place, exactly the rows behind the end of the episode are blanked |
| ChunkErrors.EvaluateChunk | scripts/diagnose_smolvla_action_chunks.py:78-92 | one chunk: its masked error matrix and its rows |
| ChunkErrors.Diagnose | scripts/diagnose_smolvla_action_chunks.py:32-107 | fails exactly for a stride below one or when no chunk is sampled; otherwise returns the rows and the masked means of all chunk starts of all episodes |
| ChunkErrors.SomeActive | scripts/diagnose_smolvla_action_chunks.py:84-96 | whenever a chunk is sampled, one is in the first 360 frames, so the second mean is defined too |
| ChunkFacts.CellsAreRowErrors | scripts/diagnose_smolvla_action_chunks.py:80-95 | the cells a mean sees at an offset are exactly the errors of the rows written for that offset |
| ChunkFacts.OutputsAgree | scripts/diagnose_smolvla_action_chunks.py:95-106 | the masked mean equals the mean recomputed from the rows and the mean of the joint means; it is absent exactly when there is no row |
| ChunkFacts.ActiveMeanAgrees | scripts/diagnose_smolvla_action_chunks.py:84-96 | the second mean at an offset is the mean over the rows whose chunk starts in the first 360 frames, and absent exactly when there is none |
| ChunkMeans.OffsetMeans | scripts/diagnose_smolvla_action_chunks.py:80-103 | each reported mean, times the rows of its offset and the joints, is the sum of the absolute differences written in those rows; it is absent exactly when there is no row |
| ChunkMeans.JointOffsetMeans | scripts/diagnose_smolvla_action_chunks.py:80-106 | the same in every joint |
| ChunkMeans.EarlyOffsetMeans | scripts/diagnose_smolvla_action_chunks.py:84-104 | the same for the second mean, over the rows whose chunk starts in the first 360 frames |
| ChunkFacts.CountNeverGrows | scripts/diagnose_smolvla_action_chunks.py:81-92 | the number of valid samples never grows with the offset |
| ChunkCoverage.RowsAreTriples | scripts/diagnose_smolvla_action_chunks.py:60-92 | a row is written if and only if its start is on the stride, its offset inside the chunk, and its target inside the same episode |
| ChunkCoverage.RowsAreInOrder | scripts/diagnose_smolvla_action_chunks.py:63-92 | the rows of one pass over an episode are strictly ordered by start and offset: none is repeated |
| ChunkCoverage.HitsExactly | scripts/diagnose_smolvla_action_chunks.py:63-92 | target frame g is hit floor(g/stride) - ceil(max(0, g-chunk+1)/stride) + 1 times |
| ChunkCoverage.HitExactlyWhen | scripts/diagnose_smolvla_action_chunks.py:63-92 | frame g is hit at all if and only if g mod stride is less than the chunk size |
| ChunkCoverage.CoversExactlyWhen | scripts/diagnose_smolvla_action_chunks.py:63-92 | every frame of an episode is hit if and only if the stride is at most the chunk size or the episode is no longer than a chunk |
| OpenLoop.DefaultIsSuffix | scripts/evaluate_smolvla_open_loop_video.py:76-83 | without a list exactly the last ceil(total*split) episodes are selected, at least one |
| OpenLoop.ListedIsTaken | scripts/evaluate_smolvla_open_loop_video.py:73-83 | a list is taken as it is if and only if it is not empty and all its episodes exist; otherwise the error names exactly those that do not |
| OpenLoop.FramesPerEpisode | scripts/evaluate_smolvla_open_loop_video.py:312-316 | ceil(length/stride) frames, at most a positive cap and fewer by a negative one, at the first multiples of the stride; without a negative cap no episode that has any recorded frame is skipped |
| OpenLoop.Evaluate | scripts/evaluate_smolvla_open_loop_video.py:234-469 | the shape error and the empty evaluation are found exactly when they occur; otherwise the figures are those of all frames, each summary those of its episode, and the progress accuracy the share of predicted bins |
| OpenLoop.ReportedFrames | scripts/evaluate_smolvla_open_loop_video.py:424-454 | one summary for each episode with frames, in order, with the number of its frames; the total is their sum and the sum of the capped ceil(length/stride) of all episodes |
| OpenLoop.PartIs | scripts/evaluate_smolvla_open_loop_video.py:312-376 | the k-th frame of an episode enters its figures with the truth at start + k*stride and the k-th prediction |
| OpenLoop.ReportRecombines | scripts/evaluate_smolvla_open_loop_video.py:424-462 | every reported figure is the frame-weighted mean of the episodes', and those that the summaries carry the weighted mean of the summaries |
| OpenLoop.ReportedJointsAverage | scripts/evaluate_smolvla_open_loop_video.py:455-462 | the reported per-joint MAE average to the reported MAE, and the per-joint mean squares to the mean square |
| OpenLoop.AccuracyIsShare | scripts/evaluate_smolvla_open_loop_video.py:464-468 | the progress accuracy is absent exactly when no frame has a predicted bin, otherwise the share of those frames whose bin is right |
| Plot.DrawSeries | scripts/evaluate_smolvla_open_loop_video.py:116-125 | one point per value, or the division by zero of an empty value range |
| Plot.PointsAreInside | scripts/evaluate_smolvla_open_loop_video.py:120-125 | every point of a series no longer than the plot is inside the box |
| Plot.PlacementIsMonotone | scripts/evaluate_smolvla_open_loop_video.py:120-125 | later frames are never farther left and larger values never lower |
| Plot.PlacementIsNearest | scripts/evaluate_smolvla_open_loop_video.py:119-124 | each frame is in the column nearest to its share of the width, each value in range in the row nearest to its share of the height, off by half a step at most |
| Plot.ColumnsAreDistinct | scripts/evaluate_smolvla_open_loop_video.py:120-122 | in a plot at least as wide as its number of points every frame has its own column |
| Plot.EndColumns | scripts/evaluate_smolvla_open_loop_video.py:120-122 | the first frame is in the left column and the last in the right one |
| Plot.EndRows | scripts/evaluate_smolvla_open_loop_video.py:123-124 | values at or below the range are in the bottom row, values at or above it in the top row |

## Left out

- IEEE rounding: numbers are exact reals. A metric is dropped as infinite when its exact value reaches the magnitude that rounds to an infinite double; an evaluation loss is kept as its exact value, however large.
- Unicode: digits, word characters and white space are the ASCII ones, and text is a sequence of characters without decoding errors or newline translation.
- `splitlines` of the dry run: lines end at newlines only, not at the further separators it knows.
- `read_config`, command-line parsing, printing, and the dry run's JSON output.
- W&B beyond the sequence of logged records and its per-key summary: no networking, no metric definitions. A crash keeps some prefix of what was logged.
- The order of the keys of a metric dictionary.
- LeRobot's policy, processors, inference engines and action queue: their replies and the sizes of the queue are arbitrary.
- CSV, JSON, video and figure files, image conversion and the layout of the report panel.
- How cycle-progress targets come about: they are arbitrary, as the predictions are.
- TrackerLine.ShownReadsBack: starts from the digits that are shown; how they come about is modelled for counts and fixed decimals (`TrackerNumbers`), not for scientific notation or for a count of 10^18 or more, which is printed unformatted.
