# Presence timer and dashboard statistics, in Dafny

A model of the logic in a small hand-sanitizer monitoring dashboard.
The camera page runs a hand-pose detector on every video frame and keeps a
presence timer: an elapsed-seconds counter that advances once per second while
one or two hands are visible. When presence is lost, a five-second grace
timeout is armed; if it fires before presence returns, the counter is POSTed to
the backend and reset to zero. The page also shows a label naming the visible
hand(s), mirrored because the preview is mirrored, and the counter as `mm:ss`.
The dashboard page fetches the stored durations and shows their maximum,
minimum and mean, and how many were "good" (longer than 300 seconds) or not.

Files:

- `hand_labels.dfy` (module `HandLabels`): the presence label chosen from a
  detector sample.
- `time_format.dfy` (module `TimeFormat`): `formatTime`, with `String(n)` and
  `padStart(2, "0")` written out, and a parser that reads the display back.
- `presence_timer.dfy` (module `PresenceTimer`): the timer as a pure state
  machine (`State`, `Event`, `Step`, `Run`) with its invariants and trace
  properties, and the class `Session`, whose fields are updated in place by
  `Sample`, `Tick` and `GraceExpire`, each proved to perform exactly one `Step`.
- `dashboard.dfy` (module `Dashboard`): `calculateStatistics`, `countGoodData`
  and the not-good count.

How the React page maps onto the model:

- The state `timer` / `timerRunning` becomes the fields `timer` and `running`.
  The pending `setTimeout` handle of the grace effect becomes the flag `armed`.
  The POST becomes an append to the ghost log `reports`.
- The grace effect depends on `[timer, timerRunning]`. `Settle` models this:
  when either value changed, the old timeout is cleared and a new one is armed
  iff `timer != 0 && !running`; a `setTimerRunning` to the value it already has
  does not re-run the effect, so a pending timeout keeps running.
- Timing becomes discrete events: `IntervalTick` (the one-second interval fires)
  and `GraceTimeout` (the pending timeout fires).
- A detector result becomes `Frame(hands)`. Only the number of hands and each
  hand's `handedness` string are kept.

Two details of the page that the model keeps exactly:

- The timer runs only for exactly one or two hands. Any other count, including
  more than two, stops it (app/camera/page.tsx:153-166).
- The grace timeout is re-armed whenever `timer` or `timerRunning` changes
  while `timer != 0 && !timerRunning` holds (app/camera/page.tsx:113-127). In
  reachable states that happens only when presence is lost.

## Model

| member | source | states |
|---|---|---|
| `HandLabels.Label` | app/camera/page.tsx:153-164 | the label is one of the four messages the page can show |
| `HandLabels.SingleHandMirrored` | app/camera/page.tsx:156-161 | a single hand the detector calls Left or Right is announced as the opposite side |
| `HandLabels.NonRightIsRightLabel` | app/camera/page.tsx:157-160 | a single hand with any handedness other than "Right" is announced as the right hand |
| `HandLabels.LabelMatchesPresence` | app/camera/page.tsx:153-166 | the label is "No Hands Detected" exactly when the sample stops the timer, and "Both Hands Detected" exactly for two hands |
| `HandLabels.HandsPresent` | app/camera/page.tsx:153-166 | presence means exactly one or two hands; `FrameSetsRunning` and `LabelMatchesPresence` tie it to the running flag and the label |
| `TimeFormat.DecimalString` | app/camera/page.tsx:222-223 | `String(n)` of a natural number is a non-empty digit string, one digit exactly below 10, at most two below 100, with no leading '0' from 10 on |
| `TimeFormat.PadStart2` | app/camera/page.tsx:222-223 | `padStart(2, "0")` yields two characters for a shorter input and leaves a longer one at its length |
| `TimeFormat.PadStart2Prefixes` | app/camera/page.tsx:222-223 | padding keeps the input as the suffix of the result and puts only '0' characters before it |
| `TimeFormat.DecimalRoundTrip` | app/camera/page.tsx:222-223 | reading back the decimal string of `n` gives `n` |
| `TimeFormat.LeadingZero` | app/camera/page.tsx:222-223 | a leading '0' does not change the value of a digit string |
| `TimeFormat.PaddedValue` | app/camera/page.tsx:222-223 | zero padding does not change the value of a digit string |
| `TimeFormat.Clock` | app/camera/page.tsx:220-224 | padded minutes, a colon and padded seconds: at least five characters, the colon third from the end whenever the seconds are below 100; the values read back are proved in `ClockShape` |
| `TimeFormat.ClockShape` | app/camera/page.tsx:220-224 | padded minutes, a colon and padded seconds below 60 split back into digit strings worth the minutes and the seconds |
| `TimeFormat.FormatTime` | app/camera/page.tsx:219-225 | the display has at least five characters with the colon third from the end; `FormatTimeShape`, `FormatParseRoundTrip` and `FormatTimeExamples` state what it reads as |
| `TimeFormat.FormatTimeShape` | app/camera/page.tsx:219-225 | the display is at least two minute digits worth `t / 60`, a colon, and exactly two second digits worth `t % 60 < 60` |
| `TimeFormat.FormatParseRoundTrip` | app/camera/page.tsx:219-225 | parsing `minutes * 60 + seconds` back out of `formatTime(t)` gives `t` |
| `TimeFormat.FormatTimeExamples` | app/camera/page.tsx:219-225 | 65 s shows "01:05", 5 s shows "00:05", 0 s shows "00:00" |
| `PresenceTimer.Settle` | app/camera/page.tsx:113-127 | the grace effect touches only the pending-timeout flag, which it either keeps or sets to `timer != 0 && !running`; `StepConsistent` shows the result is always the latter in reachable states |
| `PresenceTimer.Step` | app/camera/page.tsx:103-166 | one event leaves the counter alone, adds one on a tick, or resets it on a timeout; the reports either stay or gain exactly the counter on a timeout; the per-event lemmas below state each case |
| `PresenceTimer.Run` | app/camera/page.tsx:103-166 | a run of events only ever appends to the reports; `Conservation`, `RunConsistent` and the gap lemmas state what it computes |
| `PresenceTimer.TickCounts` | app/camera/page.tsx:103-111 | a tick while running adds exactly one second, a tick while stopped changes nothing; running and reports untouched |
| `PresenceTimer.FrameSetsRunning` | app/camera/page.tsx:153-166 | a sample sets running iff it has one or two hands, sets the label, and leaves counter and reports alone |
| `PresenceTimer.TimeoutReportsAndResets` | app/camera/page.tsx:113-127 | a pending timeout implies a non-zero counter; its firing appends exactly the counter to the reports, sets it to 0 and leaves running alone; with nothing pending it changes nothing |
| `PresenceTimer.ZeroNeverReports` | app/camera/page.tsx:116 | with the counter at 0 the timeout path reports nothing |
| `PresenceTimer.TimeoutIdempotent` | app/camera/page.tsx:116-122 | a second firing right after the first changes nothing: finalisation is idempotent |
| `PresenceTimer.ResumeCancels` | app/camera/page.tsx:113-127 | presence returning during the grace period keeps the counter, reports nothing and cancels the pending timeout |
| `PresenceTimer.StepConsistent` | app/camera/page.tsx:103-166 | every event keeps the invariant: a timeout is pending exactly when `timer != 0 && !running`, and no report is 0 |
| `PresenceTimer.RunConsistent` | app/camera/page.tsx:103-166 | every state reachable from a consistent state is consistent |
| `PresenceTimer.ReportsPositive` | app/camera/page.tsx:116-120 | from the page's initial state every reported duration is positive |
| `PresenceTimer.Conservation` | app/camera/page.tsx:103-127 | the sum of the reports plus the counter grows by exactly the interval ticks that fire while running: no tick is lost or counted twice |
| `PresenceTimer.ConservationFromInit` | app/camera/page.tsx:83-127 | from the initial state, the reports plus the current counter equal the number of interval ticks that fired while running |
| `PresenceTimer.NoTimeoutNoReport` | app/camera/page.tsx:103-127 | without a timeout firing nothing is reported and the counter only grows, by the running ticks |
| `PresenceTimer.QuietRun` | app/camera/page.tsx:113-127 | during an absence the machine stays stopped; if the timeout fires, exactly one report of the counter (none if 0) is made and the counter ends at 0, otherwise nothing changes |
| `PresenceTimer.ShortGapPreserved` | app/camera/page.tsx:113-127 | losing and regaining presence with no timeout in between keeps the counter, reports nothing and leaves nothing pending |
| `PresenceTimer.LongGapReportsOnce` | app/camera/page.tsx:113-127 | losing presence with a non-zero counter until the timeout fires reports the counter exactly once and resets it |
| `PresenceTimer.Session.constructor` | app/camera/page.tsx:83-84 | the page starts with counter 0, stopped, nothing pending, nothing reported |
| `PresenceTimer.Session.SettleGrace` | app/camera/page.tsx:113-127 | the grace effect re-arms only when `timer` or `running` changed, and then iff `timer != 0 && !running` |
| `PresenceTimer.Session.Sample` | app/camera/page.tsx:153-166 | the in-place sample handler performs exactly `Step(_, Frame(hands))` and keeps the invariant |
| `PresenceTimer.Session.Tick` | app/camera/page.tsx:103-111 | the in-place interval callback performs exactly `Step(_, IntervalTick)`: +1 while running, else unchanged |
| `PresenceTimer.Session.GraceExpire` | app/camera/page.tsx:113-127 | the in-place timeout callback performs exactly `Step(_, GraceTimeout)`: appends the non-zero counter, resets it, disarms |
| `Dashboard.SecondsOf` | app/page.tsx:53 | the mapped list has one entry per record, equal to its seconds |
| `Dashboard.Max` | app/page.tsx:54 | for a non-empty list the maximum is an element and is at least every element |
| `Dashboard.Min` | app/page.tsx:55 | for a non-empty list the minimum is an element and is at most every element |
| `Dashboard.Sum` | app/page.tsx:56 | the reduce-sum; `SumBounds` bounds it by the length times the smallest and largest value |
| `Dashboard.Average` | app/page.tsx:56-57 | the mean times the length is the sum; `AverageBetween` places it between the minimum and the maximum |
| `Dashboard.SumBounds` | app/page.tsx:56-57 | a sum of values between `lo` and `hi` lies between `n * lo` and `n * hi` |
| `Dashboard.AverageBetween` | app/page.tsx:56-57 | the exact average `sum / length` lies between the minimum and the maximum |
| `Dashboard.CalculateStatistics` | app/page.tsx:52-61 | max and min are seconds of some record, bound every record, min <= max, and min <= average <= max |
| `Dashboard.GoodRecords` | app/page.tsx:65 | the filter keeps only records of the list with more than 300 seconds, and is no longer than the list |
| `Dashboard.GoodRecordsComplete` | app/page.tsx:65 | every record with more than 300 seconds survives the filter |
| `Dashboard.GoodCount` | app/page.tsx:64-66 | the good count is at most the list length; `GoodCountIsIndexCount` and `GoodCountAppend` say which records it counts |
| `Dashboard.NotGoodCount` | app/page.tsx:84 | the not-good count is a natural number and the two counts sum to the list length |
| `Dashboard.GoodCountAppend` | app/page.tsx:64-66 | appending a record with more than 300 seconds adds one to the good count, otherwise one to the not-good count |
| `Dashboard.GoodCountIsIndexCount` | app/page.tsx:64-66 | the good count equals the number of positions holding a record with more than 300 seconds |
| `Dashboard.NotGoodCountIsComplement` | app/page.tsx:79-84 | the not-good count equals the number of records with at most 300 seconds |
| `Dashboard.DashboardExample` | app/page.tsx:52-67 | records of 100, 400 and 301 s give max 400, min 100, average 267, two good and one not good |

## Left out

- Webcam, canvas and detector setup, `drawHands`, the animation-frame hook and the JSX/CSS: browser I/O with no logic of their own.
- The hand-pose detector itself: a foreign model. Each result is abstracted to a list of hands with a handedness string. A frame for which the page has no detector or canvas yet produces no event.
- The HTTP calls (`axios.post`, `fetch`) and their error logging. A POST is an append to the ghost `reports` log. A failed POST changes nothing in the page, so the model does not distinguish it.
- Wall-clock timing. The five-second duration of the grace timeout is not modelled: `GraceTimeout` is the pending timeout firing, whenever the environment delivers it. The sub-second phase of the interval is not modelled either. The interval is cleared and restarted on every `timerRunning` change (app/camera/page.tsx:103-111), so the partial second before each change is lost; a detector that misses the hands at least once a second therefore keeps the counter from ever advancing. The model counts interval ticks, not wall-clock seconds.
- React's render and effect scheduling. Each event is applied together with the effects it triggers, as one atomic step.
- `formatDate`: it depends on JavaScript `Date` parsing and the local time zone.
- The dashboard's loading flag and the component state that only stores results.
- Dashboard.Max: requires a non-empty list. `Math.max()` of an empty list is -Infinity, which has no integer counterpart.
- Dashboard.Min: requires a non-empty list. `Math.min()` of an empty list is +Infinity.
- Dashboard.Max, Dashboard.Min: total on every non-empty list. `Math.max(...xs)` and `Math.min(...xs)` (app/page.tsx:54-55) throw a RangeError once the list exceeds the engine's argument limit. The catch at app/page.tsx:33-36 swallows it, so `countGoodData` (line 31) never runs and the page shows good = 0 and not-good = the whole length.
- Dashboard.CalculateStatistics: requires a non-empty list. The empty-list average is NaN.
- Dashboard.AverageBetween: the average is an exact rational. The source computes it in floating point and prints it with `toFixed(2)`.
- Record seconds are modelled as unbounded integers. JavaScript numbers are doubles, which is exact for any realistic duration.
- `formatTime` is modelled for natural numbers only, which is what the counter holds. For those, JavaScript's `Math.floor(t / 60)` and `t % 60` agree with Dafny's `/` and `%`.
