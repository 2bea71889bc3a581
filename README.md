# big-switch, modelled in Dafny

big-switch is a deploy button: a Raspberry Pi with a push button, a
24-LED ring and a 16x2 character display. The appliance watches for
something deployable. When something appears, it breathes a colour on the
ring, shows a prompt on the display and waits for a press. A press
promotes or triggers the deploy. A success or failure is flashed, and the
display and ring are then reset.

The repository holds three generations of this program, and this project
models the core of each:

- **Release-manager generation** (`cmd/big-switch`, `internal/...`):
  - `Watcher` (`watcher.dfy`): the drift watcher of `internal/deploy/watcher.go`. For each service it polls a release manager for the `dev` and `prod` artifacts. It reports a drift (prod behind dev) once per dev artifact, after a warm-up, using a cold/warm-up/hot state machine.
  - `Artifacts` (`artifact.dfy`): the drift predicate itself.
  - `ChangeListener` (`listener.dfy`): the listener that turns a reported drift and a confirmation into `Alert`, `Promote`, `Success`/`Failure` and `Reset` calls.
  - `HamChecker` (`ham.dfy`): the earlier checker of `internal/deploy/ham.go`.
  - `Notifier` (`notifier.dfy`): the LED notifier's author and colour choices, and the goroutine that forwards button presses as confirmations.
  - `ServiceConfig` (`config.dfy`): the configuration checks.
  - `Colour`, `NeoPixel`, `NeoPixelEffects` (`colour.dfy`, `neopixel.dfy`, `effects.dfy`): the LED ring, covering colour arithmetic, the colour wheel, and the rainbow, breathe and flash animations. The ring's buffer is an array, and every render records the picture shown.
  - `Lcd`, `LcdText` (`lcd.dfy`, `lcd_text.dfy`): the 4-bit display driver at the pin level, plus the text helpers. The driver is proved against an independent model of the display controller: the bytes it receives are exactly the bytes sent, and the screen then shows the printed line.
  - `Button` (`button.dfy`): the debounce loop of the button.
  - `Counting` (`counting.dfy`): counting the elements of a trace that satisfy a predicate, shared by the listeners' per-event counts.
- **GitHub generation** (`cmd/main.go`, `deploy/github.go`):
  - `GithubWatcher` (`github.dfy`): a branch watcher behind a rate-limit gate.
  - `Deployer` (`deployer.dfy`): the configuration checks, the colour table, and the listener that triggers a (fixed) Jenkins deploy.
- **First generation** (`main.go`, `button.go`, `lcd/lcd.go`, `neopixel/neo.go`):
  - `LegacyDeployer`, `LegacyButton`, `LegacyNeoPixel` (`legacy_deployer.dfy`, `legacy_button.dfy`, `legacy_neopixel.dfy`).
  - Where its code is the same statements as a newer file, the newer member models both:
    - `lcd/lcd.go` is `internal/lcd`, with `PrintLine` for `Println`.
    - `withBrightness`, `setColor`, `Flash`, `clear` and `Stop` of `neopixel/neo.go` are those of `internal/neopixel/neo.go`.
    - `Flash`, `Breathe` and `singleBreath` of `internal/neopixel/effects.go` are the `NeoPixel.LedController` methods of `internal/neopixel/neo.go` (only the interruption field is named differently); its `Rainbow` is `NeoPixelEffects.Rainbow`.
    - `RepoName` and the repository checks of `main.go` are those of `cmd/main.go`.
    - The button-press goroutines of `cmd/main.go:99-114` and `main.go:76-91` are `Notifier.ForwardPresses` without the cancellation case.

Goroutine loops that never end are modelled over a finite script of what
their `select`s receive. Elapsed time, ticker ticks, timeouts and replies
from the network are inputs. Each loop is a method proved against a
function over the script. The model follows the code; where the code's
own tests expect something else, or a corner deserves a note, this is
noted:

- The watcher's de-duplication key is the *dev* artifact, with a warm-up state.
- The event carries the dev artifact's name. `internal/deploy/watcher_test.go:74` expects the prod name.
- A drift whose dev artifact is the zero artifact (possible with a negative prod time) is never reported, because a fresh watch remembers the zero artifact as already handled (`Watcher.ZeroDevDriftNeverSent`); the "reported once" promise holds for every other drift (`Watcher.OnlyReportsChangeOnce`).

## Model

| member | source | states |
|---|---|---|
| Artifacts.Equals | internal/deploy/artifact.go:32-34 | artifact equality is field equality, i.e. value equality |
| Artifacts.IsProdBehind | internal/deploy/artifact.go:9-25 | drift holds exactly when prod has a tag, the tags differ, prod has a non-zero time and prod's time is strictly before dev's; each early `return false` is a separate clause |
| Artifacts.DriftSeparatesEnvironments | internal/deploy/artifact.go:9-25 | under drift, prod and dev differ and prod is not the zero artifact; dev can be zero only if prod's time is negative |
| Watcher.LastArtifactIsLastMatch | internal/deploy/watcher.go:128-135 | the environment loop's result for a name is the zero artifact when no entry has that name, else the artifact of the last entry with that name |
| Watcher.GetArtifacts | internal/deploy/watcher.go:124-135 | the snapshot carries the service name, and dev and prod are the last entries named "dev" and "prod" |
| Watcher.FetchAsWritten | internal/deploy/watcher.go:113-122 | as written: only a request-building failure is an error; a failed `client.Do` yields zero artifacts |
| Watcher.Fetch | internal/deploy/watcher.go:113-138 | with the `client.Do` error returned: a fetch fails exactly when the request or the call fails, else it gives the selected snapshot |
| Watcher.Step | internal/deploy/watcher.go:64-98 | a failed fetch changes nothing; an event for the dev artifact is sent exactly on a hot poll whose dev equals the warm-up artifact and that still drifts; cold and seen: skipped; cold, new and drifting: warm up; every other poll: back to cold, recording the warm-up artifact |
| Watcher.Run | internal/deploy/watcher.go:54-99 | one output per tick |
| Watcher.SteadyRun | internal/deploy/watcher.go:54-99 | on a steady drifted snapshot, with failed fetches in between, each tick's output and the final state depend only on how many polls succeeded |
| Watcher.OnlyReportsChangeOnce | internal/deploy/watcher.go:70-98 | for a steady drifted snapshot, exactly the second successful poll sends the event, and no other tick does |
| Watcher.QuietWhileDevUnchanged | internal/deploy/watcher.go:70-74 | once a dev artifact was handled hot, polls showing it again change nothing and send nothing |
| Watcher.ZeroDevDriftNeverSent | internal/deploy/watcher.go:70-74 | a drifted snapshot whose dev is the zero artifact (prod time negative) is skipped by a fresh watch forever: nothing is sent and the state stays initial |
| Watcher.RearmsOnNewDevArtifact | internal/deploy/watcher.go:76-92 | a new drifted dev artifact is warmed up on one poll and reported on the next |
| Watcher.ChangedHotPollSuppresses | internal/deploy/watcher.go:85-98 | a hot poll that no longer sees the warm-up artifact drifting sends nothing, returns to cold, and later polls of that artifact stay silent |
| Watcher.SwallowedFetchErrorHidesDrift | internal/deploy/watcher.go:118-122 | as written: a warm-up, then a failed `client.Do`, then any number of polls of the same drift never send an event |
| Watcher.FetchErrorKeepsDrift | internal/deploy/watcher.go:118-122 | corrected: the same ticks report the drift on the next successful poll |
| Watcher.DriftWatch.constructor | internal/deploy/watcher.go:50-52 | a watch starts cold with two zero artifacts |
| Watcher.DriftWatch.Tick | internal/deploy/watcher.go:64-98 | one loop body updates the watch's fields and sends exactly as `Step` does; a failed fetch leaves them unchanged |
| Watcher.DriftWatch.Watch | internal/deploy/watcher.go:54-99 | each tick fetches the watched service's snapshot as written; the loop's final fields and the events sent are those of `Run` over those snapshots |
| HamChecker.QueryValues | internal/deploy/ham.go:112-116 | the query always carries the service; it carries the namespace exactly when one is given; nothing else |
| HamChecker.Tick | internal/deploy/ham.go:68-84 | an event is sent exactly on a successful poll whose dev and prod tags differ, and it names the *prod* tag |
| HamChecker.Watch | internal/deploy/ham.go:58-85 | the loop sends the per-tick offers in order |
| HamChecker.OffersEveryTick | internal/deploy/ham.go:74-84 | no de-duplication: a differing snapshot is offered on every successful tick |
| HamChecker.IntendedTick | internal/deploy/ham.go:77-79 | corrected: an offer is made only when prod is not newer than dev |
| HamChecker.ProdNewerStillOffered | internal/deploy/ham.go:77-83 | as written: a newer prod is still offered; the corrected tick refuses it and otherwise agrees |
| HamChecker.Checker.constructor | internal/deploy/ham.go:39-50 | a new checker is not stopped |
| HamChecker.Checker.Close | internal/deploy/ham.go:32-37 | the kill switch is closed once, however often `Close` is called; no error |
| GithubWatcher.GoQuo | deploy/github.go:58 | Go's truncating division: agrees with Euclid's on non-negative operands, and the quotient times the divisor is the dividend minus the remainder |
| GithubWatcher.TruncatedDivision | deploy/github.go:58 | division of magnitudes with signs restored satisfies the division identity |
| GithubWatcher.GoRem | deploy/github.go:58 | the remainder is smaller than the divisor and has the dividend's sign |
| GithubWatcher.CheckRate | deploy/github.go:48-63 | no error before any request or after the reset time; otherwise an error exactly when remaining*100/limit (truncated) is at most 20 |
| GithubWatcher.RateThreshold | deploy/github.go:13 | for a positive limit, requests pass exactly when at least 21% of the quota is left; exactly 20% is refused |
| GithubWatcher.HeadCommit | deploy/github.go:111-132 | a refused rate check gives `RateLimited` and keeps the rate; otherwise the reply's head and rate are taken |
| GithubWatcher.Step | deploy/github.go:89-104 | a refused tick changes and sends nothing; a head is reported exactly when it differs from the last one, and is then remembered |
| GithubWatcher.Run | deploy/github.go:78-105 | the loop over ticks keeps a usable rate |
| GithubWatcher.Events | deploy/github.go:98-103 | one event per reported head, carrying owner, repo, branch and head |
| GithubWatcher.ReportsAreChanges | deploy/github.go:95-104 | the first report differs from the starting head, each report differs from the previous one, and the last report is the final head |
| GithubWatcher.SameHeadIsSilent | deploy/github.go:95 | a head that does not move is never reported |
| GithubWatcher.Checker.constructor | deploy/github.go:24-31 | a checker starts with no rate and neither once-guard run |
| GithubWatcher.Checker.Init | deploy/github.go:40-46 | the channels are made on the first call only |
| GithubWatcher.Checker.Close | deploy/github.go:33-46 | the kill switch is closed on the first call only, and no error is returned; a first call before `init` panics on the nil channel, closes nothing, and spends the guard, so no later call closes the switch |
| GithubWatcher.CloseNeedsInit | deploy/github.go:33-46 | a new checker's `Close` panics; after `init`, `Close` closes the kill switch once |
| GithubWatcher.Checker.GetHeadCommit | deploy/github.go:111-132 | the checker's rate and the result are those of `HeadCommit` |
| GithubWatcher.Checker.AddWatch | deploy/github.go:65-109 | a refused first head is returned as the error and nothing is sent; otherwise the events are those of `Run` from the first head |
| ChangeListener.HandleShape | internal/deploy/watcher.go:159-185 | a cancellation or an unreceived confirmation does nothing; an event is alerted first and reset last, exactly once; it is promoted with its own data exactly on a `true` confirmation; success and failure follow the promoter's result |
| ChangeListener.Run | internal/deploy/watcher.go:159-186 | the listener's calls over a script of turns are the per-turn calls in order |
| ChangeListener.HandleKeepsProtocol | internal/deploy/watcher.go:163-185 | each turn follows the notifier protocol from idle back to idle |
| ChangeListener.ListenKeepsProtocol | internal/deploy/watcher.go:159-186 | the whole trace follows the protocol: alert, then at most one promote, then at most one outcome, then reset |
| ChangeListener.HandleCounts | internal/deploy/watcher.go:165-184 | one alert and one reset per event, one promote per `true` confirmation |
| ChangeListener.OneResetPerEvent | internal/deploy/watcher.go:159-186 | over any script, alerts = resets = events received, and promotes = `true` confirmations |
| ChangeListener.NotArmedIsSilent | internal/deploy/watcher.go:159-162 | without events, nothing is called |
| ChangeListener.CancellationDoesNotStop | internal/deploy/watcher.go:161-162 | the `break` leaves only the `select`: an event after a cancellation is still handled |
| Notifier.FirstWord | cmd/big-switch/main.go:288 | the result is the prefix of the author up to, not including, the first space (all of it if there is none) |
| Notifier.FirstWordUnique | cmd/big-switch/main.go:288 | those three properties determine the first word |
| Notifier.MapAuthor | cmd/big-switch/main.go:284-292 | a mapped author gets the configured name; an unmapped one gets their first word |
| Notifier.UnmappedSingleWord | cmd/big-switch/main.go:284-292 | an unmapped author without spaces is shown whole |
| Notifier.AlertColor | cmd/big-switch/main.go:264-267 | the service's configured colour, else blue 0x0000FF |
| Notifier.ForwardPresses | cmd/big-switch/main.go:192-206 | one `true` is sent per press received while someone listens; nothing else is sent |
| Notifier.UnheardPressesAreDropped | cmd/big-switch/main.go:199-203 | with no listener, nothing is delivered (presses are not queued) |
| Notifier.ReleasesAreSilent | cmd/big-switch/main.go:198 | releases deliver nothing |
| ServiceConfig.CheckServices | cmd/big-switch/config.go:33-40 | no error exactly when every entry from `i` on has a name and a colour; otherwise it is the first failing entry, and the error says which check failed |
| ServiceConfig.ReadConfig | cmd/big-switch/config.go:30-42 | accepted, unchanged, exactly when the token is set and every entry passes; a missing token is reported first; otherwise the first bad entry |
| ServiceConfig.NoServicesIsValid | cmd/big-switch/config.go:30-42 | a token and no services is accepted |
| ServiceConfig.FirstFailureWins | cmd/big-switch/config.go:33-40 | entries after the first bad one do not change the error |
| Deployer.RepositoryFault | cmd/main.go:198-210 | an entry's fault is the first missing field, in the order owner, repo, branch, colour; none exactly when all four are present |
| Deployer.CheckRepositories | cmd/main.go:198-211 | no error exactly when every entry passes; otherwise the fault of the first failing entry |
| Deployer.GetConfig | cmd/main.go:195-213 | accepted, unchanged, exactly when the GitHub token is set and every entry passes; the token is checked first |
| Deployer.RepoName | cmd/main.go:60-62 | "owner/repo": the owner, a slash, the repo |
| Deployer.RepoNameInjective | cmd/main.go:60-62 | for slash-free owners, distinct (owner, repo) pairs give distinct names |
| Deployer.ColorsDomain | cmd/main.go:117-121 | the colour table holds exactly the configured names |
| Deployer.ColorsLastWins | cmd/main.go:117-121 | a name holds the colour of its last entry |
| Deployer.DistinctReposKeepColors | cmd/main.go:117-121 | distinct repositories each keep their own colour |
| Deployer.BuildColors | cmd/main.go:117-121 | the loop builds the colour table |
| Deployer.HandleShape | cmd/main.go:126-150 | the repo's colour is breathed and the prompt shown first; the display reset and LED stop come last, once each; a deploy (always the fixed one) happens exactly on a `true` confirmation and ends with a green flash; red is flashed exactly on a failed trigger |
| Deployer.Run | cmd/main.go:124-152 | the listener's calls over a script are the per-event calls in order |
| Deployer.HandleCounts | cmd/main.go:126-150 | one reset and one stop per event, one deploy per `true` confirmation |
| Deployer.ResetAfterEveryEvent | cmd/main.go:124-152 | over any script: resets = stops = events, and deploys = `true` confirmations |
| Deployer.EveryDeployIsFixed | cmd/main.go:136 | every deploy triggered is callebjorkell/big-switch master to the sandbox, whatever changed |
| LegacyDeployer.GetConfig | main.go:161-182 | accepted, unchanged, exactly when the GitHub and Jenkins tokens are set and every entry passes, checked in that order |
| LegacyDeployer.HandleShape | main.go:103-119 | never a deploy; a green flash exactly on a `true` confirmation; reset and stop last |
| LegacyDeployer.Run | main.go:101-121 | the listener's calls are the per-event calls in order |
| LegacyDeployer.ResetAfterEveryEvent | main.go:101-121 | one reset and one stop per event, and no deploy at all |
| Colour.ChannelsDetermine | internal/neopixel/neo.go:184-199 | a 24-bit colour is determined by its three channels |
| Colour.ToRGB | internal/neopixel/neo.go:201-203 | packing 8-bit channels gives a 24-bit colour whose channels are those given |
| Colour.PackUnpack | internal/neopixel/neo.go:184-203 | unpacking then packing a 24-bit colour gives it back |
| Colour.Scale | internal/neopixel/neo.go:194-196 | scaling a channel never brightens it |
| Colour.WithBrightness | internal/neopixel/neo.go:184-199 | at 100 or more the colour is unchanged; at 0 it is black; below 100 each channel is no brighter and the result is 24-bit |
| Colour.BrightnessScalesChannels | internal/neopixel/neo.go:192-198 | strictly between 0 and 100, each channel is the input channel times the light level over 100, rounded down |
| Colour.ScaleRoundsDown | internal/neopixel/neo.go:194-196 | the scaled channel is the floor of ch*light/100 |
| Colour.BrightnessMonotone | internal/neopixel/neo.go:184-199 | a lower light never gives a brighter channel |
| Colour.ScaleMonotone | internal/neopixel/neo.go:194-196 | channel scaling is monotone in the light level |
| Colour.BrightnessTable | internal/neopixel/neo_test.go:15-56 | the brightness test's seven cases |
| Colour.GetRGB | internal/neopixel/neo.go:86-104 | every wheel colour is 24-bit, with one channel full and one channel off |
| Colour.Hue | internal/neopixel/neo.go:88-103 | the same for each of the six ramps |
| Colour.WheelPeriod | internal/neopixel/neo.go:87 | the wheel has period 300 |
| Colour.WheelIsSmooth | internal/neopixel/neo.go:86-104 | neighbouring angles differ by at most 10 per channel, including across the wrap |
| Colour.HueWraps | internal/neopixel/neo.go:103 | the last hue is next to pure red |
| Colour.HueIsSmooth | internal/neopixel/neo.go:88-103 | neighbouring positions inside one turn are close |
| NeoPixel.Fill | internal/neopixel/neo.go:46-54 | the buffer after `setColor`: n copies of the colour |
| NeoPixel.Frames | internal/neopixel/neo.go:46-54 | one full-ring picture per colour set |
| NeoPixel.RainbowSchedule | internal/neopixel/neo.go:65-73 | a step's colour is the wheel; up to step 300 it is undimmed; after that it is dimmed to 400-step percent, which is between 1 and 99 |
| NeoPixel.RainbowColors | internal/neopixel/neo.go:65-81 | the n first rainbow colours in order |
| NeoPixel.RainbowNext | internal/neopixel/neo.go:65-81 | one more step adds the picture of its colour |
| NeoPixel.RainbowStepColor | internal/neopixel/neo.go:70-73 | the colour computed for a step is the schedule's |
| NeoPixel.BreathLevel | internal/neopixel/neo.go:147-181 | a breath's level never exceeds 101 |
| NeoPixel.BreathShape | internal/neopixel/neo.go:147-181 | the breath rises by one from 0 to 101, then falls by one back to 0 |
| NeoPixel.BreathColors | internal/neopixel/neo.go:147-181 | the k-th colour of a breath is the colour at the k-th level |
| NeoPixel.BreathNext | internal/neopixel/neo.go:147-181 | one more iteration adds the picture of its level |
| NeoPixel.BreathsArePeriodic | internal/neopixel/neo.go:131-145 | breathing until interrupted is periodic with period 203: one picture per check, the k-th at level k mod 203 |
| NeoPixel.BreathStep | internal/neopixel/neo.go:137-143 | a whole breath followed by the remaining breaths is all the breaths |
| NeoPixel.LedController.constructor | neopixel/neo.go:30-47 | a new ring of 24 dark LEDs with nothing shown |
| NeoPixel.Interruptor.constructor | internal/neopixel/interruptor.go:13-17 | a new interruptor counts no waiting request |
| NeoPixel.Interruptor.Request | internal/neopixel/interruptor.go:41-47 | registering a request raises the count by one |
| NeoPixel.Interruptor.Running | internal/neopixel/interruptor.go:34-39 | a request that runs stops waiting: the count drops by one |
| NeoPixel.Interruptor.Interrupt | internal/neopixel/interruptor.go:22-32 | the caller's own request is registered and withdrawn: the count is unchanged |
| NeoPixel.Interruptor.IsInterrupted | internal/neopixel/interruptor.go:49-54 | interrupted exactly when some request waits |
| NeoPixel.Interruptor.Done | internal/neopixel/interruptor.go:56-63 | finishing leaves the count unchanged |
| NeoPixel.OwnRequestWithdrawn | internal/neopixel/interruptor.go:22-54 | an animation started through `Interrupt` is interrupted at its first check exactly when another request waits |
| NeoPixel.OtherRequestInterrupts | internal/neopixel/interruptor.go:41-54 | a request made while an animation runs is seen at its next check |
| NeoPixel.LedController.IsInterrupted | internal/neopixel/interruptor.go:49-54 | interruption is reported once the quiet checks are used up, and then stays reported |
| NeoPixel.LedController.Render | internal/neopixel/neo.go:51 | renders a copy of the buffer |
| NeoPixel.LedController.SetColor | internal/neopixel/neo.go:46-54 | every LED gets the colour, and that picture is shown |
| NeoPixel.LedController.Clear | internal/neopixel/neo.go:127-129 | all LEDs off, and that picture is shown |
| NeoPixel.LedController.Stop | internal/neopixel/neo.go:29-35 | all LEDs off, and that picture is shown |
| NeoPixel.LedController.Flash | internal/neopixel/neo.go:106-125 | the colour and black, three times, ending dark |
| NeoPixel.LedController.Rainbow | internal/neopixel/neo.go:56-84 | interrupted exactly when fewer than 400 checks pass; shows the rainbow's pictures up to the interruption, then black |
| NeoPixel.LedController.SingleBreathe | internal/neopixel/neo.go:147-181 | interrupted exactly when fewer than 203 checks pass; shows the breath's pictures up to the interruption |
| NeoPixel.LedController.Breathe | internal/neopixel/neo.go:131-145 | breathes until interrupted, then clears: the periodic breath pictures, then black |
| NeoPixelEffects.FadeColor | internal/neopixel/effects.go:44-50 | the colour of a step of the fading rainbow |
| NeoPixelEffects.FadeSchedule | internal/neopixel/effects.go:44-50 | a step's colour is the wheel at the fade level; steps 50 to 350 are undimmed |
| NeoPixelEffects.FadeEndsDark | internal/neopixel/effects.go:44-50 | the first and last steps are black |
| NeoPixelEffects.FadesAreMonotone | internal/neopixel/effects.go:45-50 | fade levels are below 100; the fade-in only brightens and the fade-out only darkens |
| NeoPixelEffects.FadeColors | internal/neopixel/effects.go:39-58 | the n first fade colours in order |
| NeoPixelEffects.FadeNext | internal/neopixel/effects.go:39-58 | one more step adds the picture of its colour |
| NeoPixelEffects.StepColor | internal/neopixel/effects.go:44-50 | the colour computed for a step is the schedule's |
| NeoPixelEffects.Rainbow | internal/neopixel/effects.go:30-61 | interrupted exactly when fewer than 451 checks pass; shows the fade pictures up to the interruption, then black |
| LegacyNeoPixel.FillLeds | neopixel/neo.go:131-133 | every LED of the buffer gets the colour |
| LegacyNeoPixel.SingleBreathe | neopixel/neo.go:117-153 | the inline breath shows the same pictures as the newer `singleBreathe` |
| LegacyNeoPixel.Breathe | neopixel/neo.go:101-115 | breathes until interrupted, then clears, as the newer `Breathe`, for every count of quiet checks; with the legacy `Queue` that count is 0 (`LegacyNeoPixel.QueuedBreathe`, Findings) |
| LegacyNeoPixel.Queue.constructor | neopixel/interruptor.go:9-13 | a new queue counts no request |
| LegacyNeoPixel.Queue.Request | neopixel/interruptor.go:26-31 | registering a request raises the count by one |
| LegacyNeoPixel.Queue.Enqueue | neopixel/interruptor.go:18-24 | `Queue` raises the count by one and leaves it raised while the caller runs |
| LegacyNeoPixel.Queue.IsInterrupted | neopixel/interruptor.go:33-38 | interrupted exactly when the count is non-zero |
| LegacyNeoPixel.Queue.Done | neopixel/interruptor.go:40-49 | finishing withdraws the request: the count drops by one |
| LegacyNeoPixel.OwnRequestInterrupts | neopixel/interruptor.go:18-38 | an animation started through `Queue` is interrupted at its first check, whatever other callers do |
| LegacyNeoPixel.BreatheInterruptedAtOnce | neopixel/neo.go:101-128 | with no quiet check, `Breathe` draws no breath: the dark ring is its only picture |
| LegacyNeoPixel.QueuedBreathe | neopixel/neo.go:101-128 | `Breathe` run behind its own `Queue` request shows only the dark ring, and the queue's count is back where it was |
| LcdText.Spaces | internal/lcd/common.go:53 | n spaces |
| LcdText.LineName | internal/lcd/common.go:12-20 | "L1" exactly for line 1, "L2" exactly for line 2, otherwise "N/A" |
| LcdText.Center | internal/lcd/common.go:48-54 | long messages are cut to 16; shorter ones are preceded by half the free space, rounded down |
| LcdText.CenterEmpty | internal/lcd/common.go:52-53 | an empty message centres to eight spaces |
| LcdText.PadRight | internal/lcd/lcd.go:60 | left-justified in 16 byte columns (padded with spaces); longer messages are kept whole |
| LcdText.LineText | internal/lcd/lcd.go:60-63 | a line shows the message's first 16 bytes, padded with spaces |
| Lcd.Pattern | internal/lcd/lcd.go:45-50 | four data-pin levels per nibble |
| Lcd.WireAppend | internal/lcd/lcd.go:38-42 | the wire activity of consecutive writes concatenates |
| Lcd.LineWrites | internal/lcd/lcd.go:58-64 | a line print is one command and 16 characters |
| Lcd.Characters | internal/lcd/lcd.go:61-63 | one character write per byte |
| Lcd.HighNibble | internal/lcd/lcd.go:40 | the pins of the first pulse carry the high nibble |
| Lcd.LowNibble | internal/lcd/lcd.go:41 | the pins of the second pulse carry the low nibble |
| Lcd.PulseLatches | internal/lcd/lcd.go:44-56 | a clock pulse latches exactly the pins it carries |
| Lcd.ByteRoundTrip | internal/lcd/lcd.go:38-42 | an idle controller receives exactly the byte sent, with its mode, and is idle again |
| Lcd.NibblesRejoin | internal/lcd/lcd.go:40-41 | high and low nibble rejoin to the byte |
| Lcd.WireRoundTrip | internal/lcd/lcd.go:38-56 | the controller receives exactly the bytes written, in order |
| Lcd.CharactersAdvance | internal/lcd/lcd.go:61-63 | each character advances the cursor by one |
| Lcd.CharactersFill | internal/lcd/lcd.go:61-63 | characters are stored from the cursor on |
| Lcd.CharactersKeep | internal/lcd/lcd.go:61-63 | no other cell changes |
| Lcd.CharactersRow | internal/lcd/lcd.go:61-63 | 16 characters make up the row at the cursor |
| Lcd.CharactersKeepRow | internal/lcd/lcd.go:61-63 | rows clear of the written cells are unchanged |
| Lcd.PrintlnSteps | internal/lcd/lcd.go:58-64 | a print moves the cursor to the line, then writes the padded text |
| Lcd.PrintlnShows | internal/lcd/lcd.go:58-64 | after a print, the line shows the message cut or padded to 16 |
| Lcd.PrintlnKeepsOtherRows | internal/lcd/lcd.go:58-64 | rows not overlapping the printed line are unchanged |
| Lcd.TwoLinesShow | internal/lcd/common.go:30-31 | printing line 1 then line 2 leaves both showing |
| Lcd.ResetText | internal/lcd/common.go:56-59 | the banner fills line 1 exactly; a cleared line is 16 spaces |
| Lcd.Display.constructor | internal/lcd/common.go:40-44 | the pins start low, with nothing sent |
| Lcd.Display.SetClock | internal/lcd/lcd.go:52-54 | each clock write records the wire levels |
| Lcd.Display.PulseByte | internal/lcd/lcd.go:44-56 | the data pins carry the nibble's pattern, and the clock is pulsed |
| Lcd.Display.SendByte | internal/lcd/lcd.go:38-42 | the byte is sent with its mode, high nibble first, and the wires still carry exactly the bytes sent |
| Lcd.Display.InitLCD | internal/lcd/lcd.go:30-35 | the six start-up commands, in order |
| Lcd.Display.Println | internal/lcd/lcd.go:58-64 | the line command and 16 padded characters |
| Lcd.Display.Clear | internal/lcd/lcd.go:66-68 | a print of the empty message |
| Lcd.Display.Reset | internal/lcd/common.go:56-59 | the banner on line 1, then line 2 cleared |
| Lcd.Display.ClearAll | internal/lcd/common.go:61-64 | both lines cleared |
| Button.EventText | internal/button/common.go:9-15 | "Button was pressed" exactly for a press, "Button was released" exactly for a release |
| Button.Step | internal/button/button.go:29-46 | a timeout or an unchanged read does nothing; a change is reported only when the second read confirms it, and is then remembered |
| Button.DebounceAlternates | internal/button/button.go:27-47 | events alternate, starting with a change from the initial level; the remembered level matches the last event |
| Button.HandleButton | internal/button/button.go:22-49 | the loop's events and final level are those of the debounce, and they alternate |
| LegacyButton.EventText | button.go:16-25 | "held" overrides "pressed" and "released" |
| LegacyButton.HandleButton | button.go:37-65 | the same debounce, with every event sent with `Held` false |

## Left out

- HTTP requests, JSON and YAML decoding, URL building, logging and sleeps are not modelled. A fetch's outcome and a decoded configuration are inputs.
- The Jenkins client and its certificates, the encrypted-configuration passphrase server and the restart cron are left out: none of them is part of this model.
- Hardware initialisation and panics on start-up failures are not modelled.
- `Render` is modelled as always succeeding. The error returns of `setColor` on a render failure are not modelled.
- Goroutines, channels, tickers and timeouts are not modelled as such. Each blocking `select` becomes one element of a scripted input.
  - Inside the ring controllers, the interruption queue is reduced to a count of checks that answer "not interrupted"; the counters themselves are modelled on their own (`NeoPixel.Interruptor`, `LegacyNeoPixel.Queue`), without their locks.
  - `internal/neopixel/neo.go` declares the ring's field as `queue Queue` and calls `Queue()` on it, while `effects.go` calls `l.interruptor.Interrupt()` and the package declares only `Interruptor`; the model takes `Interruptor` for both.
  - `sync.Once` guards are reduced to flags.
  - Loops that never end are modelled over a finite script. Cancellation therefore does not end them.
- `lcd.Print`, called by the listener and the notifier, is not part of this model. It is recorded only as a call.
- The glitch of each data pin (low, then high) between two clock writes is not recorded: the wire trace samples the pins at clock writes.
- The display controller's start-up semantics are not modelled. The screen model covers only set-address, clear and character writes.
- The Jenkins user, certificate and key fields are not checked by the configuration, and are not modelled.
- The text of configuration errors is replaced by which check failed and for which entry.
- `startServer` in `cmd/big-switch/main.go:160-163` passes an extra argument to `ChangeListener`. Also, `LedNotifier.Alert` takes an author, which the `Notifier` interface does not. The listener is modelled against the interface.
- `LedNotifier.Success` and `Failure` flash `neopixel.ColorGreen` and `ColorRed`; the model records these as calls and does not fix their values. `Reset` calls `lcd.Reset` and `Stop`, also recorded as calls.
- The shutdown sequences (`"  Sleeping..."`, clearing, `Close`) and `readConfig`'s file and passphrase handling are not modelled.
- GithubWatcher.GetHeadCommit: the `GetBranch` error path is not modelled. There the code only logs, then dereferences a nil reply.
- GithubWatcher.Checker.Close: the panic on a nil kill switch is returned as `panicked`; the crash of the calling goroutine that follows is not modelled.
- GithubWatcher.CheckRate: requires a non-zero limit when the reset time has not passed. The code would panic dividing by zero there.
- LcdText.PadRight: counts the width in bytes, where Go's `%-16s` counts runes, so a short message with multi-byte UTF-8 characters gets fewer trailing spaces than in Go; only the first 16 bytes are ever sent (`LcdText.LineText`), and those agree on every input.
- Colour.GetRGB: requires a non-negative angle. Every caller passes a loop step from 0.

## Findings

| source | as written | input that shows it | evidently intended | confidence | as-written member | corrected member |
|---|---|---|---|---|---|---|
| internal/deploy/watcher.go:118-122 | the error of `client.Do` is dropped and the stale `err` is re-checked, so a failed call yields zero artifacts | a warm-up poll of a drifted snapshot, then a failed call, then the same snapshot on every later poll: the drift is never reported | the call's error is returned, so the tick is skipped and the drift is reported on the next poll | not executed | Watcher.SwallowedFetchErrorHidesDrift | Watcher.FetchErrorKeepsDrift |
| neopixel/interruptor.go:18-38 | `Queue()` counts the caller's own request as waiting until `done()`, so `IsInterrupted` answers true to the animation that queued | an idle queue, then `Breathe(c)`: the first check answers interrupted, no breath is drawn and only the dark ring is shown | the caller's request stops counting once it runs, as `running()` does in internal/neopixel/interruptor.go:34-39 | not executed | LegacyNeoPixel.QueuedBreathe | NeoPixel.OwnRequestWithdrawn |
| internal/deploy/ham.go:77-83 | when prod is newer than dev, the log line says the deploy is not offered, but the event is sent anyway | a snapshot whose tags differ and whose prod time is later than its dev time | no event when prod is newer | not executed | HamChecker.ProdNewerStillOffered | HamChecker.IntendedTick |
