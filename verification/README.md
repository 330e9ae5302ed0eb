# Slopty's tooling, proved

A Dafny model of the algorithms and protocols behind Slopty's developer tooling and
fuzz harness, and proofs of what they are for. `dafny verify dfyconfig.toml` checks it all.

| files | what they model |
|---|---|
| `Heap`, `Cover`, `CoverTies`, `CoverBound` | the lazy greedy set cover that minimises a fuzz corpus: it is a run of plain greedy over integer scores, which of them, and how much it costs at most against any other cover |
| `Landing`, `Waiter` | commits on their way from `gate` to main: leased pushes, overlapping runs that stand aside, `promote`, and the loop of `land --wait` |
| `Gitlab`, `Dispatch`, `Guard`, `LogView`, `Yielding` | a job on a shared office Mac: followed to its verdict, given back the moment another project wants the Mac, its log shown as it grows |
| `Calendar`, `Decimal`, `Stamp`, `StampText` | the two calendar conversions and the sortable stamp, in 64-bit machine arithmetic |
| `Processes` | three worklist closures over a process table |
| `Scrub`, `ScrubIds`, `ScrubProperties`, `ScrubPrefixes`, `ScrubPasses` | the scrubber of recorded fixtures: what it takes for an id, a stateful renaming of UUIDs and tokens, each pass by itself and all four together |
| `TerminalScript`, `TerminalForms`, `Transcript`, `Reads`, `Client`, `Minimise` | the fuzz inputs' encoders, the readers they feed, and the minimiser of a failing input |
| `Wrappers`, `Machine`, `Sequences` | results, machine integers, sequence and set facts |

**Form.** What the Rust code does by changing things stays a class or a loop here, proved
against functions and predicates; pure case splits are functions. GitLab, the clock, the
guarded work, libFuzzer and CI are environments that may answer anything, at any time; the
clock is what each look at it reads. `Api` and `Minimise.World` keep counts of what was asked,
and `Api` the whole history of calls, so that a contract can say what was done and in what order.

**Where the code and its comments differ.** The model follows the code.

- The cover's comment promises a factor of ln n. What holds is H(k) · (q + 1) / q, for k the most
  edges one input of the other cover reaches and q = ⌊2^20 / limit⌋, `limit` its heaviest weight
  (size plus 64): the division in the score truncates. That is never more than 2 · H(k), nor, below
  2^20, than H(k) · 2^20 / (2^20 − limit) (`SlackIsSmall`). It takes a limit of at most 2^20: any whole factor of two or more, as far as 64-bit sizes tell, bounds
  greedy if and only if the limit is that (`FactorExactly`), with ties broken freely and as the code
  breaks them: past the limit it is the code's own run that fails (`NoFactorPastTheScale`).
- The same comment says the lower index wins a tie. The re-push test is strict, so a tie can go to
  the higher index (`HigherIndexFirst`), though either order is a finished greedy run
  (`EitherOrder`); `LazyCover` says which is taken. A finished greedy run is the only one, and so the
  code's, if and only if no pick of it had a rival (`OnlyRunExactly`).
- The stamp "sorts as it reads" exactly through the year 9999 (`SortsExactly`).
- `promote`'s own refusal ("not on top of main") cannot happen while each land reads main and
  pushes in one step. The push's lease covers `gate` alone, so main may move in between: then,
  whatever happens to the runs, once all is done and the pushed commit's own run is fine, main took
  it if and only if it was still on top of main when pushed. So it is after any number of late pushes:
  the last one decides (`StaleLandSettles`). One such run of CI, from the look the land passed to the
  commit stranded with all green, is `StaleLandStrands`.
- The guard's process tree may name a process twice (`RepeatedRow`): exactly when the table repeats
  its row under the parent that comes first in the tree (`TreeDistinctExactly`). With one parent
  for each process, that is when a row of a process under the root is repeated.
- The scrubber's output is a fixpoint of a pass for UUIDs below 10^12 of them, and of a pass for a
  prefix if and only if its text had fewer than 10^7 different tokens (`PrefixedFixpointExactly`): past
  that a placeholder is a token itself (`PlaceholderLeftAlone`). The four passes together are no
  fixpoint: a token takes the start of a UUID behind a prefix, and what comes first then has another
  number (`SecondComesFirst`). Below 10^7 different tokens a pass they are one if and only if the
  UUIDs left standing come in the order of their numbers (`TextFixpointExactly`), and what a second
  scrub writes no third one changes (`TwiceIsEnough`).
- `follow` leaves without a cancel when a question gets no answer, the first one already
  (`LeftRunning`, whose log `Follow` then makes): it cancels if and only if it did not see the job end
  and every question got its answer (`CancelDiscipline`).

## Model

| member | source | states |
|---|---|---|
| Heap.RootIsGreatest | xtask/src/fuzz.rs:798-803 | in an ordered heap the first slot is no less than any other, the tie broken by the lower index |
| Heap.MaxHeap.Push | xtask/src/fuzz.rs:813 | the heap stays ordered and holds one more entry |
| Heap.MaxHeap.Pop | xtask/src/fuzz.rs:805 | takes out a greatest entry, and only that one |
| Heap.MaxHeap.Peek | xtask/src/fuzz.rs:812 | shows a greatest entry and changes nothing |
| Cover.GainShrinks | xtask/src/fuzz.rs:781-783 | the more is reached, the less an input adds: why a stale score bounds the current one from above |
| Cover.NoGain | xtask/src/fuzz.rs:807-810 | an input adds nothing exactly when all its edges are reached |
| Cover.LazyPicks | xtask/src/fuzz.rs:812-818 | an entry no stale score beats is, with its fresh score, a pick plain greedy could make |
| Cover.GreedyPicksDistinct | xtask/src/fuzz.rs:804-818 | a greedy run never takes an input twice |
| Cover.CheapestCover | xtask/src/fuzz.rs:784-824 | the lazy loop is a valid run of plain greedy and takes, of several best, the one `LazyCover` says; it ends only when nothing left both adds an edge and fits, keeps within the budget, takes no input twice, and counts the edges reached and of how many |
| CoverTies.EitherOrder | xtask/src/fuzz.rs:790-822 | three inputs on which both orders of two tied ones are finished greedy runs |
| CoverTies.SameScore | xtask/src/fuzz.rs:790-815 | on them the two inputs tie after the first pick, with a score above nothing |
| CoverTies.HigherIndexFirst | xtask/src/fuzz.rs:790-815 | on them the lazy algorithm takes the higher index first |
| CoverTies.TiesAside | xtask/src/fuzz.rs:781-822 | when no pick of one finished greedy run had a rival that plain greedy could have taken instead, every finished one is that run, eager or lazy |
| CoverTies.OnlyRunExactly | xtask/src/fuzz.rs:781-822 | a finished greedy run is the only one if and only if no pick of it had a rival |
| CoverBound.EverythingReached | xtask/src/fuzz.rs:781-824 | when all sizes fit the budget together, an exhausted greedy run reaches every edge |
| CoverBound.PickPrice | xtask/src/fuzz.rs:791-797 | a pick that scores no less than another input pays, per edge, at most the other's price times (q + 1) / q, q what one edge of an input at the limit scores |
| CoverBound.PotentialPays | xtask/src/fuzz.rs:781-824 | a fair price per edge is paid for out of the harmonic potential of any other cover, up to the slack |
| CoverBound.SlackIsSmall | xtask/src/fuzz.rs:791-797 | the slack (q + 1) / q is over one and at most two, and at most 2^20 / (2^20 − limit) |
| CoverBound.ApproximatesTheCheapest | xtask/src/fuzz.rs:781-824 | with no budget in the way, a greedy run costs at most H(k) · (q + 1) / q times any other cover whose inputs reach at most k edges and weigh at most a limit up to 2^20, q = ⌊2^20 / limit⌋ |
| CoverBound.NoFactorPastTheScale | xtask/src/fuzz.rs:791-797 | for every weight past 2^20 and every factor that 64-bit sizes can show, a corpus on which the lazy algorithm's own cover costs more than that factor times one input of that weight |
| CoverBound.FactorExactly | xtask/src/fuzz.rs:781-824 | a whole factor of two or more, times H(k), bounds every finished greedy run against covers of inputs up to a limit if and only if the limit is at most 2^20, and so it does for the runs of the lazy algorithm alone |
| Landing.ReachableKeeps | xtask/src/gate/order.rs:1-19 | every state any steps lead to keeps: main under `gate`'s tip, main forward of its start and at a promoted all-green commit, the last push's run cancelled only by hand |
| Landing.MainUnderGate | xtask/src/land.rs:82-119 | in every reachable state main is an ancestor of `gate`'s tip |
| Landing.MainOnlyForward | xtask/src/gate.rs:2495-2498 | over any steps main only moves to descendants |
| Landing.PromoteFastForwards | xtask/src/gate.rs:2522-2538 | a commit `gate` holds is held by main or a fast-forward of it, so promote is never refused as off main |
| Landing.MainWasChecked | xtask/src/gate.rs:2495-2538 | over any steps main is where it started or at a commit that was landed, planned, passed by every lane and, if its plan reached a case, by its e2e, and then promoted |
| Landing.PassesAgain | xtask/src/gate/order.rs:1-19 | only a run that was cancelled or went red is re-run, and it passes only by another end of its e2e and of the lanes that were red |
| Landing.PushesDifferStill | xtask/src/land.rs:83-119 | no two pushes after each other are of one commit: a land of the commit `gate` is at starts no run |
| Landing.AsideExactly | xtask/src/gate/order.rs:17-19 | a plan that ends, or an e2e that starts, has its run cancelled whole if and only if the run reached a case and read `gate` at another commit, and goes on otherwise |
| Landing.NoE2eStartsBehind | xtask/src/gate/order.rs:6-19 | over any steps, an e2e that ran was started when `gate`, if it could be read, was at its own commit |
| Landing.LatestNeverStandsAside | xtask/src/gate/order.rs:6-19 | the run of the latest push is cancelled by nothing but a hand |
| Landing.GateConverges | xtask/src/gate/order.rs:6-12 | over every interleaving, once nothing more happens and the latest push's run is neither red nor cancelled by hand, main is at `gate`'s tip |
| Landing.GateConvergesExactly | xtask/src/gate/order.rs:6-12 | with no commit pushed twice, main ends at `gate`'s tip if and only if the latest push's run is neither red nor cancelled by hand |
| Landing.EventsRunOut | xtask/src/gate/order.rs:6-12 | without lands and re-runs at most six events per run are left, so every interleaving settles |
| Landing.GreenReachesMain | xtask/src/gate/order.rs:6-12 | from any state, a land that may be made and whose plan, lanes and e2e then pass ends with main at its commit |
| Landing.RetriedReachesMain | xtask/src/gate/order.rs:6-12 | so does one whose e2e fails first, and its lanes too or not, once it is re-run and what failed passes |
| Landing.SettledReruns | xtask/src/gate/order.rs:6-12 | once nothing more happens, exactly the runs that did not promote can be re-run |
| Landing.DecideTells | xtask/src/land.rs:327-342 | which answer is given when, and that it names what was found |
| Landing.EveryCommitHeldOrWithdrawn | xtask/src/land.rs:327-342 | once settled, every commit without a red is said to be held or withdrawn, never to follow or ended |
| Landing.StaleLandKeepsExactly | xtask/src/land.rs:83-119 | from any state late pushes may have left, a push after its look at main gives back what every state of one-step lands keeps exactly when its commit is on top of main |
| Landing.StaleLandSettles | xtask/src/land.rs:83-119 | after any steps and any number of such pushes, whatever else happens but another land, once all is done and the last push's run is fine main is at its commit if and only if that was on top of main when pushed |
| Landing.StaleLandStrands | xtask/src/land.rs:83-119 | a run from a look that a land passes, over steps that move main and leave `gate` as it was, to its push: all runs end green, its commit is off main and `land --wait` says `Ended` |
| JobEnds.SomeJobIsRed | xtask/src/land.rs:286-313 | `red_jobs` lists something exactly when some conclusion is none of "", "success", "skipped" and "cancelled", or is "cancelled" of a job past its timeout |
| JobEnds.RedJobsListed | xtask/src/land.rs:286-313 | it lists each red job once, in the order of the jobs, and says which are past their timeout |
| JobEnds.EndedJobs | xtask/src/e2e.rs:1349-1380 | a red stop is the first red job, given exactly when `land` would list one; a cancelled stop the first cancelled job, given exactly when there is no red one and some conclusion is "cancelled" in time; none exactly when every conclusion is "", "success" or "skipped" |
| Waiter.FollowNeedsPush | xtask/src/land.rs:330-342 | `Follow` names a push later than the one waited on, of another commit, carrying the landed one |
| Waiter.Wait | xtask/src/land.rs:133-181 | the loop follows at most once for each push after its own, and ends with what the last look tells of the run it waits on, or with the error of a run not found or not ended in time |
| Gitlab.OthersShrink | xtask/src/gitlab.rs:231-239 | counting more jobs as the project's own never raises the number of others |
| Gitlab.FullListings | xtask/src/gitlab.rs:231-239 | with both listings in full it is how many of the jobs running or waiting are neither ours nor the project's own |
| Gitlab.NoOthers | xtask/src/gitlab.rs:231-239 | there are none if and only if neither count is past the known jobs in its own listing |
| Gitlab.Api.Wanted | xtask/src/gitlab.rs:509-517 | with its short cut it says what the full count of other projects' jobs says, running and waiting, and fails exactly when a question it needs fails, with that question's error |
| Gitlab.EndedHasVerdict | xtask/src/gitlab.rs:520-548 | a job has ended exactly when it has a verdict, whatever its log |
| Gitlab.VerdictExactly | xtask/src/gitlab.rs:528-549 | for every job and log: passed exactly on "success"; failed exactly on "failed" with no marked line and no reason but the script's; what is said of every other job that ended; nothing of the rest |
| Gitlab.MarkedVerdict | xtask/src/gitlab.rs:531-539 | a failed job's first marked line is its reason, without the colons in front and the white space around it |
| LogView.RenderJoins | xtask/src/gitlab.rs:552-576 | whole lines render piece by piece |
| LogView.UntimedExactly | xtask/src/gitlab.rs:568-580 | a line loses exactly its stamp, and one without a stamp nothing |
| LogView.LogRenders | xtask/src/gitlab.rs:552-576 | of a log as it is written, line by line, stamped or not, exactly the lines are shown |
| LogView.BegunLine | xtask/src/gitlab.rs:534 | its lines are those written, and one that is only begun is one more |
| LogView.Show | xtask/src/gitlab.rs:552-566 | writes the whole lines past what was shown, unstamped, and says how far that is |
| LogView.ShownOnce | xtask/src/gitlab.rs:552-566 | what was shown of a log and what is new in a longer one make the longer one shown |
| LogView.ShowEach | xtask/src/gitlab.rs:552-566 | over any growing log, all that was written is the last look's whole lines rendered once: none twice, split or skipped |
| Dispatch.CancelDiscipline | xtask/src/gitlab.rs:450-505 | a job is cancelled at most once and then last; an exit cancelled it if and only if it did not see the job end and every question got its answer |
| Dispatch.SaidExactly | xtask/src/gitlab.rs:463-478 | passed is said if and only if an answer was that the job succeeded, and failed if and only if one was that its script failed and the log read then has no mark |
| Dispatch.LeftRunning | xtask/src/gitlab.rs:463 | the log of a follow whose first question fails accounts for the job: neither seen ended nor cancelled |
| Dispatch.ContainsExactly | xtask/src/gitlab.rs:473 | the search of the log finds the words wherever they are |
| Dispatch.AskJob | xtask/src/gitlab.rs:463-478 | what one poll learns of the job, that it reads the log exactly when it ended or that is due (the guest not up, none read yet, or 15 seconds since), that an ended job's verdict is said, and that a failed question ends it |
| Dispatch.Hold | xtask/src/gitlab.rs:479-503 | after a job seen going: cancelled when wanted, late, or on a signal, else it pauses and goes on |
| Dispatch.Follow | xtask/src/gitlab.rs:450-505 | however a follow ends its calls account for the job and for what is said, passed and failed exactly when the job did; every poll that went on was one to go on at, a job given up was wanted, by as many jobs as it says, or late, a growing log was written once, and a first question that fails is the whole of it |
| Guard.Watch | xtask/src/gitlab.rs:590-620 | stops the work only when the queue says so, and then reports no status and logs the line last; a status reported is of work it did not stop; no tick passes with a question a poll old that said wanted |
| Guard.GivesBackInTime | xtask/src/gitlab.rs:586-620 | once a foreign job stays, no tick passes later than three seconds after it came, so what follows is within those and a step of the clock |
| Guard.GivesBackByTheTick | xtask/src/gitlab.rs:586-620 | with instant questions and exact pauses, the guard's last look is within 3.1 seconds of the foreign job's coming |
| Yielding.GivenBackIsYielded | xtask/src/gitlab.rs:528-549 | the guard's line, word by word, in a failed job's log, stamped by the runner or not and none before it, makes its reason the verdict whatever else the log holds |
| Calendar.NextDayCounts | xtask/src/latency.rs:39-50 | the next day's count is one more |
| Calendar.CountsDays | xtask/src/latency.rs:39-50 | `epoch`'s arithmetic counts the days of the calendar reached by next-day from 1970-01-01 |
| Calendar.YearRecovered | crates/slopty-proto/build.rs:89-93 | the year of an era is recovered from each of its days, leap days among them |
| Calendar.CivilIsTheCalendar | crates/slopty-proto/build.rs:84-100 | for every day count the date is the one the calendar reaches |
| Calendar.EpochInverts | xtask/src/latency.rs:39-50 | days to date and back is the identity |
| Decimal.PadInjective | crates/slopty-proto/build.rs:102 | zero-padded numbers are equal only when the numbers are |
| Decimal.PadSorts | crates/slopty-proto/build.rs:102 | numbers that fit a width sort as their padded strings |
| Decimal.BeforeExactly | crates/slopty-proto/build.rs:82-102 | the order of strings: the first place where they part, or an end there, decides |
| Stamp.StampIsTheCalendar | crates/slopty-proto/build.rs:84-101 | for any 64-bit time every sum, product and difference on the way, named one by one, fits 64 bits without a sign, and the fields are the calendar's |
| Stamp.EpochIsExact | xtask/src/latency.rs:39-56 | on every valid time whose year is read, before 1970 too, the result is the calendar's seconds if and only if 64 bits hold those |
| Stamp.EpochReadsTheStamp | xtask/src/latency.rs:33-56 | the fields stamped of a time read back as that time, for every 63-bit time |
| Stamp.StampWritesTheEpoch | crates/slopty-proto/build.rs:84-101 | stamping what was read of a valid time gives its fields again |
| StampText.StampsSort | crates/slopty-proto/build.rs:82-102 | through the year 9999: fourteen characters, string order is time order, equal exactly in the same minute |
| StampText.StampSpells | crates/slopty-proto/build.rs:82-102 | the stamp is year, month and day as one number of eight digits or more, T, hour and minute as one of four, Z |
| StampText.TenThousandMisplaced | crates/slopty-proto/build.rs:82-102 | the stamp of the year 10000 sorts before the minute before it |
| StampText.SortsExactly | crates/slopty-proto/build.rs:82-102 | the stamps up to a time sort as time does if and only if its year has at most four digits |
| Processes.GuestTree | xtask/src/gitlab.rs:700-720 | exactly the processes reachable from the root, cyclic tables among them, the root first |
| Processes.TreeDistinctExactly | xtask/src/gitlab.rs:710-718 | on any table, none is named twice if and only if no process's row is repeated under the parent of it that comes first in the tree |
| Processes.OneParentDistinctExactly | xtask/src/gitlab.rs:710-718 | with one parent for each process, that is: no row of a process under the root is repeated |
| Processes.RepeatedElsewhere | xtask/src/gitlab.rs:710-718 | with two parents a row can be repeated under the root and no process named twice |
| Processes.RepeatedRow | xtask/src/gitlab.rs:710-718 | a repeated row names a process twice |
| Processes.ClosedHoldsAll | xtask/src/e2e.rs:1420-1431 | a set with the roots and every child of its members holds all that is reachable |
| Processes.Under | xtask/src/e2e.rs:1413-1432 | exactly the processes reachable from the root but the root itself, each once |
| Processes.TreeAndUnder | xtask/src/gitlab.rs:708-719 | the two closures agree as sets once the root is added |
| Processes.LaunchersListed | xtask/src/e2e.rs:1059-1060 | the roots are the pids of exactly the processes named launchd_sim, in the list's order |
| Processes.SimulatorsProcesses | xtask/src/e2e.rs:1058-1071 | the processes of that name first, then exactly all under one, every one after its parent, none twice when the launchers are not |
| Scrub.Scrubber.Next | xtask/src/fixtures.rs:777-781 | the next number of a kind, staying at the last that 64 bits hold, the others' counts untouched |
| Scrub.Scrubber.Id | xtask/src/fixtures.rs:876-883 | a known id keeps its placeholder, a new one gets the next |
| Scrub.Scrubber.ScrubUuids | xtask/src/fixtures.rs:832-850 | the scan's text and names are those of the recursive renaming |
| Scrub.Scrubber.ScrubPrefixed | xtask/src/fixtures.rs:853-874 | likewise for a prefix's tokens |
| ScrubIds.UuidExactly | xtask/src/fixtures.rs:886-892 | a UUID is exactly the lower-case hexadecimal writing of five numbers below 16^8, 16^4, 16^4, 16^4 and 16^12, joined by dashes |
| ScrubIds.UuidScrubbed | xtask/src/fixtures.rs:832-850 | a fresh pass puts 00000000-0000-4000-8000-000000000001 in the place of any of them, whatever follows it |
| ScrubIds.TokenScrubbed | xtask/src/fixtures.rs:853-874 | eight or more ASCII letters and digits behind a prefix become 01, fewer are left |
| ScrubProperties.ThePrefixes | xtask/src/fixtures.rs:826-828 | the prefixes scanned for have no digit and end in no letter or digit |
| ScrubProperties.PlaceholdersDiffer | xtask/src/fixtures.rs:840 | placeholders of another kind or number are different strings |
| ScrubProperties.PlaceholderIsUuid | xtask/src/fixtures.rs:886-892 | a placeholder has a UUID's shape exactly below 10^12 |
| ScrubProperties.PassesKeep | xtask/src/fixtures.rs:692-892 | a pass changes no name given before, and keeps the names one to one until a count is at its end |
| ScrubProperties.StaysOneToOneExactly | xtask/src/fixtures.rs:777-781 | two more ids of a kind keep the names one to one if and only if two numbers are left for them |
| ScrubProperties.UuidsRename | xtask/src/fixtures.rs:832-850 | one pass renames by the names it ends with: an id is the same everywhere |
| ScrubProperties.UuidsRestored | xtask/src/fixtures.rs:832-850 | renaming back by those names gives the text again |
| ScrubProperties.UuidsEcho | xtask/src/fixtures.rs:832-850 | scrubbing scrubbed texts one after another changes none of them |
| ScrubProperties.UuidsAreAFixpoint | xtask/src/fixtures.rs:832-892 | a fresh scrubber over a fresh scrubber's output returns it, when the texts hold below 10^12 different UUIDs |
| ScrubPrefixes.FoundExactly | xtask/src/fixtures.rs:856 | the search finds the first occurrence |
| ScrubPrefixes.NamesTheTokens | xtask/src/fixtures.rs:853-874 | a scan names exactly its text's tokens that had no name |
| ScrubPrefixes.PrefixedIsIdempotent | xtask/src/fixtures.rs:853-874 | scanning its own output changes nothing and names nothing, below 10^7 tokens, whatever names the second scan starts with |
| ScrubPrefixes.PrefixedFixpointExactly | xtask/src/fixtures.rs:853-874 | a fresh scan of a fresh scan's output changes and names nothing if and only if the text had fewer than 10^7 different tokens |
| ScrubPrefixes.PlaceholderLeftAlone | xtask/src/fixtures.rs:853-874 | scanned alone, a placeholder comes out as it is and nothing is named, exactly below 10^7 |
| ScrubPasses.ScanLeavesNone | xtask/src/fixtures.rs:853-874 | below 10^7 a scan leaves no token of its prefix, and makes none of another that the text had none of |
| ScrubPasses.UuidsLeaveNone | xtask/src/fixtures.rs:832-850 | nor does a pass for UUIDs, however many |
| ScrubPasses.OrderedExactly | xtask/src/fixtures.rs:832-850 | for any text, the UUID pass changes nothing if and only if each UUID met is a placeholder met before or the next |
| ScrubPasses.TextFixpointExactly | xtask/src/fixtures.rs:816-829 | with fewer than 10^7 different tokens in each pass, a fresh scrub of the four passes' output changes nothing if and only if the UUIDs left in it are in the order of their numbers |
| ScrubPasses.TwiceIsEnough | xtask/src/fixtures.rs:816-829 | what a second scrub writes a third leaves as it is, when fewer than 10^12 different UUIDs were left |
| ScrubPasses.SecondComesFirst | xtask/src/fixtures.rs:816-829 | with any two UUIDs, the first of them behind a prefix, the outcome is not a fixpoint |
| TerminalScript.PickSize | fuzz/src/terminal.rs:510-516 | any two bytes are a size from 1 × 1 to 80 × 24 |
| TerminalScript.Run | fuzz/src/terminal.rs:83-170 | the operations read from any input, and a mirror that draws the same screen with every write but its first cut to single bytes |
| TerminalForms.FormsRead | fuzz/src/terminal.rs:95-170 | any operations, each in any of the forms its bytes can take, are read back in order, whatever follows |
| TerminalForms.CutShort | fuzz/src/terminal.rs:97-155 | a write asking for more bytes than are left takes those, and a resize or a page cut short ends the script |
| TerminalScript.Script | fuzz/src/terminal.rs:70-79 | the script of a capture (the same code as xtask/src/fuzz.rs:885-894) |
| TerminalScript.ScriptReads | fuzz/src/terminal.rs:64-79 | reading a capture's script starts at 80 × 24, writes the capture in pieces of 1 to 64 bytes, then exactly joins, checkpoints, resizes to 40 × 12, checkpoints |
| Transcript.Input | fuzz/src/transcript.rs:53-67 | the input of a session's files (the same code as xtask/src/fuzz.rs:899-915) |
| Transcript.LinesOf | fuzz/src/transcript.rs:117-135 | each line under the file named last before it |
| Transcript.UnendedReads | fuzz/src/transcript.rs:117-135 | an input whose last line is not ended reads as if it were |
| Transcript.LinesAreWhole | fuzz/src/transcript.rs:117-135 | every line read is one whole line, ended |
| Transcript.RoundTrip | fuzz/src/transcript.rs:53-135 | an input's lines are each file's own, in order and under its own id, if and only if no line starts with the mark and the ids are non-empty lines |
| Transcript.PlainExactly | fuzz/src/transcript.rs:53-135 | that is, no byte 1 at the start of a text or right behind a newline |
| Reads.Decode | fuzz/src/transcript.rs:148-173 | for every read size: all lines once and in order, reads of one file that stop only when full or at another file's line, each starting where the file's reads before ended |
| Reads.SizeChangesNothing | fuzz/src/transcript.rs:145-173 | whatever the read size, the same text of each file is handed over |
| Client.Copy.Apply | fuzz/src/transcript.rs:183-213 | the copy is what the changes make of it one after another |
| Client.HoldsTheLast | fuzz/src/transcript.rs:183-213 | after any changes the copy holds of each entry and turn what was last said of it, or nothing once removed or reset |
| Client.HoldsInOrder | fuzz/src/transcript.rs:183-233 | from the start, a thread's entries and turns are held in the order they were first put since they were last gone |
| Client.StaysTidy | fuzz/src/transcript.rs:183-213 | no thread ever holds an id twice |
| Minimise.Minimise | xtask/src/fuzz.rs:571-594 | the rounds played, each offer taken exactly when smaller and failing the same way, and one of the four reasons it stopped |
| Minimise.ShrinksSafely | xtask/src/fuzz.rs:566-594 | the result is the input or a strictly smaller one its check found failing the same way; a byte taken off costs at most five questions |
| Minimise.AsksBounded | xtask/src/fuzz.rs:571-594 | at most 5 · len + 5 questions, with no limit on time |

## Left out

- Dispatch.Follow: takes a number of polls after which the model stops looking; the code loops until an answer ends it, and nothing here says that one comes.
- Guard.Watch: likewise takes a number of ticks.
- Dispatch.Hold: the words of a job given up for want of a guest leave out the limit and the command the code names, those of a signal the job's address.
- Dispatch.AskJob: is the first half of one turn of `follow`'s loop, `Dispatch.Hold` the second; the new lines of a log are written between the two, before a verdict is returned. A failed write to the output is not modelled.
- Landing.ReachableKeeps: a land is one step (its fetch, checks and push) and so is a promote; `StaleLand` alone splits a land. Pushes to main by hand are not modelled.
- Landing.EveryCommitHeldOrWithdrawn: takes the look's two fetches as one instant, and a run found red at its end is reported red before anything else.
- Waiter.Wait: a run not found or not ended in time is an error the look brings; how long either may take is not modelled.
- CoverBound.ApproximatesTheCheapest: edge lists without repeats, since the gain counts list entries.
- ScrubProperties.UuidsAreAFixpoint: is about one pass over many texts; `ScrubPasses` is about the four passes over one. E-mail addresses, the literal and opaque replacements before them, and the walk of a record's values are left out.
- ScrubPasses.TextFixpointExactly: says nothing of a text in which one pass meets 10^7 different tokens; by itself that pass is then no fixpoint (`ScrubPrefixes.PrefixedFixpointExactly`).
- LogView.Show: a text is its bytes, so a cut inside a character, which the code refuses, cannot arise; a growing log is never cut there. Trimming in `Gitlab.VerdictOf` knows ASCII white space only.
- Transcript.RoundTrip: a text is its bytes; the lossy decoding of an input that is not UTF-8 is left out.
- Client.HoldsTheLast: entries and turns are an id and a body; the decoder whose changes are applied is in a crate that is not part of this model.
- TerminalScript.Run: the engine, the viewers and the replica are in crates that are not part of this model; the operations they are told are.
- Stamp.EpochIsExact: starts from the parsed fields, not from the text of the time.
- The choice of a Mac and the trigger of its pipeline in `dispatch`, which only pick the first idle runner.
- The answers of git, GitHub and GitLab as JSON, and process tables as text: the model starts from the parsed records.
- The gate's lanes, the checks before a push, polling GitHub for a run and the messages printed.
- Corpus tables and filters (`merge_runs`, `seed_inputs`, `filterset`) and the relations the fuzz targets hold the product's crates to.
