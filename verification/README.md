# Operational scripts of the novel agent: a verified model

The repository's `scripts/` directory holds the tools that run the system beside
its services: they start and stop local servers, fetch models, copy artifacts
between content-addressed stores, walk the commit history, take a census of
recorded evidence, validate formal runs, and repair a canonical project. This
project models the stateful algorithms of those scripts in Dafny and proves what
they keep over every input and every run. `dafny verify dfyconfig.toml` checks
everything.

## What is modelled

- **Lease-guarded processes** (`Processes`, `NativeInfra`, `ModelService`). The
  operating system is a process table that changes between any two steps of a
  script, with the exceptions listed under Assumptions: processes exit, become
  zombies, exec, and PIDs go to new processes. The lease manager is a class whose
  methods interleave with such changes. The model services of the second script,
  which keep a weaker record, are set against it.
- **Resumable downloads** (`Download`). A bounded retry loop over a partial file,
  against an arbitrary server, with crashes before any step and inside any write.
- **Environment files** (`PythonText`, `EnvFile`). Text, lines, trimming and
  joining as Python has them, and a rewriter whose meaning is a map override.
- **Artifact copies** (`Json`, `ReferenceMeaning`, `ReachableCopy`, `CopyOrder`,
  `RefCollector`). A worklist over a store whose edges are references found
  anywhere in JSON, what the order of its roots decides, and a collector of
  references that removes duplicates.
- **Commit ancestry** (`Ancestry`, `AncestryWalks`). Three pointer walks over one
  parent relation and three lookups of the commit with a given chapter count.
- **Evidence census** (`CensusRoot`, `CensusLineage`, `CensusRows`, `Census`,
  `CensusReport`, `CensusMeaning`, `CensusStability`). From the stored artifacts of each object
  root to the counters and the admission decision.
- **Formal-run validation** (`Lifecycle`, `CaseMerge`, `Pigeonhole`). One-sided
  checks whose meaning is a bijection, and the merge of audited results.
- **Canonical backfill** (`Backfill`). Commit, progress, receipt, with a crash
  possible between any two steps.
- **Source fingerprint** (`Fingerprint`, `Ordering`). The byte stream that is
  hashed, as a uniquely decodable code.

Methods mirror the loops and updates of the scripts and are proved against
specification functions and predicates; the lemmas then say what those mean. The
definitions that a method and its specification share, such as what counts as a
reference, a boundary or a source file, are stated once more in raw names and
values by lemmas whose names end in `Means`, `Mean` or `Exactly`.

## What was found

- `stop_model` validates its record once and signals again after a wait of up to
  30 seconds. `ModelService.StopHitsRecorded` says exactly when a signal misses,
  and `NoEntryIsSafe` that no state at entry rules it out. Nothing waits for
  SIGKILL, so the record can be deleted while its process lives, or after it has
  died (`NoEntryWaits`). `stop_service` validates again and waits.
- `down` with cleaning removes the run directory even after a failed stop, and
  with it the leases of exactly the services whose stop failed
  (`NativeInfra.Manager.Down`). A process that lives under a lease which no longer
  validates is always abandoned that way (`NativeInfra.CleanAbandons`).
- A partial file that is too long, or complete with the wrong hash, makes every
  later download fail without a request; any other partial file can still be
  completed (`Download.DownloadRepeatedly`, `Download.Recover`).
- A backfill run completes exactly from a state in which nothing was recorded
  under its key and head and progress name the base (`Backfill.Project.RunOnce`).
  A crash after the commit therefore leaves a project that no further run
  completes (`Backfill.CrashStrands`). The same holds after a recorded conflict or
  rejection.
- The resolver of checkpoint commits leaves its loop without complaint at a
  commit it has visited, so it accepts a cyclic chain (`AncestryWalks.WalkedCycle`).
  The other walks visit what it walked if and only if it stopped at a commit
  without parents (`AncestryWalks.WalkEndsExactly`).
- The identity error in `_copy_ref` is raised exactly for references of a subclass
  of `ArtifactRef`, whose copy comes back as a plain one (`ReachableCopy.CopyRef`).
- Whether `_copy_reachable_artifacts` succeeds can depend on the order of the
  roots, because a reference to an object already copied is passed over unchecked.
  It succeeds in every order if and only if it succeeds from every root alone
  (`CopyOrder.EveryOrderExactly`, `CopyOrder.BadBesideGood`). Successful copies
  agree in everything but the schema versions they return, which no store records
  (`CopyOrder.SameClosure`), and those too in every order exactly where any two
  roots list what both reach alike (`CopyOrder.EveryOrderListsExactly`).
- The rewriter of environment files acts as a map override exactly on well-formed
  updates (`EnvFile.UpdateIsOverride`).
- The lifecycle validator does not check that freeze ids are distinct. The domain
  model does when a scenario is parsed (`src/novel_agent/domain/stage2.py:1867-1977`),
  and the correspondence rests on that (`Lifecycle.Parses`).
- In the census the counter of same-problem safe actions never decides
  (`CensusMeaning.FourthCounterImplied`), and the filter on validated rows drops
  nothing (`CensusLineage.RowsValidated`).

## Assumptions

- A new process starts later than everything seen before. The PID of a child that
  was not collected is not reused. A leased process does not exec another program.
- Between the comparison of a start time and the signal that follows it the PID
  does not change hands; without this no check of a PID can be safe. The
  assumption is the parameter `window` of `ReadAndValidateLease`. In `stop_model`
  the check of the record and SIGTERM, and the check of the PID and SIGKILL, are
  one step each.
- `pg_ctl stop` on the leased data directory addresses the leased process. It is
  one request, like a signal. When it succeeds, the server is gone. The PID that
  PostgreSQL wrote to its PID file, which is not a child of the script, is not
  reused while its lease is written.
- Deadlines and probes are nondeterministic choices. `calm` states that no leased
  process dies that was not asked to, `smooth` that setup succeeds, ports are
  free, processes are granted and probes answer.
- The references given to `_copy_reachable_artifacts` are plain `ArtifactRef`
  values, as its callers pass and as parsing embedded references yields.
- SHA-256 is an arbitrary function. Collision-freedom is an explicit hypothesis
  where it is used.
- The line separator is a line feed, text is code points, and UTF-8 preserves
  their order. Python's `str` of a JSON value is a parameter of the census.
- Files are replaced atomically by a rename; writes to temporary files may tear.
- One backfill runs at a time; other writers may move the project head, but not
  back to the base of the backfill.

## Model

| member | source | states |
|---|---|---|
| NativeInfra.Manager.Run | scripts/native_infra.py:512-1046 | Over any sequence of `up`, `down`, single starts and stops, in any environment: every stop request ever sent went to a process incarnation (PID and start time) that this profile had leased, and whatever was ever leased is still leased, dead, or was abandoned by overwriting or removing its lease; stopping abandons nobody |
| NativeInfra.Manager.StopService | scripts/native_infra.py:949-979 | In every interleaving with exits and PID reuse, the requests go to the leased incarnation only, SIGTERM before SIGKILL. A lease that validates and whose holder cannot die is always acted on; what still validates at the end was sent everything; a stop that succeeds has sent SIGKILL exactly if the process outlived the first wait. The lease is removed only when that incarnation is dead; no other lease changes; a failed stop leaves the lease |
| NativeInfra.Manager.SignalHolder | scripts/native_infra.py:953-978 | A holder that validates and cannot die is sent a request; SIGKILL follows exactly if it outlives the first wait; what still validates at the end was sent both; done means the holder is dead, for PostgreSQL by the assumption about its stop command |
| NativeInfra.Manager.KillHolder | scripts/native_infra.py:974-978 | After the first wait SIGKILL is sent if the lease still validates; done means it was sent and the holder is dead |
| NativeInfra.Manager.AimedDelivery | scripts/native_infra.py:953-957 | Validate then signal: a lease that validates and whose holder cannot die is signalled, a failure means it does not validate any more, and a signal reaches the incarnation in the lease |
| NativeInfra.Manager.Deliver | scripts/native_infra.py:956-977 | The signal goes to whatever process holds the PID, which is the leased one if the caller validated it; it is not sent only if the lease does not validate any more |
| NativeInfra.Manager.PollUntilDead | scripts/native_infra.py:972-978 | The wait signals nobody and changes no lease, whatever happens outside meanwhile |
| NativeInfra.Manager.Env | scripts/native_infra.py:949-979 | What the environment may do between two steps: exits, zombies, and PIDs handed to processes that start later; leases and signals are ours alone |
| NativeInfra.Manager.ReadAndValidateLease | scripts/native_infra.py:910-937 | Success means the lease was valid at one moment of the call; under the window assumption no one else holds the PID afterwards; failure means it was invalid or its holder may die |
| NativeInfra.Manager.ValidMeans | scripts/native_infra.py:910-937 | A lease validates exactly if its PID runs, started when it says, for this user, from an unchanged executable, with the service's ports and with a command line that names the data directory, the configuration, or contains the word opensearch |
| NativeInfra.ContainsExactly | scripts/native_infra.py:931 | A text contains a word exactly if the word stands somewhere in it |
| NativeInfra.Manager.LeaseIsRunning | scripts/native_infra.py:939-947 | Answers no only for a lease that is missing, invalid, or whose holder was free to die; an error of the operating system may pass through |
| NativeInfra.Manager.ValidityAcross | scripts/native_infra.py:910-937 | Whatever the environment does, an invalid lease never becomes valid, and a valid one stays valid exactly as long as its holder lives |
| NativeInfra.Manager.HolderAcross | scripts/native_infra.py:910-937 | The holder of a lease keeps its identity or dies; a PID handed on never looks like the holder |
| Processes.DeadStaysDead | scripts/native_infra.py:139-152 | An incarnation that is dead never lives again, whatever its PID is used for |
| Processes.EnvStepChain | scripts/native_infra.py:966-978 | Two stretches of outside activity are one: the steps between any two actions of a script compose |
| Processes.EnvironmentIsFree | scripts/native_infra.py:139-152 | The environment really is free: any unprotected process may exit, become a zombie or exec, and its PID may go to a new process |
| NativeInfra.Manager.WriteLease | scripts/native_infra.py:878-908 | A lease that is written names the given PID, the start time of the process that holds it, this user, the digest of the executable, and the service's directory, configuration and ports; it fails, other than for OpenSearch, only if the process died; nobody is abandoned but the holder of the lease it replaces |
| NativeInfra.Manager.InstallLease | scripts/native_infra.py:905-908 | Overwriting an existing lease abandons its holder unless that is dead |
| NativeInfra.Manager.Unlink | scripts/native_infra.py:979 | Removing the lease of a dead holder keeps the invariant and every other lease |
| NativeInfra.Manager.StartService | scripts/native_infra.py:530-544 | Signals nobody, touches only its own lease, and abandons at most the holder of that lease; on success the service keeps a lease that was found valid, or has one that names a process younger than the call. Where the system grants what is asked of it, a service without a lease is always given a process, and a start fails only on a process that dies, a slow OpenSearch, or a stale lease whose process vanishes |
| NativeInfra.Manager.Launch | scripts/native_infra.py:534-544 | The start of a service that does not run creates a process and its lease, or fails because the process died or OpenSearch was not ready |
| NativeInfra.Manager.HealthService | scripts/native_infra.py:990-1006 | Success means the service is leased, and valid if its holder cannot die; where probes answer, failure means the lease does not validate |
| NativeInfra.Manager.Health | scripts/native_infra.py:1008-1021 | Success means that every service is leased, and valid if its holder cannot die |
| NativeInfra.Manager.Spawn | scripts/native_infra.py:530-544 | A new child is an incarnation newer than everything seen so far, and it is recorded; where processes are granted there always is one |
| NativeInfra.Manager.StartOne | scripts/native_infra.py:516-522 | One round of the start loop keeps what `up` has guaranteed so far and extends the list of started services only after a complete start |
| NativeInfra.Manager.BeginOne | scripts/native_infra.py:519-522 | The start of a service found not running: one event for the begin, one more if it completed, and only that service is touched |
| NativeInfra.Manager.StartAll | scripts/native_infra.py:514-522 | The started list is exactly the completed starts, in the fixed order of services, and a failure leaves at most one start in progress; if everything ran already nothing is started; with no leases, everything is started or a start is pending |
| NativeInfra.Manager.StartNext | scripts/native_infra.py:516-522 | One round of the loop: the service is leased afterwards, or the loop gives up with at most this start pending |
| NativeInfra.Manager.FoundInvalid | scripts/native_infra.py:517-522 | A lease found invalid during `up` was invalid at entry or its holder was free to die: a service that ran at entry and could not die is not started again |
| NativeInfra.RoundsBreak | scripts/native_infra.py:514-528 | After a broken start the record of events shows the completed starts and exactly one pending one |
| NativeInfra.Manager.RollBack | scripts/native_infra.py:524-528 | Each completed start is stopped once, newest first, whatever the earlier stops came to; each was sent a request or does not validate; the signals go to processes newer than the call |
| NativeInfra.Manager.StopAndGoOn | scripts/native_infra.py:525-527 | One suppressed stop of the rollback: its error is dropped, the service is dealt with, and its signals go to the new process only |
| NativeInfra.Manager.StopDealt | scripts/native_infra.py:949-979 | A stop whose error is not raised further: the holder was sent a request, or the lease is still there and does not validate |
| NativeInfra.Manager.Undo | scripts/native_infra.py:523-528 | The failing half of `up`: what it leaves running, whom it asked to stop, and what the journal says |
| NativeInfra.Manager.TryUp | scripts/native_infra.py:514-523 | Everything started is recorded; nothing running at entry was signalled or touched |
| NativeInfra.Manager.Up | scripts/native_infra.py:512-528 | Only processes that this call started are ever signalled; a failing call tries to stop exactly the services it fully started, in reverse order; afterwards nothing runs that did not run before, except the start in progress and services whose stop failed; without outside deaths everything that ran at entry still runs under the same lease, success means all services are leased and valid, save a process that an earlier call asked to stop; whoever is abandoned held a lease that did not validate at entry, or could die; a service that the failing call started and that still validates was asked to stop; starts are in the fixed order. Where the system grants what is asked, a fleet that runs is left alone with success, and from no leases everything is started or a start is pending |
| NativeInfra.Manager.UpKeeps | scripts/native_infra.py:512-528 | What ran at entry, was not touched and not signalled, still runs at the end |
| NativeInfra.Manager.UpAddsNothingElse | scripts/native_infra.py:512-528 | What runs at the end and was not touched ran at entry |
| NativeInfra.Manager.StopAll | scripts/native_infra.py:1033-1039 | Every service is tried in reverse order and dealt with, each lease is gone exactly where its stop succeeded, and who was spared at the start still lives |
| NativeInfra.Manager.StopNext | scripts/native_infra.py:1034-1039 | One round of the loop of `down` deals with its service and leaves the others as they were |
| NativeInfra.Manager.StopAndRecord | scripts/native_infra.py:1035-1039 | One stop of `down`, whose error is noted and does not end the loop; it deals with its service, fails on a lease that does not validate, and makes no lease valid |
| NativeInfra.Manager.Down | scripts/native_infra.py:1033-1046 | Every service is tried whatever the others come to; cleaning drops exactly the leases of failed stops that it manages to remove, and exactly their holders are abandoned; the others keep their leases; a lease that does not validate always fails its stop, and every other holder was sent a request or its lease stopped validating; the order is OTel, MinIO, OpenSearch, PostgreSQL; success means that no stop failed and cleaning, if asked for, was allowed and complete |
| NativeInfra.CleanAbandons | scripts/native_infra.py:1033-1044 | Cleaning abandons every process that lives under a lease which no longer validates, and unless it dies by itself or a valid lease names it, too, it lives on |
| NativeInfra.AbandonedAlive | scripts/native_infra.py:921-924 | A state and a run in which a live holder is abandoned: its executable was replaced |
| NativeInfra.Manager.DropLeases | scripts/native_infra.py:1040-1044 | Removing the run directory, or a part of it, removes the leases in it; their holders are abandoned |
| ModelService.StopHitsRecorded | scripts/native_models.py:416-423 | A signal of `stop_model` misses if and only if the recorded process died during the wait and its PID went to another live process of the same user |
| ModelService.NoEntryIsSafe | scripts/native_models.py:407-423 | From every state in which the record matches a live process, and from no other, the environment can make the call signal another process |
| ModelService.StopLeavesAlive | scripts/native_models.py:416-424 | SIGKILL goes to the recorded process exactly if that lives after the wait; if it still lives when its record is deleted, it was sent SIGKILL |
| ModelService.NoEntryWaits | scripts/native_models.py:416-424 | From every state in which the record matches a live process, and from no other, a call that sends it SIGKILL can delete the record while it lives, and after it has died |
| ModelService.Service.StopModel | scripts/native_models.py:407-424 | It signals exactly if the record matches at entry, and then as one such pass, which fails exactly if after the wait somebody else's process has the PID; if the process lives at the end it was sent SIGKILL; a record that does not match is removed exactly if nothing ran under its PID when that was looked at, and then its process is dead |
| ModelService.Service.StartModel | scripts/native_models.py:340-404 | An existing record is never overwritten: the call succeeds exactly if a live process of ours has the PID, the start time and the recorded command line, which is the expected one; without a record, and where the system grants what is asked, a process is started and recorded |
| Download.Target.DownloadFile | scripts/native_models.py:256-298 | For every server at most 20 requests, and the destination only ever becomes bytes of the locked size and hash; against an honest server the partial file stays a prefix of the truth through errors and torn writes; with responses of at least c bytes and 20c at least what is missing, it completes in at most ceil(missing/c) requests; a call that ends with a wrong digest or too long a file leaves the partial file stuck, and a stuck one is never repaired |
| Download.Target.Fill | scripts/native_models.py:263-295 | The retry loop ends normally only at exactly the locked size |
| Download.Target.Request | scripts/native_models.py:264-291 | One request extends a prefix of the truth to a prefix of the truth; it is refused exactly when a resumed request is answered with a status other than 200 and 206; otherwise the body is appended to the partial file for a resumed 206 and replaces it for anything else; no progress is reported exactly for an empty body |
| Download.Target.WriteBody | scripts/native_models.py:278-285 | What a response adds is a prefix of its body, all of it unless there was an error or crash; it appends only to an accepted 206 and otherwise starts over |
| Download.BodySplit | scripts/native_models.py:281-285 | The body read up to any chunk is a prefix of the whole, chunk boundaries do not matter |
| Download.BodyStops | scripts/native_models.py:281-285 | The body ends at the first empty chunk, whatever follows |
| Download.DownloadRepeatedly | scripts/native_models.py:256-298 | Over any number of calls, each possibly crashing: prefix invariant, destination old or verified, and a stuck partial file makes every later call change nothing and request nothing |
| Download.Recover | scripts/native_models.py:256-298 | Against a server that sends a file of the locked size and hash whole, a call completes if and only if the partial file is not stuck, whatever else it holds |
| Download.BecomesStuck | scripts/native_models.py:264-296 | A run that ends stuck: an honest server breaks off, the next one serves changed content of the same size |
| Download.VerifyModel | scripts/native_models.py:312-321 | True exactly when every file is present with the locked size and hash |
| Download.BootstrapModel | scripts/native_models.py:232-253 | Done only when every file of the model is in place and verified; files present at the start are never requested, repaired or replaced, and one wrong file among them makes every run fail; at most 20 requests per file; without a crash it is done if every file is in place or can be fetched |
| EnvFile.UpdateIsOverride | scripts/native_infra.py:215-243 | For every file, parsing the rewritten text gives the parsed original overridden by the updates if and only if the updates are well formed: trimmed single-line names without `=` and not starting with `#`, trimmed single-line values |
| EnvFile.UpdateIdempotent | scripts/native_infra.py:228-243 | A well-formed rewrite run twice writes the same text as once |
| EnvFile.UpdateKeepsOtherLines | scripts/native_infra.py:228-243 | Lines that name no updated key survive unchanged and in order, up to white space at the end of the file |
| EnvFile.UpdatedLines | scripts/native_infra.py:240-242 | Reading back the rewritten file gives exactly the new lines, trimmed at the end |
| EnvFile.KeyAgrees | scripts/native_infra.py:220-224 | The parser, which trims the line first, and the rewriter, which does not, see the same name on every line |
| EnvFile.EntryWellFormed | scripts/native_infra.py:219-224 | Every entry the parser produces has a well-formed name and value, whatever the line |
| EnvFile.AssignmentEntry | scripts/native_infra.py:235-239 | A written assignment is read back as exactly that entry |
| PythonText.SpacesMean | scripts/native_infra.py:220-224 | The characters that trimming removes, by code point |
| PythonText.BreaksMean | scripts/native_infra.py:218 | The characters that end a line, by code point |
| PythonText.SplitLinesMean | scripts/native_infra.py:218 | A line ends at its first line break and the rest is split likewise; a last line without one counts unless it is empty |
| PythonText.UniversalNewlinesMean | scripts/native_infra.py:218 | Reading turns CR LF and a lone CR into a line feed and changes nothing else |
| EnvFile.RewrittenLine | scripts/native_infra.py:232-238 | What rewriting does to one line, as the parser sees it |
| EnvFile.RewriteLinesParse | scripts/native_infra.py:231-238 | What rewriting all lines does to the parsed values |
| EnvFile.NewLinesParse | scripts/native_infra.py:231-240 | The lines that are joined parse to the original overridden by the updates |
| EnvFile.TrimTailParse | scripts/native_infra.py:241 | Dropping the white space at the end of the file changes no entry |
| EnvFile.SettledRStrip | scripts/native_infra.py:232-241 | Trimming a line that already says what the updates say leaves it saying so |
| EnvFile.AppendMissing | scripts/native_infra.py:239-240 | The appended assignments are exactly those of the updated names that were not seen, in sorted order, once each |
| EnvFile.File.ParseEnv | scripts/native_infra.py:215-225 | The values are the entries of the lines, the last one winning |
| EnvFile.File.UpdateEnvFile | scripts/native_infra.py:228-243 | The file afterwards is the text whose properties the lemmas state, the sorted order included |
| PythonText.RStripJoin | scripts/native_infra.py:241 | Trimming the joined text is joining the trimmed lines |
| PythonText.SplitJoin | scripts/native_infra.py:218-241 | `splitlines` gives back the lines that were joined and ended with a line feed |
| PythonText.StripSplits | scripts/native_infra.py:220-224 | Stripping removes blank padding on both sides and nothing else |
| Ordering.SortedListingUnique | scripts/native_infra.py:239 | A set has one sorted listing: the order in which it was enumerated does not show |
| Ordering.SortSet | scripts/native_infra.py:239 | Sorting returns that listing |
| Ordering.LexMeans | scripts/native_infra.py:239 | One sequence comes before another exactly if it is a proper beginning of it or has the smaller item where they first differ |
| Ordering.StringLessMeans | scripts/native_infra.py:239 | Strings are sorted by the code points where they first differ |
| ReachableCopy.CopyReachable | scripts/run_u4l2_plan_candidate.py:194-213 | It copies the references that are the first met with their ids, in the order of the worklist, up to the first bad one (unreadable, or clashing at the destination), and fails exactly when there is a bad one among them; on success the copied ids are exactly those reachable from the roots through references embedded at any depth, each copied once, and everything else at the destination is as it was; it terminates on cyclic stores |
| ReachableCopy.CopyOne | scripts/run_u4l2_plan_candidate.py:202-212 | One object is copied and its references read exactly when its reference is not bad; otherwise nothing changes |
| ReachableCopy.FirstMetExactly | scripts/run_u4l2_plan_candidate.py:200-212 | The references first met have distinct ids, which are exactly the reachable ones |
| CopyOrder.TopFirst | scripts/run_u4l2_plan_candidate.py:200-212 | The worklist is a stack: from two lists, everything the later one leads to is met before anything only the earlier one leads to |
| CopyOrder.ClosedHidesItself | scripts/run_u4l2_plan_candidate.py:200-212 | A set of ids closed under references, once copied, hides exactly itself from what is met afterwards |
| CopyOrder.LastThenOthers | scripts/run_u4l2_plan_candidate.py:199-212 | A copy comes to what its last root alone leads to, and then, under other ids, to what the other roots lead to |
| CopyOrder.EveryOrderExactly | scripts/run_u4l2_plan_candidate.py:194-213 | The copy succeeds in every order of its roots if and only if it succeeds from every root alone |
| CopyOrder.OrderDecidesExactly | scripts/run_u4l2_plan_candidate.py:194-213 | The order of the roots decides if and only if some root fails alone while some order of them all succeeds |
| CopyOrder.BadBesideGood | scripts/run_u4l2_plan_candidate.py:199-205 | It decides between two references to one object of which one is bad: listed before the good one it is passed over, listed after it the copy ends |
| CopyOrder.BadBesideGoodExample | scripts/run_u4l2_plan_candidate.py:199-205 | A concrete store and two such references |
| CopyOrder.BadRootEnds | scripts/run_u4l2_plan_candidate.py:199-205 | A bad root that is listed last always ends the copy |
| CopyOrder.AgreementDecides | scripts/run_u4l2_plan_candidate.py:194-213 | If references to one object agree in media type and length, the copy succeeds if and only if no reference it may come to is bad |
| CopyOrder.AgreementSuffices | scripts/run_u4l2_plan_candidate.py:199-205 | That agreement is enough for success not to depend on the order of the roots |
| CopyOrder.SameClosure | scripts/run_u4l2_plan_candidate.py:194-213 | Two successful copies from roots with equal ids copy the same objects and leave equal destinations; their references differ at most in the schema version, and are equal if and only if these are |
| CopyOrder.EveryOrderListsExactly | scripts/run_u4l2_plan_candidate.py:194-213 | The returned references are the same in every order of the roots if and only if any two roots list every id that both reach under one reference |
| CopyOrder.LastRootListed | scripts/run_u4l2_plan_candidate.py:199-205 | The last root is always the reference returned for its object |
| ReachableCopy.CopyRef | scripts/run_u4l2_plan_candidate.py:141-146 | Succeeds exactly on readable references without a clash at the destination that are plain artifact references; the identity error is raised exactly for readable, unclashing references of a subclass, after the bytes were copied |
| ReachableCopy.CopyResumeCheckpoint | scripts/run_u4l2_plan_candidate.py:149-177 | The checkpoint is written only to a destination that already holds everything it leads to; it succeeds exactly when the checkpoint parses, the copy succeeds and its own bytes do not clash |
| ReachableCopy.CopyReadable | scripts/run_u4l2_plan_candidate.py:194-213 | A consistent destination stays consistent, and each copied reference can be read there afterwards |
| ReachableCopy.CopySameBytes | scripts/run_u4l2_plan_candidate.py:194-213 | With collision-free hashing the bytes are the same at both ends |
| ReachableCopy.ClosedHoldsReachable | scripts/run_u4l2_plan_candidate.py:200-212 | Any set that holds the roots and is closed under references holds everything reachable |
| ReachableCopy.Repository.ReadVerified | src/novel_agent/services/artifacts.py:70-84 | Returns the stored bytes exactly when size, media type and hash agree with the reference |
| ReachableCopy.Repository.Put | src/novel_agent/services/artifacts.py:33-43 | Never replaces an object; returns the reference of the bytes or refuses other metadata under the same hash |
| Json.EmbeddedExactly | scripts/run_u4l2_plan_candidate.py:180-191 | The collected references are exactly those that some node of the document, at whatever depth, spells out |
| ReferenceMeaning.EmbeddedMeans | scripts/run_u4l2_plan_candidate.py:180-191 | Collected are exactly the well-formed references that some object in the document, at whatever depth, spells out with the four fields artifact_id, media_type, byte_length and schema_version in any order and no others |
| ReferenceMeaning.ParseRefMeans | scripts/run_u4l2_plan_candidate.py:183-185 | An object parses as a reference exactly if its fields are those four and the reference is well formed |
| ReferenceMeaning.WellFormedMeans | scripts/run_u4l2_plan_candidate.py:183-185 | Well formed: sha256 and 64 lower-case hexadecimal digits, a media type of 1 to 255 characters, three numbers with dots |
| ReferenceMeaning.GetExactly | scripts/run_u4l2_plan_candidate.py:180-191 | A value is found under a name exactly if it stands under its first occurrence |
| RefCollector.ArtifactRefs | scripts/audit_u8c_incident_manifest.py:90-110 | Succeeds exactly when the ids of the outermost reference-shaped nodes are well formed and equal ids have equal media types; returns the first reference of each distinct id in visiting order |
| RefCollector.Collector.Visit | scripts/audit_u8c_incident_manifest.py:93-107 | A visit fails exactly when what was seen so far and the outermost nodes of this value do not fit together; otherwise the dictionary summarises both |
| RefCollector.Collector.Keep | scripts/audit_u8c_incident_manifest.py:94-103 | One reference-shaped node: refused exactly when its id is malformed or was seen with another media type; otherwise only the first of an id is kept |
| RefCollector.Collector.VisitFields | scripts/audit_u8c_incident_manifest.py:104-106 | The values of an object are visited in order, with the effect of visiting them all |
| RefCollector.Collector.VisitItems | scripts/audit_u8c_incident_manifest.py:107-109 | The items of a list are visited in order, with the effect of visiting them all |
| RefCollector.FirstsSpec | scripts/audit_u8c_incident_manifest.py:101-110 | One reference per distinct id, each the first with that id, in visiting order |
| ReferenceMeaning.OutermostExactly | scripts/audit_u8c_incident_manifest.py:93-110 | The references considered are exactly those of the nodes reached without passing through another reference |
| ReferenceMeaning.ShapeMeans | scripts/audit_u8c_incident_manifest.py:72-87 | A node is a reference exactly if it has a string id and a string media type; byte length and schema version are taken along unless absent or null |
| AncestryWalks.LoadHistoricalTextRoots | scripts/run_evidence_audit.py:103-132 | Terminates on every finite store and succeeds exactly on linear histories whose commits belong to the project, can be read, and give no root hash two texts; then the dictionary is that of the whole history |
| AncestryWalks.BuildAncestry | scripts/rescore_stage2m_frozen_checkpoints.py:117-152 | Terminates, refuses cycles and several parents, and otherwise gives one entry per ancestor in parent order |
| AncestryWalks.ResolveCheckpoints | scripts/resolve_stage2_checkpoint_commits.py:42-64 | Succeeds exactly when the walk ends and each requested chapter count belongs to exactly one walked commit, and then returns that binding: the walked commit with that many chapters is the one returned, and no other |
| AncestryWalks.WalkedIsHistory | scripts/resolve_stage2_checkpoint_commits.py:42-58 | On a linear history the resolver walks exactly the commits the other walks visit, in the same order |
| AncestryWalks.WalkEndsExactly | scripts/resolve_stage2_checkpoint_commits.py:42-58 | For every commit the resolver walks, the other two walks have a history to visit if and only if the walk ends at a commit without parents |
| AncestryWalks.GatheredStep | scripts/run_evidence_audit.py:113-131 | One more commit either extends the collected texts or rules out every auditable history |
| AncestryWalks.WalkedCycle | scripts/resolve_stage2_checkpoint_commits.py:42-58 | A cyclic chain that the resolver walks without complaint while it has no history |
| AncestryWalks.CheckpointCommits | scripts/run_stage2_retrieval_gate.py:159-181 | Each chapter count is bound to the last listed commit that has it; missing counts are refused |
| AncestryWalks.CommitAtCheckpoint | scripts/diagnose_stage2_retrieval_case.py:280-298 | Returns the first listed commit with that many chapters; later ones are not loaded; with a readable listing it fails exactly if there is none |
| AncestryWalks.LookupsAgreeExactly | scripts/resolve_stage2_checkpoint_commits.py:49-64 | When the listing holds the walked commits in any order, the first-wins and last-wins lookups agree on every requested count if and only if the resolver's uniqueness condition holds |
| AncestryWalks.ThreeLookupsAgree | scripts/resolve_stage2_checkpoint_commits.py:49-64 | Where the resolver succeeds, all three lookups return the same commit for every requested count, whatever the listing order |
| Ancestry.HistoryIsAncestry | scripts/run_evidence_audit.py:111-131 | A linear history holds exactly the ancestors of its start |
| Ancestry.HistoryDistinct | scripts/run_evidence_audit.py:111-131 | A history that ends repeats no commit |
| Ancestry.HistoryUnique | scripts/run_evidence_audit.py:111-131 | A commit has at most one history |
| Ancestry.NoHistory | scripts/run_evidence_audit.py:113-131 | Where a walk gets stuck there is no history: refusing is never a mistake |
| Ancestry.TrailBegins | scripts/run_evidence_audit.py:113-131 | What a walk has visited so far is the beginning of the history, if there is one |
| AncestryWalks.NotAuditable | scripts/run_evidence_audit.py:113-131 | Nothing that contains an offending beginning is an auditable history |
| AncestryWalks.UniqueMeansAgree | scripts/run_stage2_retrieval_gate.py:173-181 | In any listing the first and the last commit of a count coincide exactly when only one has it |
| CensusReport.BuildCorpusReport | scripts/audit_u8c_action_corpus.py:277-594 | Fails exactly when there is no root or some root is not auditable; otherwise the counters, groups and decision are those of the rows of all roots |
| CensusMeaning.DecisionIsPairwise | scripts/audit_u8c_action_corpus.py:460-587 | The trigger is shown exactly when two candidates of one boundary have the same finding and different actions, or the same problem and different actions, or different owners while the whole boundary has one facet set |
| CensusMeaning.GroupShows | scripts/audit_u8c_action_corpus.py:472-526 | A group triggers the decision exactly when two of its rows are evidence for it |
| CensusMeaning.SizesCount | scripts/audit_u8c_action_corpus.py:527-545 | The sizes of any groups add up to the number of rows in their boundaries |
| CensusMeaning.FourthCounterImplied | scripts/audit_u8c_action_corpus.py:494-524 | The same-problem safe-action counter never exceeds the same-problem counter, so it never decides |
| CensusMeaning.VariantCounters | scripts/audit_u8c_action_corpus.py:463-526 | The semantic, safe-action and owner variance counters are the numbers of boundaries with two candidates of different action, two safe ones of different action, and two of different owner |
| CensusMeaning.SameCounters | scripts/audit_u8c_action_corpus.py:475-524 | The same-finding and same-problem counters are the numbers of boundaries with two such candidates of different action |
| CensusMeaning.FacetCounters | scripts/audit_u8c_action_corpus.py:472-526 | Discriminated are the boundaries with two owners and two facet sets, ambiguous those with two owners and one facet set |
| CensusRows.BoundaryMeans | scripts/audit_u8c_action_corpus.py:249-267 | Two findings have one boundary exactly when classification, scope, visible chapter, the three parts of the policy and the target are the same and every source id is listed equally often |
| CensusRows.OneGroupExactly | scripts/audit_u8c_action_corpus.py:417-461 | Two candidates are in one group exactly when their findings agree in all of that |
| CensusRows.IsKeyMeans | scripts/audit_u8c_action_corpus.py:249-267 | A boundary can be a key exactly when none of those values is a list or an object |
| CensusRows.SameMeans | scripts/audit_u8c_action_corpus.py:249-267 | Values are the same as keys when they are equal, or numbers or truth values of one magnitude |
| CensusRows.ProblemMeans | scripts/audit_u8c_action_corpus.py:229-246 | A finding has a problem identity exactly when need, query and question are non-empty texts and it has a facet; identities are equal exactly when all four agree |
| CensusRows.FacetsMean | scripts/audit_u8c_action_corpus.py:222-226 | The facet suffixes are exactly those of the text entries of the facet list |
| CensusRows.ActionMeans | scripts/audit_u8c_action_corpus.py:185-219 | Two candidates propose one action exactly when their operations agree, in order, in the five compared values, and every root kind is intended equally often |
| CensusRows.RowReads | scripts/audit_u8c_action_corpus.py:412-434 | What each column of a row reads from the documents in the candidate's lineage |
| CensusMeaning.Conservation | scripts/audit_u8c_action_corpus.py:334-438 | Accepted plus safe candidates, validator passes and the sum of the group sizes are each the number of candidates that the roots select |
| CensusMeaning.RowsConserved | scripts/audit_u8c_action_corpus.py:472-526 | Every row is counted once as accepted or safe and is in exactly one group; owner variance splits exactly into facet-discriminated and undiscriminated groups |
| CensusMeaning.RowsPerCandidate | scripts/audit_u8c_action_corpus.py:324-334 | There is exactly one row for each candidate that a root selects |
| CensusMeaning.DecisionIsOneGroup | scripts/audit_u8c_action_corpus.py:576-587 | The decision depends on one group showing an ambiguity, a same-finding or a same-problem variant, not on the fourth counter |
| CensusStability.RootOrderIrrelevant | scripts/audit_u8c_action_corpus.py:277-594 | Permuting the roots leaves the whole report as it was |
| CensusStability.RefusalOrderIrrelevant | scripts/audit_u8c_action_corpus.py:278-292 | Permuting the roots does not change whether the census fails |
| CensusStability.RootOnlyAdds | scripts/audit_u8c_action_corpus.py:460-526 | One more root never lowers the same-finding, same-problem, safe-action or owner-variance counters |
| CensusStability.RowsOnlyAdd | scripts/audit_u8c_action_corpus.py:460-526 | Rows that join a report, from wherever, never lower these counters |
| CensusStability.AmbiguityClearedExactly | scripts/audit_u8c_action_corpus.py:472-526 | One more root clears an undiscriminated owner ambiguity if and only if it brings to that boundary a facet set not seen there |
| CensusStability.ReportDetermined | scripts/audit_u8c_action_corpus.py:460-594 | The report depends on the rows only as a multiset |
| CensusStability.RowsPermuted | scripts/audit_u8c_action_corpus.py:288-434 | Permuting the roots permutes the rows |
| CensusStability.GroupGrows | scripts/audit_u8c_action_corpus.py:472-526 | What two rows of a group showed they still show when more rows join it |
| CensusStability.NewFacets | scripts/audit_u8c_action_corpus.py:472-474 | The group-level form of the exact condition for an ambiguity to clear |
| Census.Examine | scripts/audit_u8c_action_corpus.py:461-512 | The facts of one group mean what pairs of its rows exist: variance, same-finding, same-problem and safe variants |
| Census.KeysApart | scripts/audit_u8c_action_corpus.py:462-471 | Several keys among the rows that count exactly when two of those rows differ in it |
| Census.ActionsByProblem | scripts/audit_u8c_action_corpus.py:486-509 | The dictionary holds for each problem identity exactly the actions of its rows, and no rows without an identity |
| Census.FindingsApart | scripts/audit_u8c_action_corpus.py:475-485 | Some finding has more than one action exactly when two rows of one finding differ in action |
| Census.ProblemsApart | scripts/audit_u8c_action_corpus.py:486-512 | Some problem has more than one action exactly when two rows of one problem differ in action, with or without the restriction to safe rows |
| Census.OwnersApart | scripts/audit_u8c_action_corpus.py:462-472 | More than one owner in the list exactly when two rows differ in owner |
| Census.FacetsApart | scripts/audit_u8c_action_corpus.py:468-474 | More than one facet set exactly when two rows differ in facets |
| Census.ActionsApart | scripts/audit_u8c_action_corpus.py:463-473 | More than one action signature exactly when two rows differ in action |
| Census.SafeActionsApart | scripts/audit_u8c_action_corpus.py:495-499 | More than one safe action signature exactly when two safe rows differ in action |
| CensusReport.ExamineGroups | scripts/audit_u8c_action_corpus.py:460-545 | Every counter is the number of boundaries whose group has the property, in whatever order the groups are visited |
| CensusReport.GroupMembers | scripts/audit_u8c_action_corpus.py:417-434 | The group of a boundary holds exactly the rows of that boundary |
| CensusReport.Gathered.Join | scripts/audit_u8c_action_corpus.py:412-438 | The rows of one more root join their groups and findings, and its counters the totals |
| CensusReport.Counters.AddCounts | scripts/audit_u8c_action_corpus.py:513-526 | One more group raises exactly the counters of the properties it has |
| CensusLineage.AuditRoot | scripts/audit_u8c_action_corpus.py:287-459 | Fails exactly when the root is not auditable; otherwise one row per selected candidate in sorted order, with the four counters |
| CensusLineage.CollectRows | scripts/audit_u8c_action_corpus.py:334-434 | Fails exactly when some selected candidate has no lineage; otherwise one row per id, in order, and the counters count them |
| CensusLineage.Load | scripts/audit_u8c_action_corpus.py:291-323 | Fails exactly when a logical id is declared twice or a workflow breaks its contract; otherwise the dictionaries are those of the artifacts |
| CensusLineage.CandidateArtifacts | scripts/audit_u8c_action_corpus.py:304-308 | The dictionary of the stored candidates by artifact id |
| CensusLineage.CheckCandidate | scripts/audit_u8c_action_corpus.py:334-408 | Finds the lineage of a candidate exactly when there is one: revision, candidate, finding, validation and all its workflows, agreeing on base commit and content hash |
| CensusLineage.FindParts | scripts/audit_u8c_action_corpus.py:335-384 | Returns the pieces the root holds for the candidate, or nothing when one is missing |
| CensusLineage.OneKind | scripts/audit_u8c_action_corpus.py:399-408 | Checking only the workflows of the candidate's own kind checks all that speak of it |
| CensusLineage.AllOnBase | scripts/audit_u8c_action_corpus.py:404-408 | True exactly when every listed workflow has the finding's base commit |
| CensusLineage.SpeakingExactly | scripts/audit_u8c_action_corpus.py:144-150 | The workflows listed under a candidate are exactly those that name it |
| CensusLineage.NamedKeys | scripts/audit_u8c_action_corpus.py:324-334 | The keys of the dictionary are exactly the candidates that some workflow names |
| CensusLineage.AcceptedWorkflows | scripts/audit_u8c_action_corpus.py:108-150 | Fails exactly when an accepting workflow breaks the committed-result contract; otherwise groups them by candidate in order |
| CensusLineage.SafeActionWorkflows | scripts/audit_u8c_action_corpus.py:153-182 | Fails exactly when a safe-action workflow breaks its contract; otherwise groups them by candidate in order |
| CensusLineage.CheckAccepted | scripts/audit_u8c_action_corpus.py:116-143 | The checks on an accepting workflow, one by one, amount to its contract |
| CensusLineage.CheckSafe | scripts/audit_u8c_action_corpus.py:161-180 | The checks on a safe-action workflow, one by one, amount to its contract |
| CensusLineage.CheckParts | scripts/audit_u8c_action_corpus.py:368-398 | The checks on the parts of a lineage, one by one, amount to their agreement |
| CensusRows.NamesMean | scripts/audit_u8c_action_corpus.py:116-118 | Which field of a workflow names its candidate |
| CensusRows.WorkflowsMean | scripts/audit_u8c_action_corpus.py:315-317 | The workflows are exactly the payloads of the workflow artifacts |
| CensusRows.InsideMeans | scripts/audit_u8c_action_corpus.py:270-274 | A finding id occurs in a candidate id exactly when it is a part of it |
| CensusLineage.FindingIdExactly | scripts/audit_u8c_action_corpus.py:270-274 | The finding is the first of the longest ids that occur in the candidate id, and none exactly when none occurs |
| CensusLineage.RowsUnique | scripts/audit_u8c_action_corpus.py:334-438 | The rows of a root are determined by the root |
| CensusLineage.RowsValidated | scripts/audit_u8c_action_corpus.py:394-414 | Every row in the report has passed validation, so filtering on it drops nothing |
| CensusRoot.IndexUnique | scripts/audit_u8c_action_corpus.py:77-105 | Fails exactly when two artifacts declare the same logical id; otherwise the index holds every declared id |
| CensusRoot.DeclaredExactly | scripts/audit_u8c_action_corpus.py:77-105 | Without a collision the indexed payload does not depend on the order of the artifacts |
| CensusRoot.RefIdsExactly | scripts/audit_u8c_action_corpus.py:65-74 | The source ids are those of the objects reached through lists; what such an object contains is not looked at |
| CensusRoot.Suffix | scripts/audit_u8c_action_corpus.py:222-226 | The suffix of a facet id holds no dot and is what follows one, or the whole id |
| Counting.CountPermuted | scripts/audit_u8c_action_corpus.py:410-416 | Counters do not depend on the order of the rows |
| Lifecycle.Validate | scripts/aggregate_stage2_checkpoint_reports.py:61-159 | Accepts exactly the runs whose manifests are complete and share one identity with every case, whose scenarios are closed with checkpoints, freezes and reveals in one-to-one correspondence, and whose checkpoints are the formal ones, once each over all scenarios |
| Lifecycle.ValidateManifests | scripts/aggregate_stage2_checkpoint_reports.py:67-109 | Comparing with the first manifest only is enough: it accepts exactly when every case agrees with every manifest |
| Lifecycle.ValidateScenario | scripts/aggregate_stage2_checkpoint_reports.py:116-156 | Accepts exactly the closed scenarios with distinct chapters not met before that fit the formal map |
| Lifecycle.CheckedMeansClosed | scripts/aggregate_stage2_checkpoint_reports.py:120-155 | The counts and one-sided checks amount to the two-sided correspondence: no orphan freeze or reveal, each reveal no earlier than its freeze |
| Lifecycle.CheckBasis | scripts/aggregate_stage2_checkpoint_reports.py:131-155 | The checks of the loop body for one checkpoint, against its own freeze and single reveal |
| Lifecycle.RevealsMean | scripts/aggregate_stage2_checkpoint_reports.py:148-155 | In an accepted run a reveal is complete no earlier than its freeze, its evaluator context is destroyed, and it is the only one of that freeze |
| Lifecycle.FreezesMean | scripts/aggregate_stage2_checkpoint_reports.py:124-152 | In an accepted run every checkpoint has a freeze of its case, chapter, commit and snapshot, that a reveal, and none of either is left over |
| Lifecycle.SameMeans | scripts/aggregate_stage2_checkpoint_reports.py:98-109 | Manifest values agree when they are equal, or a truth value and the number that stands for it |
| Lifecycle.FormalMeans | scripts/aggregate_stage2_checkpoint_reports.py:25-31 | The five formal checkpoints and their cases, one by one |
| Lifecycle.FrozenMeans | scripts/aggregate_stage2_checkpoint_reports.py:70-109 | In an accepted run any two manifests agree in every identity field, none missing or empty, from clean source and of the profile, and every case agrees in the case fields |
| Lifecycle.IdentityFieldsMean | scripts/aggregate_stage2_checkpoint_reports.py:32-39 | The names of the identity fields and of the case fields |
| Lifecycle.CheckManifest | scripts/aggregate_stage2_checkpoint_reports.py:71-90 | The checks on one manifest, one by one, amount to its completeness |
| Lifecycle.RevealsFor | scripts/aggregate_stage2_checkpoint_reports.py:148-150 | The positions of the reveals of a freeze, all of them in order |
| Lifecycle.NextFile | scripts/aggregate_stage2_checkpoint_reports.py:114-156 | Accepting one more scenario keeps the correspondence over all scenarios |
| Lifecycle.FreezeByCase | scripts/aggregate_stage2_checkpoint_reports.py:128-130 | The dictionary by case, or failure exactly when two freezes share a case |
| Pigeonhole.OneSidedIsBijection | scripts/aggregate_stage2_checkpoint_reports.py:124-152 | Between equally many items, one-sided uniqueness leaves nobody over on the other side |
| Pigeonhole.Pigeons | scripts/aggregate_stage2_checkpoint_reports.py:124-130 | As many distinct positions as there are places fill all of them |
| Pigeonhole.ElementsCount | scripts/aggregate_stage2_checkpoint_reports.py:128-130 | A dictionary built from a list is as large as the list exactly when no key repeats |
| CaseMerge.Merge | scripts/aggregate_stage2_checkpoint_reports.py:167-240 | Fails exactly when two expected results of one key differ; otherwise holds every expected result and nothing else |
| CaseMerge.PairedCases | scripts/aggregate_stage2_checkpoint_reports.py:170-245 | Succeeds exactly when there is no conflict and every expected case has a result |
| CaseMerge.ArmReports | scripts/aggregate_stage2_checkpoint_reports.py:178-270 | Succeeds exactly when there is no conflict and, if there is any arm report, every expected case has arm A |
| CaseMerge.MergeOrderIrrelevant | scripts/aggregate_stage2_checkpoint_reports.py:167-240 | The merged results depend on what was met, not on where, in what order or how often |
| CaseMerge.RerunChangesNothing | scripts/aggregate_stage2_checkpoint_reports.py:249-285 | Results written into the directory that is read, possibly over files that were read, never conflict with the next merge, and leave it unchanged if and only if each result is still found there |
| Backfill.Project.Runs | scripts/backfill_missing_prelude.py:69-276 | Over any number of runs, crashed or not: at most one commit; a receipt means that progress reads as naming the new commit, not paused, and otherwise as before; an existing receipt never changes; once anything is recorded under the key, no later run is done or changes progress or receipt; a clean first run from a fresh project is done |
| Backfill.Project.ReceiptMeans | scripts/backfill_missing_prelude.py:241-272 | Progress reads as before, naming the base, or as naming the new commit and not paused with all else as before; a receipt means the second and holds the accepted result |
| Backfill.CrashStrands | scripts/backfill_missing_prelude.py:224-272 | From every project that a run could complete, a run that crashes right after its commit leaves one that no number of further runs completes, with progress as it was and no receipt |
| Backfill.StrandedProject | scripts/backfill_missing_prelude.py:224-272 | Such a project exists |
| Backfill.Project.RunOnce | scripts/backfill_missing_prelude.py:84-272 | A run in which nothing goes wrong is done if and only if nothing was recorded under the key and head and progress name the base; of runs that find everything in order only one that crashes before its commit leaves the project completable; whatever goes wrong, the invariant holds |
| Backfill.Project.CommitOnce | src/novel_agent/services/commits.py:84-135 | Accepts a valid request only on the expected base, at most once under its key, and records a rejection or a conflict likewise; a repeat returns the recorded result |
| Backfill.Project.AtomicWrite | scripts/backfill_missing_prelude.py:340-353 | The target file is its old or its complete new content wherever a crash falls, and no other target changes |
| Backfill.Project.WriteReceipt | scripts/backfill_missing_prelude.py:356-372 | An existing receipt is never changed; a different one is refused |
| Backfill.Project.Others | src/novel_agent/services/commits.py:84-115 | Other writers may move the head, but never back to the base |
| Fingerprint.StreamDeterminesSources | scripts/run_stage2_teacher_forced_e2e.py:772-791 | Two source trees feed the same bytes to the hash if and only if they have the same selected paths with the same content digests |
| Fingerprint.DecodeFrames | scripts/run_stage2_teacher_forced_e2e.py:788-790 | The framing (path, NUL, 32-byte digest, line feed) is uniquely decodable |
| Fingerprint.PartsOfPosix | scripts/run_stage2_teacher_forced_e2e.py:788-789 | A posix path determines its parts |
| Fingerprint.SelectedMeans | scripts/run_stage2_teacher_forced_e2e.py:776-787 | Hashed are exactly the files below src, scripts and schemas that no part of the path calls __pycache__ and whose name does not end in .pyc, and Makefile and pyproject.toml |
| Fingerprint.FrameMeans | scripts/run_stage2_teacher_forced_e2e.py:788-790 | A frame is the path with slashes, a zero byte, the digest and a line feed |
| Fingerprint.PathLessMeans | scripts/run_stage2_teacher_forced_e2e.py:788 | Paths are sorted by the first part in which they differ |
| Fingerprint.BytesLessMeans | scripts/run_stage2_teacher_forced_e2e.py:788 | Parts are sorted by the first byte in which they differ |
| Fingerprint.CodeSourceStream | scripts/run_stage2_teacher_forced_e2e.py:772-791 | The stream is that of the sorted selected files whatever order they were enumerated in; it fails exactly when one of the two root files is missing |
| Fingerprint.Feed | scripts/run_stage2_teacher_forced_e2e.py:788-790 | The running update feeds the frames of the sorted files in order |

## Left out

- Databases, OpenSearch, object storage over the network, HTTP endpoints of the
  models, migrations, git and argument parsing: none of their logic is in these algorithms.
- Archive and redirect hardening, file modes, password strength, private
  directories and path containment checks: a posture, not a function of the state.
- Schema exporters, Markdown renderers, canary and campaign drivers, and the long
  field-by-field checks of incident manifests: single branches without state.
- The bodies of the service starters and probes: a start is spawning, waiting and
  writing the lease; `bootstrap` in `up` is not part of this model.
- The health evidence file, `status` and `restart`, which combine modelled calls.
- `NativeInfra.Manager.ReadAndValidateLease`: a malformed lease file is not
  modelled; leases are parsed values.
- `NativeInfra.Manager.SignalHolder`: that a successful PostgreSQL stop command
  means the server is gone is assumed, not proved; the command is not part of this model.
- `NativeInfra.Manager.StartService`: that the started command line identifies the
  service is up to the starters, so a new lease is not promised to validate.
- `NativeInfra.Manager.Health`: port probes are a nondeterministic yes or no.
- `Download.Target.DownloadFile`: durability of the partial file after a power
  failure is not modelled; a crash loses at most the part of a write not yet made.
- `Download.BootstrapModel`: `verify_model` distinguishes a missing file from a
  wrong one in its message, which the outcome does not.
- `EnvFile.File.UpdateEnvFile`: the write is one step; a crash inside it is not
  modelled, since the source does not use a temporary file there.
- `ReachableCopy.Repository.Put`: stores whose object exists without its metadata
  are not modelled.
- `Json.EmbeddedExactly`: Python's limit on recursion depth and repeated names
  within one object are not modelled; `json.loads` keeps the last of those.
- `RefCollector.ArtifactRefs`: labels of error messages are dropped.
- `AncestryWalks.BuildAncestry`: the proof document's text-root table, its
  counts and its digests are not modelled, only the entries in order.
- `AncestryWalks.ResolveCheckpoints`: the range check of the requested counts
  against the head chapter of the progress manifest is not modelled.
- `CensusLineage.AuditRoot`: reading and verifying the stored artifacts is given;
  an artifact that fails its verified read makes the census fail before this point.
- `CensusLineage.CheckCandidate`: base commits are compared as scalars, with
  booleans, integers and floats of one value alike; objects and lists as base
  commits are compared with their names in order.
- `CensusRoot.SemanticAction`: objects nested in an operation are compared with
  their names in order, while the code sorts the names.
- `CensusReport.BuildCorpusReport`: root summaries and the order in which groups
  are printed are not modelled; source ids and root kinds are multisets, facet
  suffixes sets, instead of sorted tuples, which identifies the same values.
- `Lifecycle.ValidateManifests`: numbers that are not finite are not modelled.
- `CaseMerge.RerunChangesNothing`: which files the written results replace is given,
  not modelled; file names carry a chapter and an arm, not a case.
- `CaseMerge.Merge`: parsing the report, case and object files is given; files
  that fail to parse are skipped or refused before a result is met.
- `Backfill.Project.RunOnce`: the construction of the repaired roots and the
  checks of the pinned benchmark are one Boolean input.
- `Fingerprint.SelectedMeans`: the code looks for `__pycache__` in the absolute path;
  that the repository itself lies below such a directory is not modelled.
- `Fingerprint.CodeSourceStream`: symbolic links, unreadable files and changes of
  the tree while it is read are not modelled.
