# wazo-plugind in Dafny

wazo-plugind installs PBX plugins from git or from a market, dependencies included. It builds a Debian package
for each plugin, lets a privileged process install it, and tells the bus about every step. This project models the
parts where steps interlock, and proves what holds over whole runs.

`dafny verify dfyconfig.toml` verifies everything.

## How the model is organised

| files | what they hold |
|---|---|
| `Install`, `InstallTrace`, `InstallWorkspace`, `InstallLog`, `InstallClosure`, `InstallProgress`, `InstallBound`, `InstallOutcome`, `InstallMarket` | the install pipeline as functions from one state of the machine to the next, and the theorems about runs of it |
| `Tasks`, `Service`, `ServiceObject` | the pipeline as the program runs it (a shared mutable context, a loop over the steps, handlers), proved equal to those functions; runs of service requests and of the tasks they queue |
| `RootWorker`, `RootWorkerStop`, `RootWorkerObject` | the root worker's protocol as a transition system over any number of threads, its end, and `send_cmd_and_wait` under arbitrary interference |
| `ConcurrentTasks`, `NestedTraces`, `ConcurrentNesting`, `ConcurrentRuns` | tasks on many threads sharing the bus and that worker, what it means that a trace nests, and the theorems about whole runs |
| `Catalog`, `Versions`, `Schema` | market entries, the choice of a version, the two version orders, metadata validation |
| `MarketQuery`, `MarketSort`, `MarketListing`, `MarketDb` | filter, search, sort, pages and counts over the cached catalog that is updated in place |
| `PackageNames`, `InstalledPlugins`, `Text`, `Wrappers` | Debian names and the package listing, both directions |

Everything outside the program is one value, `Install.Env`: what the market answers to each request, what a clone
contains, which commands can be started and which succeed. The theorems hold for all of them. Commands keep the
contract of their tool, and no more. gdebi unpacks a plugin only when every `Depends` package is there; a failing run
can still leave its files in place. apt never leaves behind something that depended on what it removed; a failing
removal can have removed part, and a successful one removed the package. Two notions are assumptions where a theorem
names them: `InstallProgress.Coherent` (a repository holds the plugin and version that its market entry announces) and
`Acyclic` or `Ranked` (dependencies and market redirections do not lead back). A plugin counts as installed when its
metadata file is there, as in the program.

A task runs under a bound on nested calls, `depth`, which stands for Python's recursion limit. At zero, the next
nested call raises, and the nearest handler treats that like any unexpected exception. `InstallBound` proves that
the bound is invisible on acyclic catalogs.

## What the code does against what one might expect

- A bare number as `version` in `plugin.yml` is compared, once installed, as a number with text. Such a plugin is
  never recognised as already installed (`Service.AlreadyInstalledExactlyOnText`).
- `reinstall` through the market does nothing for the version that is installed: a version must be newer to be
  chosen at all (`Catalog.ReinstallNeedsNewer`).
- The metadata schema compares Wazo versions as strings, the market as loose versions. They agree on zero-padded
  versions; on unpadded ones the orders agree exactly under `Versions.WidthAgrees`, and the two verdicts on a
  plugin's bounds exactly under `Schema.BoundsAgree` (`Schema.UnpaddedBoundsAgreeExactly`).
- `less_than` calls a missing or empty version smaller than itself (`Versions.BelowItselfExactlyWhenEmpty`).
- Two versions that are bare numbers are compared by their digits as text, 10 below 9, which is their order exactly
  under the same condition (`Versions.BareNumbersOrderExactly`).
- The regular expressions end in `$`, which accepts a trailing newline, so a namespace can be validated and its
  package read back as another plugin's (`PackageNames.ValidatedNamesReadBack`). Dependencies are only checked for
  non-empty names, and a name shares its package with another such name exactly when it holds a dash besides the
  separator (`PackageNames.PackagesCollideExactly`); the well-formed `c/a-b` is one, with `b-c/a`
  (`PackageNames.DashedNamesCollide`).
- A validation error leaves the extracted directory behind, and so does metadata that cannot be read
  (`InstallWorkspace.TaskWorkspace`).
- A count taken before a list can differ from one taken after it, except exactly for queries that cannot see what the
  updater writes (`MarketQuery.CountNeedsTheUpdateExactly`).
- The package listing fails, instead of skipping, when the first package of the section has a malformed name: the
  handler logs a variable that is not bound yet (`InstalledPlugins.ListPlugins`).
- An empty answer of the market is not cached but asked for again, so a response can count more filtered entries than
  entries (`MarketDb.ResponseAgreesExactly` says when).
- A thread that finds the worker dead leaves its task, and the tasks waiting for it, through `sys.exit`: they publish no
  ending, and the executor gives the thread its next job. Its events then no longer nest, exactly when that job
  publishes (`ConcurrentNesting.TracesNestOnThreadExactly`, and an input in `QuittingBreaksNesting`).
- A git install puts in place whatever version its source holds (`Service.CompletedInstallsItsFile`).
- A plugin whose market entry redirects to itself is never downloaded, whatever the recursion limit
  (`InstallBound.SelfRedirectNeverSettles`).

## Model

| member | source | states |
|---|---|---|
| InstallTrace.TaskTrace | wazo_plugind/tasks.py:71-130 | Whatever the catalog, repositories and commands do, the events a task publishes are exactly the flattening of a legal report: a prefix of the steps, whole traces of nested tasks only between 'installing dependencies' and 'building', and one ending |
| InstallTrace.DependenciesTrace | wazo_plugind/tasks.py:224-246 | Nested traces are whole, legal, and in the order in which the dependencies are listed, each one requested with the namespace, name and version it is listed with; all of them are there unless a nested call itself raised |
| InstallTrace.StepKeeps | wazo_plugind/tasks.py:71-130 | Each step can only end as the grammar of traces allows, keeps the task's identity and declared dependencies, and publishes nothing unless it is the dependency step |
| InstallTrace.DownloadKeeps | wazo_plugind/download.py:46-71 | Through any chain of market redirections a download publishes nothing, changes only the method and options, and leaves a clone exactly when it succeeds, which it does only with git options |
| InstallTrace.PackageReady | wazo_plugind/tasks.py:257-272 | Packaging leaves valid metadata valid, and its declared dependencies as they were, though it rewrites the Debian ones in place |
| InstallOutcome.GitTaskEndsExactly | wazo_plugind/tasks.py:71-130 | How every git task ends, at which step and with which outcome, as a table over what its commands, its repository and the installed plugins do; and what a completed one has put in place |
| InstallOutcome.GitTaskCompletesExactly | wazo_plugind/tasks.py:71-130 | A git task completes exactly when the clone, the move, the file, its validation, the dependency step, every command, every directory and file, apt and gdebi are as it needs them; its plugin is then installed as the file says |
| InstallOutcome.CommandsFailExactly | wazo_plugind/tasks.py:93-104 | Each of the five commands a task runs itself gives 'install-error' at its own step exactly when it was reached, started and did not return zero |
| InstallOutcome.ValidationEndsExactly | wazo_plugind/helpers/validator.py:31-49 | A validation error, and the short cut for a plugin that is installed, happen exactly for what the file says; with reinstall the short cut never does |
| InstallMarket.MarketHopExactly | wazo_plugind/download.py:46-117 | What a market request comes to for every answer: nothing, or the first version that fits in the first entry of the name, loaded |
| InstallMarket.MarketTaskGoesOnAsGit | wazo_plugind/download.py:60-71 | A request that leads to a repository ends exactly as the git task with the options it was given |
| InstallMarket.MarketTaskStops | wazo_plugind/download.py:46-54 | A request that leads nowhere ends the task while it downloads and changes nothing |
| InstallMarket.MisfitTaskStops | wazo_plugind/download.py:120-138 | A task whose method is unknown, or whose options are of another kind, ends in an unexpected error while it downloads and changes nothing |
| InstallMarket.TaskBuildsForItsWazo | wazo_plugind/tasks.py:224-246 | Whatever a task and its nested tasks install was built from metadata that is valid, bounds included, on the Wazo version the task was created with |
| InstallMarket.PinnedTaskInstallsThatVersion | wazo_plugind/download.py:90-112 | In a coherent market without redirections, a task for a pinned plugin that got past 'installing' installed that plugin in that very version |
| InstallMarket.PinnedDependenciesGetTheirVersions | wazo_plugind/tasks.py:232-246 | So does the nested task of each pinned dependency, whatever else is installed in the run |
| InstallWorkspace.TaskWorkspace | wazo_plugind/tasks.py:93-130 | When a task ends, at every nesting depth, the extract directories that remain are exactly those of tasks that ended in a validation error or could not read the metadata after the move; clones likewise; nobody else's directory is touched |
| InstallWorkspace.StepsWorkspace | wazo_plugind/tasks.py:91-130 | The steps from any one on keep other tasks' directories except for what nested tasks report, and keep the own ones as the stage says |
| InstallWorkspace.StepAdvances | wazo_plugind/tasks.py:161-272 | A step that ends normally establishes what the next one reads; one that fails leaves the directories in the state its handler expects |
| InstallWorkspace.ExtractAdvances | wazo_plugind/tasks.py:192-208 | A failed extraction leaves a directory exactly when the move succeeded and the metadata was unreadable, and the handlers do not know of it |
| InstallWorkspace.PackagingIsReady | wazo_plugind/tasks.py:257-272 | When packaging starts, every key and directory it reads is there, so none of its lookups can fail |
| InstallWorkspace.DependenciesStage | wazo_plugind/tasks.py:224-246 | Whatever the nested tasks leave behind, the parent resumes with its own directory and metadata untouched |
| InstallLog.LawfulLogKeepsClosed | templates/control.jinja:7-8 | Over any log of commands that respect their tools' contracts, whatever is installed has its dependencies installed |
| InstallLog.ClosedMeansInstalled | wazo_plugind/debian.py:70-87 | For well-named dependencies, closure means that the very plugin depended on is installed, not another one with its package name |
| InstallLog.ValidatedTwin | wazo_plugind/schema.py:12-13 | A validated plugin cannot share its package with a different well-named plugin |
| InstallLog.FirstInstallsDiffer | wazo_plugind/tasks.py:218-222 | In a log in which each install that leaves files finds its plugin absent, no plugin's files are put in place twice |
| InstallLog.DependencyComesFirst | wazo_plugind/tasks.py:218-246 | In a lawful log of first installs, failed ones that leave files included, a dependency's install precedes its dependent's |
| InstallClosure.PackagedDepends | wazo_plugind/debian.py:70-87 | After packaging, the metadata and the package list the original Debian dependencies, then one generated name per dependency in order, though the list was rewritten in place |
| InstallClosure.PackagesListDependencies | wazo_plugind/debian.py:70-87 | Any package built from a valid metadata file lists every dependency which that file declares |
| InstallClosure.PackagedFromFile | wazo_plugind/tasks.py:257-272 | From 'updating' on, a task's package is the one built from its own metadata file |
| InstallClosure.UpdatesExactlyWithDepends | wazo_plugind/tasks.py:248-255 | 'updating' sends apt-get update exactly when the plugin as extracted had Debian or plugin dependencies, also when `debian_depends` is a text |
| InstallClosure.InstallsOwnPackage | wazo_plugind/tasks.py:218-222 | 'installing' sends one command, for the task's own package; it goes on only if the worker returned True, the plugin's files come only with its dependencies met, and the package lists every dependency of its plugin |
| InstallClosure.QuietStep | wazo_plugind/tasks.py:161-216 | No other step sends a command or changes what is installed |
| InstallClosure.TaskLogged | wazo_plugind/tasks.py:71-130 | Every command of a task and of all tasks nested in it obeys its contract in the state it finds, failed dependencies included |
| InstallProgress.MarketPromises | wazo_plugind/download.py:46-71 | What the market yields for a plugin is that plugin, in a version above the installed one, and a redirection stays with the plugin |
| InstallProgress.UnversionedMeansAbsent | wazo_plugind/download.py:73-104 | An unpinned request without reinstall only gets past 'downloading' when the plugin is not installed |
| InstallProgress.TaskRises | wazo_plugind/tasks.py:71-130 | A market task installs only plugins ranked up to its own, each one absent before or in a lower version, over its whole nested run |
| InstallProgress.TaskInstallsOnceInOrder | wazo_plugind/tasks.py:218-246 | From a top-level task by any method, over acyclic unpinned dependencies with diamonds, each plugin is put in place at most once, by a successful or failing install, and each dependency before its dependents |
| InstallBound.TaskSettlesAt | wazo_plugind/tasks.py:224-246 | On an acyclic catalog every recursion bound from the request's rank on gives the same events, final state and report: the mutual recursion terminates by itself |
| InstallBound.DownloadSettles | wazo_plugind/download.py:46-71 | The same for chains of market redirections, which only go down in rank |
| InstallBound.MarketLowers | wazo_plugind/download.py:60-71 | What the market yields ranks below what was asked |
| InstallBound.SelfRedirectNeverSettles | wazo_plugind/download.py:60-71 | A plugin whose every loadable version redirects to it is never downloaded: under every bound the request either finds nothing to install or ends in an unexpected error, and which of the two is decided by the first lookup |
| Service.InstalledStaysClosed | wazo_plugind/service.py:46-93 | After any sequence of create and delete requests and of runs of queued tasks, with any failures, every dependency of an installed plugin is installed |
| Service.VersionsOnlyRise | wazo_plugind/service.py:46-58 | Over any sequence of market installs, queued and run in any rhythm, pinned or not, every change of a plugin's version is strictly upwards, failed installs that leave files included |
| Service.CompletedMeansInstalled | wazo_plugind/tasks.py:218-222 | A task passes 'installing' only if the worker ran the install of its own uuid and package, built from the source it cloned, and returned True; that is what is installed until the task ends |
| Service.CompletedInstallsItsFile | wazo_plugind/tasks.py:192-222 | By whatever method and whichever version was there before, a task past 'installing' leaves in place the identity and the version written in its source |
| Service.UninstallSettles | wazo_plugind/tasks.py:37-57 | An uninstall task publishes one terminal event; it is 'completed' exactly when apt succeeded and no plugin with that package is left; whatever a successful or failed removal took away, nothing left depended on it |
| Service.JobsRunInOrder | wazo_plugind/service.py:57-92 | Queued tasks run once each, oldest first |
| Service.CreatedTaskRuns | wazo_plugind/service.py:46-58 | A create request queues, behind what waits, the task with exactly its method, options, reinstall flag and Wazo version |
| Service.DeletedPluginGoes | wazo_plugind/service.py:83-93 | A delete request queues a task exactly when the plugin is installed, and when that task completes neither the plugin nor anything with its package is installed |
| Service.RespondKeepsQueue | wazo_plugind/service.py:46-93 | Requests and runs keep every waiting task's uuid its own, with no directory under it, whatever the running tasks and their nested tasks leave behind |
| Service.AlreadyInstalledExactlyOnText | wazo_plugind/helpers/validator.py:43-49 | Installing what is installed is recognised exactly when plugin.yml writes the version as text |
| ServiceObject.UninstallTask.Execute | wazo_plugind/tasks.py:37-57 | The loop and its handler leave the host as the uninstall specification says |
| ServiceObject.UninstallTask.Remove | wazo_plugind/tasks.py:146-150 | One remove command is sent; what apt takes away goes whatever it answers, and the answer True means the package is gone |
| ServiceObject.PluginService.CreateTask | wazo_plugind/service.py:46-58 | Creating answers with the next uuid and queues the task; nothing has run |
| ServiceObject.PluginService.DeletePlugin | wazo_plugind/service.py:83-93 | Deleting queues a task exactly when the plugin is installed at that moment |
| ServiceObject.PluginService.RunOldest | wazo_plugind/service.py:57-92 | The executor runs the oldest queued task, on the host it finds then |
| Tasks.PackageAndInstallTask.PackageAndInstallImpl | wazo_plugind/tasks.py:71-130 | The loop, its handlers and the nested tasks leave context and host exactly as the specification of a task says |
| Tasks.PackageAndInstallTask.RunStep | wazo_plugind/tasks.py:75-91 | Each step's method changes context and host as its specification says |
| Tasks.PackageAndInstallTask.Download | wazo_plugind/download.py:46-71 | The recursion through redirections, mutating the shared context, is the specified download |
| Tasks.PackageAndInstallTask.Extract | wazo_plugind/tasks.py:192-208 | The shared context learns of the directory only after the move and the metadata read |
| Tasks.PackageAndInstallTask.Validate | wazo_plugind/tasks.py:210-216 | The metadata stays coerced whatever the verdict, and reinstall is reset only on success |
| Tasks.PackageAndInstallTask.Package | wazo_plugind/tasks.py:257-272 | Context and outcome after packaging, for each command that can fail on the way |
| Tasks.PackageAndInstallTask.InstallDeps | wazo_plugind/tasks.py:224-246 | The loop runs one whole nested task per dependency, in order, each with a fresh context and uuid |
| Tasks.PackageAndInstallTask.Update | wazo_plugind/tasks.py:248-255 | A skipped, successful or failed apt-get update, as specified |
| Tasks.PackageAndInstallTask.InstallPackage | wazo_plugind/tasks.py:218-222 | The command is logged with its answer and with whether it left the plugin's files, which is when the plugin is recorded |
| Tasks.PackageAndInstallTask.CleanUp | wazo_plugind/tasks.py:173-179 | The directory goes if and only if the context knows of it |
| Tasks.FindMatchingPlugin | wazo_plugind/download.py:86-104 | A fresh proxy, updated in place, yields the specified choice |
| Tasks.FindFirstUpgradable | wazo_plugind/download.py:114-117 | The search loop returns the first upgradable version |
| Tasks.FindMatching | wazo_plugind/download.py:106-112 | The search loop returns the first upgradable version equal to the required one |
| Tasks.EnsureStringVersions | wazo_plugind/schema.py:64-73 | The loop over field names leaves text in every version field and everything else alone |
| Tasks.AppendDebianDepends | wazo_plugind/debian.py:70-87 | The appending loop yields the original list followed by the generated names, or fails on a null list |
| RootWorker.AnswersAreOwn | wazo_plugind/root_worker.py:58-68 | In every interleaving of callers, worker, stop and worker death, each returned value is the answer of the one execution of the caller's own command, and executions and returns follow the order in which the lock was taken |
| RootWorker.NothingInTransitWithoutLock | wazo_plugind/root_worker.py:41-68 | At most one command is queued, running or awaiting pickup; until the queues close it is the lock holder's, and without a holder both queues are empty and every call so far is executed and returned |
| RootWorker.RefinesAtomicCalls | wazo_plugind/root_worker.py:58-68 | Every step either changes no log or executes atomically one command that was issued and not yet answered |
| RootWorker.LaterCallsRunLater | wazo_plugind/root_worker.py:66-68 | Logs only grow, and a call answered before another is executed was executed before it |
| RootWorker.StepKeepsInv | wazo_plugind/root_worker.py:41-132 | Every step of a caller, the worker, stop or the operating system keeps the invariant on lock, queues, tickets and logs |
| RootWorker.ScheduleKeepsInv | wazo_plugind/root_worker.py:41-132 | Hence every reachable state satisfies it |
| RootWorker.NoCallIsStuck | wazo_plugind/root_worker.py:119-132 | With a live worker and no stop request, some enabled step brings the lock holder closer to its release, within seven |
| RootWorker.OthersDoNotHinder | wazo_plugind/root_worker.py:119-132 | No other step takes the holder further away, except the worker's own timed out get |
| RootWorkerStop.EventsAreKnown | wazo_plugind/root_worker.py:41-54 | The machine has a stop request, closed queues or a dead worker exactly when that happened, and exits only on request |
| RootWorkerStop.StopEndsExecution | wazo_plugind/root_worker.py:41-54 | In every interleaving, after a stop request at most one more command is executed, and none once the loop tests the request or the process died |
| RootWorkerStop.StoppingWorkerEnds | wazo_plugind/root_worker.py:119-134 | After a stop request every step of the worker brings it closer to the end of its loop, by at most four, whatever the others do, and a live worker always has such a step |
| RootWorkerStop.WorkerExits | wazo_plugind/root_worker.py:53-54 | From any state with a stop request its own steps lead to a normal exit, which is what stop waits for |
| RootWorkerStop.DeadWorkerGetsNoCalls | wazo_plugind/root_worker.py:58-64 | Once the worker is gone nothing more is executed and only calls that had found it alive still take the lock |
| RootWorkerStop.CallsFindDeathExactly | wazo_plugind/root_worker.py:59-64 | A new call quits exactly when the worker is not alive |
| RootWorkerObject.BaseWorker.SendCmdAndWait | wazo_plugind/root_worker.py:58-68 | Whatever others do between its sections, an answered call returns the answer of an execution of its own command made during the call, under a new ticket; the call quits exactly when the worker was not alive, without taking the lock |
| RootWorkerObject.BaseWorker.PutAndGet | wazo_plugind/root_worker.py:66-68 | The same for the block under the lock, which an exception also leaves |
| RootWorkerObject.BaseWorker.Get | wazo_plugind/root_worker.py:68 | What is returned answers the very message that was put, and was executed |
| RootWorkerObject.BaseWorker.CallerSection | wazo_plugind/root_worker.py:58-68 | Each atomic section of a caller does to the fields what the machine's step does |
| RootWorkerObject.BaseWorker.WorkerSection | wazo_plugind/root_worker.py:119-132 | Each atomic section of the worker's loop and of stop does to the fields what the machine's step does |
| RootWorkerObject.BaseWorker.RunOthers | wazo_plugind/root_worker.py:41-132 | Any schedule of foreign steps keeps the invariant, the thread's place and its lock |
| ConcurrentTasks.EachTraceIsLegal | wazo_plugind/tasks.py:71-130 | For every interleaving of install and uninstall tasks, what is published under one uuid is a trace of the sequential grammar, with at most one ending, allowed where it stands; under an unused uuid there is nothing |
| ConcurrentTasks.PassingMeansExecuted | wazo_plugind/tasks.py:218-222 | For every interleaving, 'cleaning' under a uuid means that the worker ran install for that uuid and that task's package and returned True; likewise for a completed removal |
| ConcurrentTasks.StepKeepsInv | wazo_plugind/tasks.py:71-246 | Every move of a task or of the worker keeps the invariant that ties threads, stacks of tasks, traces and calls |
| ConcurrentTasks.StepKeepsLinks | wazo_plugind/tasks.py:232-246 | A thread runs exactly one task, the parents of which wait on that thread for it and for nothing else; a task left by `sys.exit` keeps its parents waiting while the thread goes on |
| ConcurrentTasks.StepKeepsCalls | wazo_plugind/tasks.py:218-255 | A thread is in send_cmd_and_wait only for the command of the task it runs, and outside it once it has quit |
| ConcurrentTasks.IdleThreadsLeaveNothing | wazo_plugind/controller.py:99 | Once the executor has shut down, tasks left on a dead worker included, nobody holds the worker's lock, and until the queues close they are empty with every command executed and answered, so the stop that follows loses nothing |
| ConcurrentTasks.RunningTaskCanGoOn | wazo_plugind/tasks.py:71-91 | In every reachable system a running task that is not waiting for the worker can announce its next step, send its command or finish its step, up to its regular end |
| ConcurrentNesting.TracesNestBetweenQuits | wazo_plugind/tasks.py:71-130 | For every interleaving, what a thread's tasks publish between two quits nests: whole traces stand only within the dependency step of the install that started them; what stays open is the running or abandoned task and those waiting for it, and nothing on an idle thread |
| ConcurrentNesting.TracesNestOnThreadExactly | wazo_plugind/root_worker.py:58-64 | Over its whole run a thread's events nest exactly when nothing is published on it after an abandoned task |
| ConcurrentNesting.QuittingBreaksNesting | wazo_plugind/root_worker.py:58-64 | Two removals on one thread with a dead worker: an input for which they do not nest |
| ConcurrentNesting.StepNests | wazo_plugind/tasks.py:224-246 | Every move, quitting included, keeps for every thread and life that reading its events leaves open exactly its innermost task and those waiting for it |
| NestedTraces.ReadReport | wazo_plugind/tasks.py:71-130 | The reading used there accepts every legal trace whose nested tasks have uuids of their own, and leaves the tasks open around it as they were |
| NestedTraces.TaskUuids | wazo_plugind/context.py:11-15 | In every sequential run nested tasks have uuids that were unused when their parent began |
| NestedTraces.SequentialTracesRead | wazo_plugind/tasks.py:71-130 | Hence what any sequential task publishes is read through from start to end |
| ConcurrentRuns.EachCommandRunsOnce | wazo_plugind/root_worker.py:58-68 | For every interleaving, the worker executes each task's command at most once, only for a task that reached the step which sends it, and an install only of that task's own package |
| ConcurrentRuns.StepKeepsIssued | wazo_plugind/tasks.py:218-255 | Every move keeps that the lock was taken only for tasks' own commands, each once |
| ConcurrentRuns.InstallsArePackaged | wazo_plugind/tasks.py:257-272 | For every interleaving, each install that the worker executed is of the package of the task that sent it, and that package lists its plugin's dependencies |
| ConcurrentRuns.ConcurrentInstallsStayClosed | wazo_plugind/tasks.py:218-246 | However many tasks install and remove concurrently, and whichever commands fail, installed plugins stay closed under dependencies, given only the contracts of gdebi and apt in execution order |
| Catalog.ChosenIsInstallable | wazo_plugind/download.py:86-117 | A chosen version is listed under the name asked for, compatible with the current Wazo, above the installed version, and the required one if one was required |
| Catalog.ChosenIsFirst | wazo_plugind/download.py:86-117 | The choice is, in the first entry of the name, the first version listed that can be installed and meets the requirement |
| Catalog.ChosenIsGreatest | wazo_plugind/download.py:114-117 | On a list sorted newest first an unpinned request so gets the greatest version that can be installed |
| Catalog.NothingChosenExactly | wazo_plugind/download.py:73-117 | Exactly when a request finds no entry, is already satisfied, or has a first entry that offers nothing newer which meets it |
| Catalog.FirstUpgradableIsGreatest | wazo_plugind/download.py:114-117 | On a list sorted newest first, the loop returns the greatest installable version, and nothing exactly when there is none |
| Catalog.UpgradableIsInstallable | wazo_plugind/db.py:97-116 | The updater's mark means minimum at most current, current at most maximum, and newer than installed |
| Catalog.ReinstallNeedsNewer | wazo_plugind/download.py:106-112 | Even with reinstall, only a version above the installed one is ever chosen |
| Catalog.FirstNamedIsNamed | wazo_plugind/db.py:132-145 | A lookup finds the first entry of that name, and fails exactly when there is none |
| Catalog.FilterMembers | wazo_plugind/db.py:214-223 | The strict filter keeps exactly the entries that match every key |
| Versions.PaddedOrdersAgree | wazo_plugind/helpers/version.py:7-29 | On versions of one zero-padded shape the string order is the numeric order |
| Versions.UnpaddedOrdersAgreeExactly | wazo_plugind/helpers/version.py:7-29 | Without padding they agree exactly when, at the first difference, the wider number is also the alphabetically later one |
| Versions.OrdersDisagree | wazo_plugind/helpers/version.py:7-29 | 17.9 and 17.12 are ordered oppositely |
| Versions.StringOrderIsComponentwise | wazo_plugind/schema.py:81-85 | String order on dotted versions compares component strings one by one |
| Versions.BelowItselfExactlyWhenEmpty | wazo_plugind/helpers/version.py:7-16 | A version is less than itself exactly when it is missing or empty |
| Versions.EmptyVersionsComeFirst | wazo_plugind/helpers/version.py:7-11 | What is missing or empty comes before everything, itself included, and nothing else comes before it |
| Versions.BareNumbersOrderExactly | wazo_plugind/helpers/version.py:19-29 | Two bare numbers are ordered by their digits as text, which is their order exactly when the wider one is also alphabetically later |
| Versions.TextsOrderLoosely | wazo_plugind/helpers/version.py:13-29 | As soon as one version is text the loose order decides on what both print as |
| Versions.NumericLessIsStrict | wazo_plugind/helpers/version.py:13-16 | Comparing the numbers of dotted versions is a strict weak order, as the results about greatest versions need |
| Schema.PaddedBoundsAgree | wazo_plugind/schema.py:81-85 | On zero-padded versions metadata with those bounds loads exactly when the market calls them compatible |
| Schema.UnpaddedBoundsAgreeExactly | wazo_plugind/schema.py:81-85 | Without padding the schema and the market give one verdict on a plugin's bounds exactly when no comparison is misordered, or the other bound decides both verdicts, or both are misordered and each order fails one bound |
| Schema.UnpaddedBoundsDiffer | wazo_plugind/schema.py:81-85 | One instance of that: on 17.12, a maximum of 17.9 loads though the market refuses it |
| Schema.ValidatedDependenciesLoad | wazo_plugind/schema.py:16-62 | No dependency of validated metadata is skipped later as invalid |
| Schema.LoadedOptionsFitTheMethod | wazo_plugind/schema.py:105-121 | What is loaded after a market hop has the options its downloader reads, non-empty |
| Schema.LoadedOptionsAreTheVersions | wazo_plugind/schema.py:21-30 | What is loaded says what the market's version says, field by field; only a missing reference becomes master |
| Schema.LoadsExactly | wazo_plugind/schema.py:105-121 | A version loads exactly when it names git, market or no method and holds what that method requires |
| Schema.NumbersLoadAsText | wazo_plugind/schema.py:64-73 | Metadata loads alike with a version written as a number or as the text made of it, and only thanks to the coercion |
| Schema.FormatsLoadExactly | wazo_plugind/schema.py:56-59 | Metadata of format 0, 1 or 2 loads as if none were given; of any other it does not |
| PackageNames.ParseFindsTheGroups | wazo_plugind/db.py:292-300 | The parser returns an identity exactly when the name is that identity's package, up to one trailing newline |
| PackageNames.RoundTripExactly | wazo_plugind/db.py:256-307 | Building a name and parsing it back gives the same plugin exactly on well-formed names |
| PackageNames.PackageNamesDiffer | wazo_plugind/db.py:260-262 | Distinct well-named plugins have distinct packages |
| PackageNames.PackagesCollideExactly | wazo_plugind/debian.py:45 | A name that is only non-empty shares its package with another such name exactly when it holds an inner dash besides the separator |
| PackageNames.DashedNamesCollide | wazo_plugind/debian.py:45 | One such pair, the first of them well formed |
| Schema.AcceptedDependenciesCollideExactly | wazo_plugind/schema.py:16-18 | A dependency that the schema accepts has the package of another accepted one exactly under that condition |
| PackageNames.ValidatedNamesReadBack | wazo_plugind/schema.py:12-13 | How each validated plugin's package reads back: as itself, as another plugin when a newline follows its namespace, not at all when one follows its name |
| PackageNames.ListingRoundTrip | wazo_plugind/debian.py:21-38 | Reading back any printed package table gives exactly the names of the section, in order; unselected, also one empty name |
| PackageNames.PluginsRecovered | wazo_plugind/db.py:240-253 | Every installed plugin is recovered from the printed listing |
| InstalledPlugins.ListPlugins | wazo_plugind/db.py:240-253 | The loop gives the metadata of the parseable packages that have some, in order, and fails exactly when the first listed name is malformed |
| InstalledPlugins.InstalledAreListed | wazo_plugind/db.py:240-253 | With well-named plugins in the section the listing succeeds and gives each one's metadata in table order, whatever other sections hold |
| MarketDb.MarketProxy.GetContent | wazo_plugind/db.py:62-65 | A non-empty content is fetched once; an empty or failed fetch is repeated and may be answered differently |
| MarketDb.MarketDB.MarkVersions | wazo_plugind/db.py:97-116 | The loop marks each version by the compatibility rules, in place |
| MarketDb.MarketDB.AddLocalValues | wazo_plugind/db.py:82-95 | The loop rewrites the shared cache, entry by entry |
| MarketDb.MarketDB.Get | wazo_plugind/db.py:132-145 | The first entry of that name, with local values |
| MarketDb.MarketDB.ListEntries | wazo_plugind/db.py:147-157 | The listed page, or which error; afterwards every later query on the proxy sees the updated content |
| MarketDb.MarketDB.Count | wazo_plugind/db.py:124-130 | Counts what the cache holds now, or the market's next answer, without updating it |
| MarketDb.GetMarket | wazo_plugind/http.py:112-137 | The list and the two counts on one proxy give the specified response for any sequence of market answers |
| MarketDb.ResponseAgrees | wazo_plugind/http.py:112-137 | With a non-empty first answer the items are a page of the whole sorted list, filtered is that list's length, and items, filtered and total are in that order |
| MarketDb.ResponseAgreesExactly | wazo_plugind/db.py:62-65 | In general they are in that order exactly when one of the first two answers is not empty, or the third has nothing for the query |
| MarketDb.BadArgumentsExactly | wazo_plugind/http.py:118-137 | A query argument fails for its name exactly when a function on its way has a parameter of that name |
| MarketDb.GetFromMarket | wazo_plugind/service.py:72-77 | Listing by name and taking the first entry is the market database's own lookup |
| MarketQuery.CountsAgree | wazo_plugind/db.py:124-157 | After the update, the filtered count is the length of the unpaginated list |
| MarketQuery.CountNeedsTheUpdateExactly | wazo_plugind/db.py:124-130 | A filtered count is the same before and after the update, for every market content and installed state, exactly for queries that ask for the impossible, or do not filter on the installed state and have their search settled by their own filters or met by every text |
| MarketQuery.UpdateTwice | wazo_plugind/db.py:82-116 | A second update changes nothing while the installed plugins are the same |
| MarketQuery.QueryKeepsMarketOrder | wazo_plugind/db.py:180-223 | Filter and search keep or drop each entry by itself, in market order, with repeats |
| MarketListing.ListIsExactly | wazo_plugind/db.py:147-177 | An unlimited list holds exactly the market's entries that have the asked installed state and values and meet the search, with local values and as often as the market does, and the filtered count is their number |
| MarketListing.InstalledFilterIsExact | wazo_plugind/db.py:310-319 | installed=true lists the plugins that are installed and all of them, installed=false the others |
| MarketListing.SearchFindsExactly | wazo_plugind/db.py:179-196 | A search finds an entry by any text value, any text in a list, or a field name of a version, and by nothing else |
| MarketSort.KeyOrder | wazo_plugind/db.py:21-29 | With the last item, text, number and list keys are strictly ordered, and equivalent keys are equal |
| MarketSort.SortIsStable | wazo_plugind/db.py:203-212 | The sort fails exactly on incomparable keys; otherwise it is a stable ordered permutation, missing keys last ascending and first descending, ties in market order both ways |
| MarketSort.StableOrderIsUnique | wazo_plugind/db.py:203-212 | Only one ascending list is a stable permutation, so any stable sort returns it |
| MarketSort.StableDescentIsUnique | wazo_plugind/db.py:203-212 | The same for descending lists |
| MarketSort.SortFollowsTheValues | wazo_plugind/db.py:203-212 | Entries are ordered by their values under the key, texts alphabetically and numbers by value, backwards only for 'desc' |
| MarketSort.BothLookupsAgree | wazo_plugind/db.py:132-157 | Unordered listing is the identity on order, so both lookups find one entry |
| MarketSort.PagesCoverTheList | wazo_plugind/db.py:198-201 | Consecutive pages give the list with no gap or repeat; beyond the end there is nothing |
| MarketSort.UnlimitedPages | wazo_plugind/db.py:198-201 | Without a limit, or with zero, the page is everything from the offset on |
| Text.SplitJoin | wazo_plugind/debian.py:38 | Parts without the separator are recovered |

## Left out

- HTTP routing, authentication, tenants, the OpenAPI file, configuration, consul registration, logging: they wire up libraries that are not part of this model.
- Loading the listed entries through `MarketListResultSchema`: an entry that fails to load makes the request fail after the list was computed.
- Publishing to RabbitMQ: appends to the event log and never fails.
- git, dpkg-deb, fakeroot, gdebi and apt: outcomes are arbitrary; of the files they make only each uuid's directories and the package's identity, version and dependencies are modelled.
- The accent-insensitive search, the looseversion library and mixed alphanumeric versions: arbitrary parameters; numeric dotted versions are defined in `Versions`.
- marshmallow's type errors: malformed values appear only where the code tells them apart; an explicit null for a market version's bounds is not modelled.
- Sort keys that are truth values or lists of records: taken as incomparable.
- Nested values of market entries other than scalars and lists of strings: not searched.
- Python's recursion limit: counted in nested downloads and nested tasks, not in stack frames.
- InstallTrace.TaskTrace: cleanup succeeds, as does publishing: a failing `rmtree` would raise from the handlers.
- A `debian_depends` that is a mapping, a truth value or a list of anything but text.
- A failed `git clone` leaves nothing under `download_dir`, and a failed move nothing under `extract_dir`: `InstallWorkspace.TaskWorkspace` is exact under that assumption, which a copy between file systems that stops half way would break.
- The `_metadata` cache of one `Plugin` object: each check reads the installed state of that moment.
- The executor's ten threads in `Service` and `ServiceObject`: one thread takes queued tasks in order; `ConcurrentTasks` has any number of threads.
- A dead worker in the sequential results, where every command is answered; `ConcurrentTasks` has the tasks that `sys.exit` leaves, and that the main thread gets a signal is any later stop.
- RootWorker.NoCallIsStuck: an enabled step towards release, not a scheduler that takes it; after the worker's death the alive check, made outside the lock, promises nothing.
- InstallProgress.TaskInstallsOnceInOrder: one sequential task, under coherent and acyclic market and repositories only; nothing is said of several tasks at once.
- InstallBound.TaskSettlesAt: acyclic catalogs only; on cycles the code relies on the recursion limit.
- Service.VersionsOnlyRise: market requests only, as git installs are not compared with what is there.
- Service.InstalledStaysClosed: membership, not versions: the generated `Depends` carry no version, so a dependency's pinned version is not enforced at install.
- InstallMarket.PinnedTaskInstallsThatVersion: without redirections, because an entry that redirects chooses its own version.
- ConcurrentTasks.EachTraceIsLegal: a step's outcome in a concurrent run is any that the step can have; which one is not tied to the market and the repositories.
