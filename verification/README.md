# instance-manager, modelled in Dafny

`instance-manager` is a small command-line tool for EC2 instances. The user
picks a region from a saved list, picks an instance in it, and then
refreshes, starts, stops or reboots that instance. The tool polls the
instance status until the operation has taken effect. This project models
the parts of the tool that make decisions, and proves what they promise:

- **The operation loop** (`performOperation` in `src/index.js`):
  - the confirmation guard;
  - dispatch of the remote call;
  - a poll loop of at most sixty status fetches;
  - the status lines it prints;
  - the in-place update of `instance.state`.
- **The region list** (`src/index.js`):
  - its start-up value;
  - the `regions=a,b,c` save format and how it reads back;
  - replacing the list with a selection (`configureRegions`);
  - dropping a region that turned out to be empty;
  - the ordering of a region's instances (`lookupInstances`).
- **The AWS helpers** (`src/lib/aws-utils.js`, `src/lib/aws-utils/index.js`):
  - the per-region client cache;
  - flattening reservations into instance records;
  - the composite status string;
  - the geographic rank of a region and the sorted region list;
  - credential precedence.
- **The file helpers** (`src/lib/file-utils.js`):
  - `changeFileExt` and `fileExt`;
  - the directory computed by `forceDirectories`;
  - the path check of `readDirStats`.

Modules:

| file | module | what it holds |
|---|---|---|
| `wrappers.dfy` | `Wrappers` | `Option` (an absent value) and `Result` (a thrown error) |
| `text.dfy` | `Text` | JavaScript `split`/`join`/`pop`/`indexOf` on strings, ASCII case mapping, lexicographic order |
| `sorting.dfy` | `Sorting` | `Array.prototype.sort` with a comparator: sorted and a permutation |
| `aws_utils.dfy` | `AwsUtils` | `ec2Handle`, `instances`, `state`, `sortIndex`, `listRegions` |
| `credentials.dfy` | `Credentials` | `config` of both AWS helper files |
| `file_utils.dfy` | `FileUtils` | `changeFileExt`, `fileExt`, `forceDirectories`, `readDirStats` |
| `instance_listing.dfy` | `InstanceListing` | `lookupInstances` |
| `region_list.dfy` | `RegionList` | the `regions` array, `configureRegions`, the empty-region splice, `saveRegions` |
| `orchestrator.dfy` | `Orchestrator` | `capitalize` and `performOperation` |

How effects are modelled:
- The status source is a function `remote: nat -> Observation` from fetch number to result. Each result is one of:
  - a status string;
  - a value that is not a string;
  - a thrown error.
- `remote` deliberately ranges over more than `state` can return: a non-string result may show any text, while `state` only ever yields `[object Object]` or "" (`Orchestrator.Observe`). Every property of the poll loop therefore holds for any status source, including the ones `state` produces.
- The confirmation answer is a boolean input.
- The error thrown by `aws[operation]`, if any, is an `Option` input.
- The printed status lines are an output sequence.
- `performOperation` is specified by the function `Perform`. The method `PerformOperation` runs the loop on an `Instance` object and is proved to agree with it.
- The region list is the `regions` field of a `RegionStore` object. Its methods return the text that `saveRegions` writes.

Behaviour of the code that the model follows:
- Only `stop` and `reboot` ask for confirmation, and only when the instance is not already `stopped`.
- An empty or cancelled selection in `configureRegions` leaves the list as it was. It is saved anyway.
- `state` returns the status array itself when the array is empty. When there is no status array, it returns the whole response.
- In `performOperation` a value that is not a string is still printed as a line. The loop then fails at `state.split(':')` with the error "state.split is not a function", and `instance.state` keeps its last value.
- `regions.splice(regions.indexOf(region), 1)` with a region that is not listed gives an index of -1. It therefore removes the last region. The main loop only offers listed regions, so this does not arise there. The model keeps the behaviour anyway.

## Model

| member | source | states |
|---|---|---|
| Text.JoinSplit | src/index.js:13 | joining the pieces of `s.split(c)` with `c` gives `s` back |
| Text.SplitJoin | src/index.js:141 | splitting the join of `c`-free pieces (at least one) gives the pieces back |
| Text.LastPart | src/lib/file-utils.js:79 | `s.split(c).pop()` is the `c`-free suffix after the last `c`, or all of `s` when `c` does not occur |
| Text.FirstPartMeans | src/index.js:90 | `s.split(c)[0]` is the `c`-free prefix before the first `c`, or all of `s` |
| Text.IndexOf | src/lib/aws-utils.js:119 | `indexOf` is -1 exactly when the element is absent, else the position of its first occurrence |
| Sorting.Sort | src/lib/aws-utils.js:130-132 | sorting with a total-preorder comparator yields an ordered permutation of the input |
| AwsUtils.HandleCache.Handle | src/lib/aws-utils.js:19-25 | an absent region means `us-east-1`; a cached client is returned unchanged; otherwise exactly one new client for that region is added to the cache; every cached client serves the region it is keyed by |
| AwsUtils.NameTag | src/lib/aws-utils.js:66-67 | the name is the value of the first tag keyed `Name`, or "" when there is none |
| AwsUtils.FlattenAt | src/lib/aws-utils.js:54-72 | instance `j` of reservation `r` becomes the record at position (instances in earlier reservations) + `j`, with the argument's region |
| AwsUtils.Instances | src/lib/aws-utils.js:50-73 | the nested push loops produce exactly the flattened records, one per instance, in encounter order |
| AwsUtils.CompositeStatus | src/lib/aws-utils.js:105-111 | the lifecycle name alone when the health status is `not-applicable`, else `name: status`; the text before the first `:` is the name when the name has no colon |
| AwsUtils.State | src/lib/aws-utils.js:95-112 | the whole response exactly when `InstanceStatuses` is missing, the empty list exactly when it is empty, else the composite of the first entry |
| AwsUtils.SortIndex | src/lib/aws-utils.js:116-124 | the rank lies in 0..6 or is 1000; a listed stem (name without the last `-` piece) gives its position; otherwise a listed first piece gives its position; 1000 exactly when neither is listed |
| AwsUtils.RegionPieces | src/lib/aws-utils.js:117-121 | for `first + middle + "-" + last`, the stem is `first + middle` and the first piece is `first` |
| AwsUtils.SortIndexUndashed | src/lib/aws-utils.js:116-124 | a name without `-` is ranked 1000 |
| AwsUtils.RankUsEast | src/lib/aws-utils.js:112-120 | `us-east-1` is ranked 0, by its stem `us-east` |
| AwsUtils.RankUsGovWest | src/lib/aws-utils.js:112-122 | `us-gov-west-1` is ranked 2, by its first piece `us` |
| AwsUtils.RankEuCentral | src/lib/aws-utils.js:112-122 | `eu-central-1` is ranked 4, by its first piece `eu` |
| AwsUtils.RankMeSouth | src/lib/aws-utils.js:112-123 | `me-south-1` is ranked 1000 |
| AwsUtils.RegionLeIsTotalPreorder | src/lib/aws-utils.js:131 | rank, then name, is a total preorder |
| AwsUtils.ListRegions | src/lib/aws-utils.js:126-135 | the region names, as a permutation ordered by rank and then by name |
| Credentials.Resolve | src/lib/aws-utils.js:137-141 | direct keys exactly when both keys are given; a shared-ini profile exactly when a key is missing and a profile is given; nothing otherwise |
| Credentials.SdkConfig.Config | src/lib/aws-utils/index.js:13-18 | the global credentials become the keys, or the profile, by that precedence, and are left untouched when neither applies |
| FileUtils.FileExt | src/lib/file-utils.js:78-80 | the lower-cased text after the last `.` (a suffix without `.`), or the whole lower-cased name |
| FileUtils.ChangeFileExt | src/lib/file-utils.js:46-54 | an empty name is returned as is; otherwise everything up to the last `.` is kept and the last piece becomes `ext`, or `~` + itself when `ext` is empty; with a `.`-free `ext` the pieces are the old ones with only the last replaced, and `fileExt` of the result is `ext` lower-cased |
| FileUtils.ReplaceLastPiece | src/lib/file-utils.js:48-53 | pop, push and join replace exactly the text after the last `.` |
| FileUtils.ReplacedPieceSplits | src/lib/file-utils.js:48-53 | a `.`-free piece pushed in place of the last one splits back as the old front pieces plus itself |
| FileUtils.ForceDirectoriesPath | src/lib/file-utils.js:56-61 | an empty path gives the error string and no directory; otherwise the path itself when its last `/` piece is non-empty and has no `.`, else the text before the last `/` |
| FileUtils.TrimTrailingSlashes | src/lib/file-utils.js:84 | a prefix of the path that does not end in `/`, followed in the path only by `/` |
| FileUtils.ReadDirStatsPath | src/lib/file-utils.js:84-85 | the error is thrown exactly when the path is all slashes (or empty); otherwise the trimmed, non-empty path |
| InstanceListing.InstanceLeIsTotalPreorder | src/index.js:46-49 | state, then lower-cased name, is a total preorder |
| InstanceListing.LookupInstances | src/index.js:44-51 | the fetched instances as a permutation ordered by state, then by lower-cased name |
| RegionList.Load | src/index.js:13 | an absent value gives the four default regions; otherwise comma-free pieces that join back to the value |
| RegionList.DefaultsRoundTrip | src/index.js:13 | the default list, comma-joined, splits back into itself |
| RegionList.SaveText | src/index.js:139-142 | the saved text starts with `regions=` |
| RegionList.SavedValue | src/index.js:13 | a line with the `regions=` key gives the text after it, and only such a line does |
| RegionList.SaveLoad | src/index.js:141 | saving comma-free names and loading again gives the same list, except that a list whose text is empty comes back as the default |
| RegionList.RegionChoices | src/index.js:124-126 | one choice per available region, ticked exactly when the region is already in the list |
| RegionList.RegionStore.constructor | src/index.js:13 | the list starts as the loaded value |
| RegionList.RegionStore.Configure | src/index.js:130-136 | a non-empty selection replaces the list exactly, in order; anything else leaves it; the resulting list is what gets saved |
| RegionList.RegionStore.RemoveEmptyRegion | src/index.js:159-162 | a listed region's first occurrence is removed (one fewer of it, everything else in order); an unlisted one removes the last region; the length drops by one unless the list was empty; the result is saved |
| Orchestrator.Capitalize | src/index.js:15-18 | "" for a non-string; otherwise the same length, the first character upper-cased and the rest unchanged |
| Orchestrator.SpinnerLabel | src/index.js:75 | `Refreshing`, `Starting`, `Stopping` or `Rebooting`, followed by the name |
| Orchestrator.TargetOf | src/index.js:77-79 | `refresh` waits for a character other than a line terminator, `stop` for the prefix `stopped`, `start` and `reboot` for the prefix `running: ok` |
| Orchestrator.HasVisibleMeans | src/index.js:79 | `/./` matches exactly when some character is not a line terminator |
| Orchestrator.Observe | src/lib/aws-utils.js:101-111 | only a composite reply reaches the loop as a status string, with its text |
| Orchestrator.Poll | src/index.js:83-93 | the loop makes at most sixty fetches in all; when it makes none from fetch `k` on, it had already stopped, with the lines and the state untouched and no error; a loop that ends in an error made at least one fetch |
| Orchestrator.PollStopsAtFirstEvent | src/index.js:84-97 | every fetch before the last saw a status short of the target; the last failed, reached the target, or was the sixtieth |
| Orchestrator.PollFirstReached | src/index.js:84-93 | when poll `m` is the first to reach the target, exactly `m + 1` fetches are made, without error, leaving the state named by that status |
| Orchestrator.PollTimesOut | src/index.js:84-93 | when no poll reaches the target, exactly sixty fetches are made, without error, leaving the state named by the last status |
| Orchestrator.PollStateIsLastStatus | src/index.js:84-97 | the final state is named by the last status read successfully, or is the starting state when the first fetch failed |
| Orchestrator.PrintChange | src/index.js:86-89 | printing only a changed status keeps the lines free of repeats and keeps the last line equal to the current status |
| Orchestrator.PollAppends | src/index.js:86-89 | polling only appends to the lines already printed |
| Orchestrator.PollPrintsChanges | src/index.js:83-89 | no status line repeats the one before it, and an initial empty status prints nothing (the one line a non-string value prints before failing is set aside) |
| Orchestrator.PollPrintsStatuses | src/index.js:84-90 | the printed lines are exactly one line per run of equal consecutive statuses read successfully (a status is printed when it differs from the last one printed, and only then), followed by the line of a non-string status the loop failed on |
| Orchestrator.PrintedRepeat | src/index.js:86-89 | the same status read twice in a row is printed at most once |
| Orchestrator.Perform | src/index.js:64-99 | confirmation is asked exactly for `stop`/`reboot` of a non-stopped instance; declining does nothing at all; `aws[operation]` is called exactly for a non-`refresh` operation that was not declined; a dispatch error ends the run with no fetch, no line and no state change; otherwise the fetches, lines, state and outcome are those of the poll loop started from fetch 0 with nothing printed; at most sixty fetches |
| Orchestrator.Instance.constructor | src/lib/aws-utils.js:69 | the object carries the id, name, region and state of the listed instance |
| Orchestrator.PerformOperation | src/index.js:64-99 | the loop does what `Perform` specifies, and `instance.state` is left at the run's final state |
| Orchestrator.RefreshStopsAtFirstVisible | src/index.js:79-91 | `refresh` asks nothing, calls nothing, and stops at the first status with a visible character, in the state it names |
| Orchestrator.StartPollsPending | src/index.js:84-92 | the statuses `pending` and `running: initializing` are both printed and both fall short of `running: ok` |
| Orchestrator.StartPollsReady | src/index.js:84-91 | a `running: ok` status is printed, ends the loop and leaves the instance `running` |
| Orchestrator.StartPolls | src/index.js:83-93 | while waiting for `running: ok`, the statuses `pending`, `running: initializing`, `running: ok` take three fetches, print three lines and leave the instance `running` |
| Orchestrator.StartScenario | src/index.js:64-93 | `start` through `pending`, `running: initializing`, `running: ok` makes one call, three fetches and three lines, and ends in `running` |

## Left out

- The AWS SDK calls are left out: `ec2Promise`, `ec2Operation`, the describe/start/stop/reboot requests, and the response unwrapping inside `stop`. The only parts modelled are the status source, the dispatch error, and the reservations and status responses they produce.
- The prompts and the choosers are left out. Confirmation and selection are input values; `src/lib/prompts.js` is not part of this model.
- The `ora` spinner, console output other than the status lines, `sleep`, and async scheduling are left out. They are presentation and timing.
- The outer `while (true)` loop, the `/add regions/i` test and `process.exit` are left out.
- `.env` loading by dotenv and `writeFile` are left out. Only the text format is modelled. `RegionList.SavedValue` assumes the line comes back verbatim, without dotenv's trimming or quote handling.
- The file-system wrappers are left out: `deleteFile`, `fileExists`, `mkdir`, and the directory walk and `stat` calls of `readDirStats`.
- `localeCompare` is modelled as lexicographic order on character codes. Locale collation is not modelled.
- `toLowerCase` and `toUpperCase` are modelled for ASCII letters only.
- A JavaScript value that is `undefined` or the empty string is written as "" (or `None` where `undefined` differs from "").
- `HandleCache.Handle` does not model plain-object key quirks, such as `__proto__` as a region name. It also leaves out the `name` record and the API version.
- `AwsUtils.State`: the fallbacks for an `InstanceState` without `Name` and an `InstanceStatus` without `Status` are not modelled. Each entry carries both as strings.
- `AwsUtils.Instances` assumes every instance has `Tags` and `State.Name`. The source would throw on missing `Tags`.
- `Orchestrator.Observe` shows the whole response as `[object Object]` and the empty status array as "". This is JavaScript's default string conversion.
- `Sorting.Sort` is a stable insertion sort, but its stability is not stated as a property.
- Worked examples of `changeFileExt` (`a.b.txt` with `bak`, `a.txt`, `abc`) and of `config` (keys `A`/`B` with profile `P`) are covered only by the general contracts of `FileUtils.ChangeFileExt` and `Credentials.Resolve`.
- `RegionList.RegionStore` does not keep regions unique, because the source does not either.
