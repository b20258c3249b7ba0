# Models of the algorithms and state machines of pi-crew

pi-crew coordinates teams of agents. This project models the parts of it that work by an algorithm or
as a state machine, and proves what they promise, for all inputs or all runs:

- `edit_distance.dfy`: the distance that typo correction uses is the length of a shortest edit script.
- `bitmap.dfy`, `moore_trace.dfy`, `moore_outline.dfy`, `moore_return.dfy`, `flood_fill.dfy`, `row_bands.dfy`,
  `simplify.dfy`, `smooth.dfy`, `frame.dfy`: the tracing of sprites into outlines.
- `text.dfy`, `blocks.dfy`, `block_order.dfy`, `markers.dfy`, `guidance.dfy`, `guidance_laws.dfy`,
  `guidance_removal.dfy`, `guidance_twice.dfy`: a text file as an ordered map of guidance blocks.
- `json.dfy`, `json_depth.dfy`, `known_keys.dfy`, `record_heap.dfy`, `unset_path.dfy`, `update_config.dfy`:
  nesting depth, and writing a configuration without losing unknown keys, on values and on objects that are
  changed in place.
- `config_values.dfy`, `config_merge.dfy`, `sanitize.dfy`, `load_config.dfy`, `config_cache.dfy`: layered
  configuration, what a project may not influence, and the cache.
- `notifier.dfy`, `notifier_laws.dfy`, `notifier_notices.dfy`: at most one notice for each finished run, under a bounded memory.
- `quiet_hours.dfy`, `router.dfy`, `router_laws.dfy`: filtering, dedup, batching and eviction of notifications.
- `rate_limit.dfy`: the sliding window of run requests.
- `knowledge.dfy`: sections of the knowledge file and what is shown of them under a budget.
- `wrappers.dfy`, `sorting.dfy`: the option type and the stable sort.

Code that updates fields or arrays is a class or a method here, proved equal to a function; the laws
are about that function. `dafny verify dfyconfig.toml` checks everything.

Text is a sequence of characters, JSON a tree, time an integer that does not go back, coordinates are
exact reals and distances are squared. The clock, the contents of files, the list of runs and the
liveness of processes are inputs.

## Where the code does something else than one would expect

- **The boundary walk stops at the first return to its start pixel**, not at the return to its first
  stance. It is cut short exactly if the start has ink below it on both sides and the pixel straight below it
  is open to the outside (`MooreReturn.WalkIsWholeIff`); then the left arm, which is on the outer edge and next
  to the start, is not on the contour (`MooreReturn.CutLosesLeftArm`).
- **The last row of each band is not scanned.** `detect_rows` returns inclusive ends and the main loop hands
  them on as exclusive ones (`RowBands.LastRowIsNotScanned`).
- **Injecting the same blocks twice is idempotent unless an id is overtaken**: emptied and filled again in one
  list, before another id of its priority is put that comes after it the first time. `GuidanceTwice.InjectTwice`
  gives the exact condition and `GuidanceTwice.RefilledIsOvertaken` a list on which it fails.
- **A project can take a default of a user-only key away.** The parser leaves keys it does not find
  `undefined` in a block, `.pi/pi-crew.json` is the base of the merge so they stay, and they then hide the
  default. The comments at src/config/config.ts:477-480 say that sensitive fields cannot be influenced;
  `LoadConfig.IndependentOfDefaultIff` says exactly when that holds and `LoadConfig.DefaultTakenAway` gives a
  file for which it does not.
- **A notice whose `notify` throws is lost.** The id is remembered before the call, and the errors of an
  outdated context are swallowed (src/extension/async-notifier.ts:223-260), so the run is never told in this
  generation: `NotifierLaws.EveryFinishIsTold` is exact about that, `NotifierLaws.ThrownNoticeIsLost` a case.
- **At-most-once notices need a bounded seed.** 218 remembered runs are safe and 219 are not, although the
  memory holds 256 (`NotifierLaws.AtMostOneNotice`, `NotifierLaws.SeedBoundIsExact`).

## Model

| member | source | states |
|---|---|---|
| `EditDistance.Levenshtein` | src/config/suggestions.ts:16-44 | the two swapped rows return `Distance(a, b)` for every two strings whose lengths fit the cells; no cell ever wraps |
| `EditDistance.DistanceIsAttained` | src/config/suggestions.ts:16-44 | some edit script of exactly that length turns one string into the other |
| `EditDistance.DistanceIsLeast` | src/config/suggestions.ts:16-44 | no edit script between the two strings is shorter |
| `EditDistance.DistanceTriangle` | src/config/suggestions.ts:16-44 | the triangle inequality |
| `EditDistance.DistanceSymmetric` | src/config/suggestions.ts:16-44 | the distance is the same in both directions |
| `EditDistance.DistanceZeroOnlyForEqual` | src/config/suggestions.ts:16-44 | the distance is zero exactly for equal strings |
| `EditDistance.DistanceBounds` | src/config/suggestions.ts:16-44 | the distance lies between the difference of the lengths and the longer length |
| `EditDistance.FindClosestKey` | src/config/suggestions.ts:52-68 | the first of the keys at least distance, if it is within the limit, otherwise nothing |
| `MooreTrace.StepIsInjective` | scripts/build-crew-vibes-font.py:126-133 | two stances from which the search arrives at the same stance are the same |
| `MooreTrace.StepIsTotal` | scripts/build-crew-vibes-font.py:126-133 | from a stance whose back direction points at ink the search always finds a pixel |
| `MooreTrace.WalkIsDistinct` | scripts/build-crew-vibes-font.py:124-138 | no stance comes twice on a walk that has not returned to its start |
| `MooreTrace.WalkLength` | scripts/build-crew-vibes-font.py:124-138 | such a walk has at most eight stances for each inked pixel, so the unbounded loop ends |
| `MooreTrace.FindFirstInk` | scripts/build-crew-vibes-font.py:110-119 | the first inked pixel in reading order, or nothing if there is no ink |
| `MooreTrace.Trace` | scripts/build-crew-vibes-font.py:109-139 | for every bitmap the walk ends and its contour is that of a full walk from the first inked pixel; a lone pixel is its own contour |
| `MooreOutline.ContourIsClosedChain` | scripts/build-crew-vibes-font.py:121-139 | the contour consists of ink, its neighbours, and its last and first point, touch each other |
| `MooreOutline.FullWalkIsUnique` | scripts/build-crew-vibes-font.py:124-138 | the image has one full walk, so the contour depends on nothing else |
| `MooreOutline.ContourFollowsOuterEdge` | scripts/build-crew-vibes-font.py:109-139 | each contour point touches, along an edge, an empty pixel connected to the outside: holes are not traced |
| `MooreReturn.WalkIsWholeIff` | scripts/build-crew-vibes-font.py:124-138 | the walk returns to the very stance it set out with, so that it is a whole cycle of the step, exactly unless the start has ink below it on both sides and the pixel straight below it is connected to the outside |
| `MooreReturn.CutLosesLeftArm` | scripts/build-crew-vibes-font.py:136-137 | on every such image the inked pixel below the start on the left is not on the contour, although it touches the start and an outside pixel |
| `MooreReturn.ForkIsCutShort` | scripts/build-crew-vibes-font.py:136-137 | on a picture of two arms the contour is the start and the right arm |
| `FloodFill.Fill` | scripts/build-crew-vibes-font.py:69-79 | the stack loop takes exactly the component of its seed, each pixel once |
| `FloodFill.ScanPixel` | scripts/build-crew-vibes-font.py:68-81 | one step of the scan: the census of the components met so far grows by the new pixel's, if it is large enough |
| `FloodFill.ConnectedComponentsInBand` | scripts/build-crew-vibes-font.py:63-83 | exactly the bounding boxes of the 4-connected components with at least the least area, each once, ordered by left edge |
| `FloodFill.BoxesAreComponents` | scripts/build-crew-vibes-font.py:63-83 | each large component has its smallest box among the results, each result is one, and they are ordered by left edge |
| `FloodFill.BoxesAreUnique` | scripts/build-crew-vibes-font.py:63-83 | the image has one list of boxes: nothing depends on the order in which the fill takes pixels |
| `FloodFill.ConnectedSym` | scripts/build-crew-vibes-font.py:75-79 | being connected is symmetric |
| `FloodFill.SameComponent` | scripts/build-crew-vibes-font.py:72-79 | connected pixels have one component, so components do not overlap |
| `FloodFill.ClosedReachableIsComponent` | scripts/build-crew-vibes-font.py:72-79 | a set that is closed under neighbours and reached from a seed is the component of the seed |
| `RowBands.FindTallRuns` | scripts/build-crew-vibes-font.py:42-53 | exactly the longest stretches of inked rows that are tall enough, in order |
| `RowBands.JoinRuns` | scripts/build-crew-vibes-font.py:54-60 | the bands partition the runs: neighbours within the gap share a band, others do not |
| `RowBands.DetectRows` | scripts/build-crew-vibes-font.py:40-60 | the bands are the joined tall stretches of the image |
| `RowBands.LastRowIsNotScanned` | scripts/build-crew-vibes-font.py:286-288 | the last row of each band, always inked, is outside the band that the program scans, because an inclusive end is passed as an exclusive one |
| `Simplify.SqDistIsNearest` | scripts/build-crew-vibes-font.py:142-147 | the clamped projection gives the least squared distance from the point to any point of the segment |
| `Simplify.DouglasPeucker` | scripts/build-crew-vibes-font.py:150-162 | the scan for the farthest point and the two recursive calls compute `Simplified`, for every tolerance that is not negative |
| `Simplify.FlatOrSplit` | scripts/build-crew-vibes-font.py:150-162 | a chain whose inner points are all within the tolerance of the segment between its ends becomes these ends; every other one is split at the first of the inner points farthest from that segment, which is kept |
| `Simplify.SimplifiedFits` | scripts/build-crew-vibes-font.py:150-162 | the result selects points in order and keeps both ends, and every point passed over is within the tolerance of the segment that replaces it |
| `Simplify.SimplifiedTwice` | scripts/build-crew-vibes-font.py:150-162 | simplifying a second time changes nothing |
| `Smooth.Chaikin` | scripts/build-crew-vibes-font.py:165-175 | the loops compute `Smoothed` |
| `Smooth.CutPoints` | scripts/build-crew-vibes-font.py:165-175 | each segment gives the points a quarter and three quarters of the way along it |
| `Smooth.SmoothedEnds` | scripts/build-crew-vibes-font.py:165-175 | both ends stay and the number of points doubles with each round, so a closed outline stays closed |
| `Smooth.SmoothedStaysIn` | scripts/build-crew-vibes-font.py:165-175 | whatever half plane holds all points holds all new points |
| `Smooth.OutlineStaysInHull` | scripts/build-crew-vibes-font.py:191-193 | simplifying and smoothing any chain of points never leaves a half plane that holds the points |
| `Frame.Draw` | scripts/build-crew-vibes-font.py:187-195 | for every bitmap: the traced contour, closed by its first point, is simplified and smoothed, and dropped if it is too short |
| `Frame.OutlineIsClosedInHull` | scripts/build-crew-vibes-font.py:187-195 | what is drawn is closed, begins at the first inked pixel and stays in every half plane that holds the ink; there is an outline exactly if at least six pixels were traced, so the second test of the length never fails |
| `Markers.ParseExistingBlocks` | src/config/markers.ts:100-113 | the loop over the matches collects them into an ordered map, as `ParseBlocks` does |
| `Markers.MatchesJoined` | src/config/markers.ts:77-80 | the matches in printed blocks are the blocks, whatever other tags or newlines their contents hold |
| `Markers.ParsePrinted` | src/config/markers.ts:77-80 | parsing what was printed gives the blocks back in printed order, for all distinct ids and contents without their own closing tag |
| `Markers.ParsedIsReadable` | src/config/markers.ts:100-113 | whatever the text, what is parsed can be printed and parsed again: ids are distinct and no content holds its own closing tag |
| `Markers.TextIsPassedOver` | src/config/markers.ts:100-113 | text in front of a block or between blocks does not change what is read, as long as it holds no `<` |
| `Markers.CollectKeepsLast` | src/config/markers.ts:104-112 | of the blocks found for an id the last one is kept |
| `Markers.CollectKeepsOrder` | src/config/markers.ts:104-112 | the blocks are in the order in which their ids were first found |
| `Blocks.MergeIsMerged` | src/config/markers.ts:178-192 | merging a list keeps, changes, deletes and appends exactly the right ids, and orders them by when they were first put |
| `BlockOrder.RoundIsRanked` | src/config/markers.ts:77-80 | a round of injection leaves the blocks ranked by descending priority, then by birth |
| `BlockOrder.SecondRoundAgrees` | src/config/markers.ts:178-213 | a second round with the same list gives the same blocks if and only if no id is overtaken, that is, emptied and filled again before another id of its priority is put that is never emptied |
| `Guidance.MergeBlocks` | src/config/markers.ts:174-192 | the loop over the requested blocks computes `Merge` |
| `Guidance.GuidanceFile.Inject` | src/config/markers.ts:136-227 | the new text is `InjectedText`, what is reported as added and removed is what was put and deleted, nothing if there is no marker and no block, and an invalid id changes nothing |
| `Guidance.GuidanceFile.Remove` | src/config/markers.ts:237-290 | the new text is `RemovedText`; what is reported is `Dropped` for listed ids, and without a list the ids of all opening tags in the section |
| `Markers.ExtractGuidanceIds` | src/config/markers.ts:85-95 | the loop collects the ids of the opening tags |
| `Markers.OpenIdsOfTag` | src/config/markers.ts:85-95 | the id of an opening tag comes, and then those of what follows it |
| `Markers.OpenIdsPassOver` | src/config/markers.ts:85-95 | text without `<` is passed over |
| `GuidanceLaws.WriteThenRead` | src/config/markers.ts:118-121 | a section that was written is found again, with its blocks in printed order and the text outside it unchanged up to newlines at the seams |
| `GuidanceLaws.WrittenByLetter` | src/config/markers.ts:77-121 | what is written for two blocks, letter by letter |
| `GuidanceLaws.AddedAreRequested` | src/config/markers.ts:174-190 | reported as added are exactly the ids requested with a content |
| `GuidanceLaws.DeletedWereThere` | src/config/markers.ts:174-190 | reported as removed are exactly the ids that some request empties while they are there |
| `GuidanceLaws.InjectRefinesMap` | src/config/markers.ts:136-227 | injection refines an ordered map, for every list whose ids are accepted: the blocks read afterwards are the old ones overridden, deleted on empty content and stably sorted by priority; the text around the section is the same but for newlines at the seams |
| `GuidanceTwice.InjectTwice` | src/config/markers.ts:136-227 | injecting the same list twice leaves the file unchanged if and only if no id is overtaken |
| `GuidanceTwice.RefilledIsOvertaken` | src/config/markers.ts:178-213 | in every file without a block `y` the list that empties `x`, fills it and then puts `y` gives another text the second time |
| `GuidanceTwice.InjectTwiceEmpty` | src/config/markers.ts:203-210 | where the list leaves no block, a second injection changes nothing if and only if the file had no section, or what is left without it has no start marker, or no section and no newline at its end, or a section as it is printed with blocks none of which is listed |
| `GuidanceTwice.SectionsGoOneByOne` | src/config/markers.ts:203-210 | with two sections in the file such a list takes out one at a time |
| `GuidanceRemoval.InjectThenRemoveAll` | src/config/markers.ts:202-263 | injecting into a file without markers and removing the section gives the text back with its trailing newlines normalised to one |
| `GuidanceRemoval.SectionTakenOut` | src/config/markers.ts:203-256 | a removal without ids, or an injection that leaves no block, keeps exactly the text before the section, without the newlines at its end, and the text after it |
| `GuidanceRemoval.FoundIsAround` | src/config/markers.ts:150-166 | every text in which a section is found is text, start marker, inner text, end marker, text: the markers never overlap |
| `GuidanceRemoval.RemoveNoneOrAll` | src/config/markers.ts:244-283 | listing no id that is there changes nothing, and neither does a file without a section; listing all that are there takes the whole section out |
| `GuidanceRemoval.DroppedAreListed` | src/config/markers.ts:265-272 | reported as removed is each listed id that was there, once, in the order of the list |
| `GuidanceRemoval.DropAllIsWithout` | src/config/markers.ts:265-272 | removing ids leaves exactly the other blocks in their order |
| `GuidanceRemoval.RemoveKeepsOthers` | src/config/markers.ts:265-290 | where some listed id is there and some block is not listed, the other blocks stay, in order, and the text around the section the same but for newlines at the seams |
| `JsonDepth.MeasureJsonDepth` | src/config/config.ts:297-313 | the walk with an explicit stack measures the recursive nesting depth of every tree |
| `JsonDepth.DepthIsLongestChain` | src/config/config.ts:290-313 | the depth of a container is the length of the longest chain of containers, each in the one before, that begins with it |
| `KnownKeys.CloneReads` | src/config/config.ts:347-355 | a record the depth guard accepts is cloned without losing anything but dangerous keys: every safe path reads as before |
| `KnownKeys.CloneHidesDangerous` | src/config/config.ts:347-355 | no path through a dangerous key reads anything in a clone |
| `KnownKeys.OverlayReads` | src/config/config.ts:358-373 | a path reads as in the source where the source defines it or blocks it, and as in the target where the source is silent |
| `KnownKeys.OverlayKeepsOut` | src/config/config.ts:358-373 | behind a dangerous key the overlay reads as the target wherever the target has a record, and as the source where only the source has one, which is taken as it is |
| `KnownKeys.PreserveReads` | src/config/config.ts:335-373 | what is written reads as parsed where parsed defines a value, at the path or before it, and otherwise as on disk, dangerous keys aside |
| `KnownKeys.PreserveKeepsKeyOrder` | src/config/config.ts:335-373 | the keys on disk keep their order and new ones follow |
| `RecordHeap.CloneRawRecord` | src/config/config.ts:347-355 | on objects: the clone holds `Clone` of the record in new objects, and no object there was is changed |
| `RecordHeap.OverlayKnownKeys` | src/config/config.ts:358-373 | on objects: the target is overlaid in place, its nested records included, and only its own objects are changed, although records of the source are put in by reference |
| `RecordHeap.PreserveUnknownKeys` | src/config/config.ts:335-338 | on objects: the result holds `Preserve`, the raw and the parsed record are as before, and the result shares objects with the parsed record only |
| `UnsetPath.UnsetReads` | src/config/config.ts:260-277 | below an unset path nothing is read, and every path that neither leads to it nor goes through it reads as before |
| `UnsetPath.PartsIffSpelled` | src/config/config.ts:268 | splitting a dotted path yields exactly the parts it spells: pieces without dots, of which the empty ones vanish |
| `UnsetPath.PartsComeBack` | src/config/config.ts:268 | a list of parts that are neither empty nor hold a dot comes back from its dotted text, and only such parts come out of any text |
| `UnsetPath.UnsetPath` | src/config/config.ts:260-277 | on objects: the walk down the path and the deletion at its end compute `Unset`, and nothing changes where a part is refused or the path ends early |
| `UpdateConfig.ToWrite` | src/config/config.ts:552-554 | on objects: what is written is the parsed configuration over a clone of the disk from which the paths are unset; the record that was read stays as it was |
| `UpdateConfig.UnknownKeysSurvive` | src/config/config.ts:552-554 | for unset paths given by the parts that their texts spell: where the parsed configuration is silent, an unset path is gone from what is written, and every other path reads as on disk, a record being still a record and, if no unset path leads into it, the clone of the one on disk |
| `ConfigMerge.MergeReads` | src/config/config-merge.ts:8-190 | each leaf of a merged configuration, at the depth to which its section is merged, is the override's where that defines it and the base's otherwise |
| `ConfigMerge.MergedByName` | src/config/config-merge.ts:8-190 | by their names: in these sixteen sections, and in these five records inside them, a key of the layer below survives next to those of the layer on top; elsewhere the value on top replaces the other |
| `ConfigMerge.BadHeaderTakesAll` | src/config/config-merge.ts:148-186 | one header that fails validation takes all headers of the merged layers away |
| `ConfigMerge.MergeAssociative` | src/config/config-merge.ts:8-190 | merging is associative for typed configurations whose OTLP headers pass validation |
| `ConfigMerge.MergeIdentity` | src/config/config-merge.ts:8-190 | the empty configuration is an identity of merging, up to absent and `undefined`, exactly for the typed configurations whose headers pass validation and whose overrides and headers hold a value |
| `ConfigMerge.MergeTyped` | src/config/config-merge.ts:8-190 | merging typed configurations gives a typed one |
| `Sanitize.GroupPathsBySection` | src/config/sanitize-project-config.ts:89-100 | the loop groups the paths as `GroupsOf` does |
| `Sanitize.GroupsHoldPaths` | src/config/sanitize-project-config.ts:89-100 | a key is in the group of a section exactly if the path is one of the given ones |
| `Sanitize.SplitAtFirstDot` | src/config/sanitize-project-config.ts:92-94 | the section of a path is what stands before its first dot, if it has one |
| `Sanitize.RedactSection` | src/config/sanitize-project-config.ts:142-152 | one section loses its sensitive keys, by deletion or assignment, and collapses when nothing is left |
| `Sanitize.TightenSection` | src/config/sanitize-project-config.ts:166-175 | one section loses the values that would loosen a guard |
| `Sanitize.SanitizeProjectConfig` | src/config/sanitize-project-config.ts:115-178 | the two passes compute `Sanitized`, whatever the order in which the sections are taken |
| `LoadConfig.TopIsDropped` | src/config/sanitize-project-config.ts:120-135 | no sensitive top-level key has a value after sanitizing |
| `LoadConfig.KeyIsDropped` | src/config/sanitize-project-config.ts:139-153 | no sensitive key of a section has a value after sanitizing |
| `LoadConfig.HarmlessSurvives` | src/config/sanitize-project-config.ts:115-178 | in every section, a key that is not sensitive, by itself or with its section, and does not loosen a guard reads after sanitizing as in the file |
| `LoadConfig.HarmlessTopSurvives` | src/config/sanitize-project-config.ts:120-178 | a top-level key that is not sensitive keeps its value, if that is no record, or one into which no sensitive path leads and that holds no guard |
| `LoadConfig.GuardsByName` | src/config/sanitize-project-config.ts:56-73 | by their names: none of the seven guards is loose in what is left of a project file |
| `LoadConfig.BlockAfterSanitizing` | src/config/sanitize-project-config.ts:115-178 | what the two passes make of a block with defaults: it is dropped or keeps exactly its keys without a value and its values that are neither sensitive nor loosen a guard |
| `LoadConfig.LayeredSensitive` | src/config/config.ts:459-492 | at a sensitive key of a section the layered configuration reads as the user's layers alone do |
| `LoadConfig.SensitiveWithDefault` | src/config/config.ts:493-507 | the exact value of a sensitive key of the sections with defaults: the environment, else what the user says, else nothing if a project file takes the default away, else the default |
| `LoadConfig.IndependentOfProject` | src/config/config.ts:426-507 | for any user and legacy files and any two choices of the project files the loaded configuration has the same value at a sensitive key of any section, unless a choice takes a default away |
| `LoadConfig.IndependentOfDefaultIff` | src/config/config.ts:477-504 | at a sensitive key of a section with defaults two choices of the project files agree if and only if the environment or the user settles it, there is no default, or both or neither leave the key `undefined` in a block of which something is left |
| `LoadConfig.DefaultTakenAway` | src/config/config.ts:483-504 | a `.pi/pi-crew.json` that only sets `nesting.maxSlots` takes the default of the sensitive `nesting.enabled` away |
| `LoadConfig.TopLevelIndependent` | src/config/config.ts:426-507 | at a sensitive top-level key, a whole section with or without defaults included, any two choices of the project files give the same value; without defaults it is the user's |
| `LoadConfig.GuardsStayTight` | src/config/config.ts:450-507 | a guard of the conditional table is loose in the result only if the user's layer or the environment loosened it |
| `LoadConfig.FirstDefinedWins` | src/config/config.ts:459-507 | a leaf of which sanitizing takes nothing is loaded as the first one defined among the user's, the legacy, the crew-root and the `.pi/pi-crew.json` file themselves; in a section with defaults, if there is one and the environment does not switch the key |
| `LoadConfig.FirstLeftWins` | src/config/config.ts:459-492 | before the defaults every leaf at all is the first one defined among the user's file, the legacy file and what sanitizing leaves of the two project files |
| `ConfigCache.Cache.SetConfigCache` | src/config/config.ts:148-157 | storing puts the entry and drops every entry that is too old |
| `ConfigCache.Cache.Load` | src/config/config.ts:435-448 | a hit returns the stored value and leaves its age; a miss reads the files and stores the result if a watched file exists |
| `ConfigCache.AnswersAreRecent` | src/config/config.ts:426-519 | over every run of writes, loads, updates and clock ticks, what a load returned was read at most the lifetime before, under the modification times of the load |
| `ConfigCache.AnswersAreFresh` | src/config/config.ts:426-519 | over every run in which modification times tell contents apart, each load returned what reading the files at that moment yields |
| `ConfigCache.LoadIsRemembered` | src/config/config.ts:435-448 | over every run a key that was loaded before is answered in the same way as long as the entry is young enough and the watched files have the same times, if no update wrote and the key was not loaded in between |
| `ConfigCache.UpdateIsSeen` | src/config/config.ts:561-569 | over every run the first load of a key after an update that wrote returns what reading the files at that moment yields, whatever the modification times |
| `ConfigCache.NothingOlderThanUpdate` | src/config/config.ts:561-569 | over every run nothing that was read before an update that wrote is returned after it |
| `Notifier.AsyncNotifier.AddSeenFinishedRunId` | src/extension/async-notifier.ts:43-50 | the id is added and the oldest ids are evicted above the capacity |
| `Notifier.AsyncNotifier.Start` | src/extension/async-notifier.ts:173-202 | the seeding loop computes `Seeded` from the owned runs and nothing is cached yet |
| `Notifier.AsyncNotifier.Tick` | src/extension/async-notifier.ts:207-260 | one tick refreshes the list if it is due and visits its runs in order, up to the run at which it is interrupted, be it by an error of `notify` after the id was added or before |
| `NotifierLaws.StartSeeds` | src/extension/async-notifier.ts:191-201 | a notifier that is new or was stopped remembers the newest owned runs that had finished before, and these are within the safe bound exactly if at most 218 had |
| `NotifierLaws.FormerAre` | src/extension/async-notifier.ts:191-201 | the former finishes are those of runs of this session or of nobody that had ended and were last updated before the notifier was stopped, or before now |
| `NotifierNotices.PolledIsFull` | src/extension/async-notifier.ts:213-221 | every owned run among the newest 40 is polled, unless 20 newer ones are |
| `NotifierNotices.ListIsRecent` | src/extension/async-notifier.ts:214-221 | what is polled after a tick is the list of that tick or of one at most 30 seconds before |
| `NotifierNotices.NoticesTellStatus` | src/extension/async-notifier.ts:222-250 | over every run each call of `notify` names a run that some tick found finished, with the status it found and the level for that status |
| `NotifierLaws.StillRemembered` | src/extension/async-notifier.ts:41-50 | over every run the id of a polled run that was ever inserted is still remembered, although the memory is bounded |
| `NotifierLaws.AtMostOneNotice` | src/extension/async-notifier.ts:207-251 | in one generation `notify` is called at most once for a run, never for one that was remembered at the start, and only for owned runs that are no turns of a goal loop |
| `NotifierLaws.EveryFinishIsTold` | src/extension/async-notifier.ts:213-260 | a finished run that a tick got to has its notice if and only if it was not remembered at the start, is no turn of a goal loop, and the call of `notify` for it did not throw |
| `NotifierLaws.ThrownNoticeIsLost` | src/extension/async-notifier.ts:222-260 | a run in which `notify` throws once for a run and a complete tick that follows does not give the notice |
| `NotifierLaws.SeedBoundIsExact` | src/extension/async-notifier.ts:41-50 | from 219 remembered ids on, up to the capacity, there is a run in which notice is given of a run that had finished before the start |
| `QuietHours.ParsesExactlyRanges` | src/extension/notification-router.ts:34-50 | exactly the texts of ranges are parsed, each to its range; all others throw |
| `QuietHours.QuietHoursAreCircular` | src/extension/notification-router.ts:52-57 | a minute is quiet exactly if it is reached from the start, going around the clock, before the end is |
| `Router.NotificationRouter.EvictSeenIfNeeded` | src/extension/notification-router.ts:87-96 | above the capacity the loop deletes the oldest entries |
| `Router.NotificationRouter.Enqueue` | src/extension/notification-router.ts:98-149 | the new state and the answer of one call: clear, filter, quiet hours, dedup window, batching |
| `Router.NotificationRouter.Flush` | src/extension/notification-router.ts:151-173 | the waiting notifications are delivered, alone or as one summary, and the timer is gone |
| `RouterLaws.SummarySummarizes` | src/extension/notification-router.ts:164-171 | a summary's body is the titles of its items in order, each with its bullet, on lines of their own; its id holds their keys with commas between, its title their number, and its severity is the highest of theirs |
| `RouterLaws.KeysTellApart` | src/extension/notification-router.ts:59-61 | notifications without id whose sources and runs hold no colon have one key exactly if they agree in source, run and title |
| `RouterLaws.AcceptedIsHandedIn` | src/extension/notification-router.ts:98-105 | what is accepted is what was handed in, with the time of the call if it had none |
| `RouterLaws.RouterConserves` | src/extension/notification-router.ts:98-173 | over every run each accepted notification was delivered exactly once, in order, or still waits; a timer is set exactly if one waits; each delivery is one notification or a summary that names all it stands for |
| `RouterLaws.BatchSeverityIsHighest` | src/extension/notification-router.ts:63-68 | the severity of a summary is one of its items' and none is more severe |
| `RouterLaws.AcceptancesAreSpaced` | src/extension/notification-router.ts:135-140 | over every run two acceptances of one key, with no clear or eviction of it between them, are at least the dedup window apart, and at most 10000 keys are remembered |
| `RouterLaws.AcceptedIff` | src/extension/notification-router.ts:132-139 | over every run a notification is accepted exactly if it is no clear, passes the filter outside quiet hours, and its key was not accepted less than the window ago or was forgotten since |
| `RouterLaws.ThrowsIff` | src/extension/notification-router.ts:34-50 | a call fails exactly if an unfiltered notification meets quiet hours that are no text of a range |
| `RouterLaws.ClearsFollowAcceptances` | src/extension/notification-router.ts:109-126 | over every run a clear is delivered exactly if its key was accepted and not forgotten since |
| `RouterLaws.EvictionDropsOldest` | src/extension/notification-router.ts:87-96 | above the capacity exactly half of it is kept and nothing newer is dropped than what is kept |
| `RouterLaws.AcceptedIsRemembered` | src/extension/notification-router.ts:139-140 | the key just accepted survives the eviction it causes |
| `RateLimit.RpcRateLimiter.Check` | src/extension/cross-extension-rpc.ts:98-111 | the loop drops the stamps before the window; the answer follows from those left |
| `RateLimit.RpcRateLimiter.Request` | src/extension/cross-extension-rpc.ts:213-221 | one message: the stamps afterwards and the answer |
| `RateLimit.SixAcceptedSpan` | src/extension/cross-extension-rpc.ts:94-115 | over every run any six accepted requests span strictly more than the window |
| `RateLimit.RefusedIffWindowFull` | src/extension/cross-extension-rpc.ts:98-110 | over every run a request is refused exactly when five accepted ones lie in the closed window before it |
| `RateLimit.RetryDelayIsEnough` | src/extension/cross-extension-rpc.ts:105-109 | after a refusal, with no other request between, waiting longer than the reported delay is enough, and waiting no longer than it is not, unless it is the fixed minimum |
| `Knowledge.ParseKnowledgeSections` | src/extension/knowledge-injection.ts:203-247 | the sections take the lines from the first heading on to pieces, each with one heading; the conventions are the longest beginning of sections that are conventions |
| `Knowledge.FromFirstHeadingIs` | src/extension/knowledge-injection.ts:203-223 | lines before the first heading belong to no section |
| `Knowledge.SectionsAreUnique` | src/extension/knowledge-injection.ts:203-229 | there is one way to take lines to pieces like that |
| `Knowledge.ComputeIdf` | src/extension/knowledge-injection.ts:250-257 | each word in a heading has the logarithm of the number of sections over the number of those with the word, and no other word has a weight |
| `Knowledge.FrequencyCounts` | src/extension/knowledge-injection.ts:252-253 | the frequency of a word is the number of sections with the word in their heading |
| `Knowledge.ScoreAddsUp` | src/extension/knowledge-injection.ts:272-276 | the score adds up over the words of the query |
| `Knowledge.ScoreOfWord` | src/extension/knowledge-injection.ts:272-276 | one word of the query scores its weight if it is in the heading, and nothing otherwise |
| `Knowledge.SelectSessionLog` | src/extension/knowledge-injection.ts:282-324 | the loops compute the greedy selection in the order of the ranks, with the fallback to the head of the best match |
| `Knowledge.RankedRanks` | src/extension/knowledge-injection.ts:302 | the best scores come first, equal ones in the order of the file, and no match is lost |
| `Knowledge.GreedyIsStable` | src/extension/knowledge-injection.ts:307-313 | what is chosen among the best k matches is chosen whatever comes after them |
| `Knowledge.SelectionLaws` | src/extension/knowledge-injection.ts:282-324 | a query that matches gets something: whole matching sections within the budget, of which none is passed over that would still fit, or, exactly when no match fits, the head of the matching section with the highest score, the earliest of several |

## Left out

- MooreOutline.ContourFollowsOuterEdge: one inclusion; that a whole walk visits every pixel of the outer edge that is 8-connected to the start is not proved.
- Simplify.DouglasPeucker: the tolerance is not negative, since the source recurses for ever on a negative one; floating-point rounding and `hypot` are left out, squared distances are compared instead.
- Smooth.Chaikin: an empty list, on which the source fails, is excluded; the only caller passes at least two points.
- EditDistance.Levenshtein: lengths below 2^32, as for every string there can be.
- GuidanceLaws.InjectRefinesMap: the file has at most one well-formed section; with an end marker before the start marker, or one marker alone, the source takes the whole file for text.
- LoadConfig.IndependentOfProject: paths of three segments, since the sanitizer splits at the first dot only.
- LoadConfig.TopLevelIndependent: no path goes through a key that is sensitive as a whole, as the schema walk ensures by not descending below a mark.
- ConfigCache.Cache.Load: the order of the entries, which has no effect, and the files changing between reading them and storing their times.
- NotifierLaws.AtMostOneNotice: the list of runs only grows and keeps its order; runs hidden from it by the scan of temporary directories, and runs of two roots interleaving by time of creation, are not part of this model. Ticks do not overlap, as the `ticking` flag ensures.
- RouterLaws.RouterConserves: a `deliver` callback that throws; the `sink` callback; where a clear stands among notifications that still wait in a batch.
- RateLimit.SixAcceptedSpan: counts from the last reset, which the source has for its tests.
- The warnings of the sanitizer and the loader, and their order.
- Knowledge.ParseKnowledgeSections: takes lines; how a text is split into lines, which lines are headings and which headings are conventions is given, and so are the words of a text.
- Knowledge.SelectSessionLog: weights are exact reals and the logarithm is any function that is not negative from 1 on; the caches, caps and notices of `readKnowledge`.
- RecordHeap.OverlayKnownKeys: arrays are values, since none of these functions changes one; properties that a record inherits are not part of this model.
- `failStillActiveTasks`, which maps one flag over a list.
- Given functions: the content sanitizer, the parser of configurations and its schema, the set of sensitive paths, lower-casing and the dangerous keys, the check of OTLP headers. src/schema/config-schema.ts and src/schema/sensitive-config-paths.ts are not part of this model.
- Keys that look like integers, which the host language puts first in a record; the order of keys in merged configurations.
- Reading images, the font, JSON text, file systems, locks and atomic writes.
- Frame.Draw: `trace_frame` also trims, cleans and scales; only its chain of tracing, simplifying and smoothing is modelled.
- Webhooks, the user interface, process control, run stores: plumbing.
