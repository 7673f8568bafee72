# Meal rotation planner — a Dafny model of its planning core

The planner keeps a library of meals and a seven-day week plan. It also keeps
a shopping checklist built from the week. Each meal falls into a recency tier:
cooked within 14 days, within 60 days, or longer ago. The family can vote on
meals, and the winners are spread over the week. This project models the
client-side rules behind all of that and proves what they promise.

- **Utils** (`utils.ts`): the recency tier, the effort colour, the protein
  guessed from a title, and the image address derived from a title.
- **Types** (`types.ts`): the meal and day-slot records, plus id resolution
  with dangling ids dropped.
- **Text**: the JavaScript string operations the code uses, with their
  algebra. These are lowercasing, `includes`, `trim`, `split`/`join` and
  number rendering.
- **Constants** (`constants.ts`): the twelve example meals, built from the
  clock reading at load time.
- **MealsHook** (`hooks/useMeals.ts`): the class `MealLibrary`. Its fields
  are the three state cells plus the browser store and the toasts shown.
  - Its methods are the hook's handlers. Each ends with the persistence
    effects, which write the changed cells through `safeSetItem`.
  - A store that rejects writes (`storageFull`) only produces warnings.
- **App** (`App.tsx`): the vote outcome. Vote counts go up, and three
  round-robin passes over the week are loops, like the `for` loops of
  `handleVotingComplete` in App.tsx.
  Also the dashboard's tier columns sorted by votes, and the search filter.
- **AddMealModal** (`components/AddMealModal.tsx`): the form as a class.
  - Loading a meal into the form, and the tag input.
  - Merging an AI answer into the form.
  - File validation, and what the upload and AI flows change in the form.
  - The record `handleSubmit` saves, with its timestamp policy.
- **ShopList** (`components/ShopList.tsx`): the week's active meals, and the
  `forEach` partition of their items into to-buy groups and a done list.
- **FamilyVoting** (`components/FamilyVoting.tsx`): the ballot, a class with a
  toggle capped at five, and the selection it hands over.
- **CloudSync** (`hooks/useCloudSync.ts`): the fetch merge rule, with its
  write-through to the store, the push guards and the row pushed.
- **WeekTray** and **MealCard** (`components/WeekTray.tsx`,
  `components/MealCard.tsx`): what the tray and a card show.

Every clock read `Date.now()` is a parameter `now`. The answer to
`window.confirm` is a boolean parameter. The store is a `map` from keys to
typed records.

The slot shape is as the code has it:
- `hooks/useMeals.ts` and `hooks/useCloudSync.ts` keep one meal id per day,
  null when empty (`MealsHook.LegacySlot`).
- `App.tsx`, `components/ShopList.tsx` and `components/WeekTray.tsx` use the
  list-of-ids slot of `types.ts` (`Types.DaySlot`).

Where the repository's description speaks of richer behaviour that the hook
shown does not contain, the model follows the code. Examples are the
multi-meal auto-assign with per-day caps and the storage cleanup handler.

## Model

| member | source | states |
|---|---|---|
| Types.Ids | hooks/useMeals.ts:126 | the ids of a meal list, position by position |
| Types.Find | components/ShopList.tsx:24 | absent exactly when no meal has the id; otherwise the first meal of the list with that id |
| Types.Resolve | components/ShopList.tsx:22-25 | at most one meal per id, each a library meal whose id was asked for |
| Types.ResolveAllPresent | components/WeekTray.tsx:72-74 | when every id refers to a meal, nothing is dropped, the order of the ids is kept, and each entry is the first meal with its id |
| Types.ResolveAllDangling | components/ShopList.tsx:22-25 | ids that refer to no meal resolve to nothing |
| Types.ResolveAppend | components/ShopList.tsx:22-25 | resolving concatenated id lists is concatenating the resolutions |
| Text.LowerChar | utils.ts:22 | no upper-case letter remains; other characters are kept |
| Text.Lower | utils.ts:22 | same length, each character lowercased |
| Text.LowerIdempotent | utils.ts:22 | lowercasing twice is lowercasing once |
| Text.IncludesIffOccurs | App.tsx:166-171 | `includes` holds exactly when the substring occurs at some position |
| Text.IncludesEmpty | App.tsx:166 | the empty string is included in every string |
| Text.TrimStart | components/AddMealModal.tsx:103 | a suffix of the input with no leading space, empty exactly for a blank input |
| Text.TrimEnd | components/AddMealModal.tsx:103 | a prefix of the input with no trailing space, what it cuts off being blank |
| Text.Trim | components/AddMealModal.tsx:103 | a substring with no surrounding white space, empty exactly when the input is blank |
| Text.TrimStartSkipsSpace | components/AddMealModal.tsx:103 | everything trimmed from the front is white space |
| Text.Split | components/AddMealModal.tsx:144-148 | one more piece than separators, no piece holding the separator |
| Text.JoinSplit | components/AddMealModal.tsx:58-60 | joining the pieces of a split gives back the string |
| Text.SplitJoin | components/AddMealModal.tsx:146-148 | splitting joined pieces without the separator gives back the pieces |
| Text.SplitNoSeparator | components/AddMealModal.tsx:144 | a string without the separator splits into itself |
| Text.SplitPrefix | components/AddMealModal.tsx:144 | a separator-free piece followed by the separator splits off first |
| Text.DigitChar | App.tsx:151 | a decimal digit character |
| Text.NatToString | App.tsx:151 | a non-empty string of decimal digits |
| Text.ParseNatToString | App.tsx:151 | reading the rendered number gives the number back |
| Text.NatToStringInjective | components/AddMealModal.tsx:138 | distinct numbers render as distinct strings |
| Utils.GetTier | utils.ts:5-10 | high iff the age is at most 14 days, medium iff above 14 and at most 60 days, low iff above 60 days |
| Utils.GetTierBoundaries | utils.ts:7-9 | exactly 14 days is high, one millisecond more medium; exactly 60 days medium, one more low |
| Utils.GetTierMonotonic | utils.ts:5-10 | an older timestamp never gets a more recent tier |
| Utils.EffortColorsDistinct | utils.ts:12-19 | easy, medium and hard get three different classes |
| Utils.EffortColor | utils.ts:12-19 | a Tailwind background class of shade 500 for every effort |
| Utils.FirstMatch | utils.ts:21-29 | the fallback or the answer of some group of the table |
| Utils.DetermineProtein | utils.ts:21-29 | one of the six categories |
| Utils.DetermineProteinIsFirstMatch | utils.ts:21-29 | the chain is the first matching group of the keyword table on the lowercased title |
| Utils.AnyIncludedIffSome | utils.ts:23-27 | a group matches exactly when one of its words occurs |
| Utils.DetermineProteinCaseInsensitive | utils.ts:22 | the answer depends on the title only through its lowercase form |
| Utils.DetermineProteinBeefBeforeChicken | utils.ts:23-24 | a title with both "burger" and "chicken" is Beef |
| Utils.DetermineProteinFallback | utils.ts:28 | with no keyword in the title the answer is 'Pantry / Misc' |
| Utils.HexDigit | utils.ts:34 | a hexadecimal digit, an unreserved character |
| Utils.PercentByte | utils.ts:34 | a three-character `%XX` escape |
| Utils.Utf8 | utils.ts:34 | one to four bytes per character |
| Utils.PercentBytes | utils.ts:34 | three characters per byte, all `%` or unreserved |
| Utils.EncodeUriComponent | utils.ts:34 | only `%` and unreserved characters, at most twelve per input character |
| Utils.EncodeUnreservedIdentity | utils.ts:34 | a string of unreserved characters is left as it is |
| Utils.DetermineImage | utils.ts:31-35 | the address is on the image-search host |
| Constants.Seed | constants.ts:11-23 | an example meal carries its row's id, title and votes, cooked its days before `now` |
| Constants.MealsOf | constants.ts:9-160 | one meal per row, with the row's id, votes and age |
| Constants.SeedRowsFields | constants.ts:9-160 | twelve rows with ids "1" to "12", the listed ages and positive votes |
| Constants.RowFacts | constants.ts:9-160 | meals built from the rows carry the example ids, ages and positive votes |
| Constants.InitialMealsIds | constants.ts:9-160 | twelve example meals with ids "1" to "12" in order |
| Constants.InitialMeals | constants.ts:9-160 | twelve meals, the i-th built from the i-th example row |
| Constants.SeedIdsDistinct | constants.ts:9-160 | the example ids are pairwise distinct |
| Constants.InitialMealsAgesAndVotes | constants.ts:3-4 | every example was cooked a positive whole number of days before `now`, and has a positive vote count |
| Constants.TierOfAge | constants.ts:10 | a meal cooked d whole days ago is high up to 14 days, medium up to 60, low after |
| Constants.AgeTiers | constants.ts:48 | the example ages fall into the bands of their sections |
| Constants.InitialMealsTiers | constants.ts:99 | at `now`, meals 1-3 are high, 4-7 medium and 8-12 low, as the section comments say |
| MealsHook.EmptyWeek | hooks/useMeals.ts:36 | seven empty days labelled with the day names |
| MealsHook.FirstEmpty | hooks/useMeals.ts:66 | the first empty day, or none when every day holds a meal |
| MealsHook.ReplaceById | hooks/useMeals.ts:86 | same length; every meal with the saved id is replaced, the others kept |
| MealsHook.RemoveMeals | hooks/useMeals.ts:98 | the meals kept are exactly those whose id is not removed |
| MealsHook.ClearSlots | hooks/useMeals.ts:100 | same days and labels; a day is emptied exactly when it held a removed id |
| MealsHook.ResetVotes | hooks/useMeals.ts:113 | every meal with zero votes and nothing else changed |
| MealsHook.Without | hooks/useMeals.ts:145 | exactly the items other than the id |
| MealsHook.ToggleItem | hooks/useMeals.ts:142-150 | the id's membership flips, other items keep theirs; an absent id is appended |
| MealsHook.Warnings | hooks/useMeals.ts:11-18 | one storage-full warning per write a full store rejects, none otherwise |
| MealsHook.EffectsCacheState | hooks/useMeals.ts:48-62 | with the store accepting writes, the meals and the week are stored when changed and non-empty, the checklist whenever changed, other keys untouched |
| MealsHook.ApplySingle | hooks/useMeals.ts:13 | an accepted write sets its key |
| MealsHook.WarningsAppend | hooks/useMeals.ts:11-18 | the warnings of consecutive writes are the warnings of each in turn |
| MealsHook.ApplyWellTyped | hooks/useMeals.ts:48-62 | writing the right kind of record under each key keeps the store well typed |
| MealsHook.ApplyAppend | hooks/useMeals.ts:48-62 | consecutive writes compose |
| MealsHook.WarningsThree | hooks/useMeals.ts:48-62 | the three effects' warnings add up |
| MealsHook.ApplyThree | hooks/useMeals.ts:48-62 | the three effects' writes compose |
| MealsHook.ThreeWrites | hooks/useMeals.ts:48-62 | three effects one after the other give the store and warnings of their writes together, keeping the store well typed |
| MealsHook.EffectWritesWellTyped | hooks/useMeals.ts:48-62 | each effect writes its own kind of record under its own key |
| MealsHook.EffectWrites | hooks/useMeals.ts:48-62 | at most three writes, none exactly when no cell with content changed and the checklist did not change |
| MealsHook.Apply | hooks/useMeals.ts:11-18 | a full store takes no write |
| MealsHook.ApplyFrame | hooks/useMeals.ts:11-18 | a key no write names keeps its record, every named key is present, and the last write to a key wins |
| MealsHook.RemoveMealsAppend | hooks/useMeals.ts:98 | removal keeps order: it distributes over concatenation |
| MealsHook.RemoveMealsAbsent | hooks/useMeals.ts:98 | deleting an id no meal has changes nothing |
| MealsHook.RemoveMealsIdempotent | hooks/useMeals.ts:97-101 | deleting twice is deleting once |
| MealsHook.RemoveMealsKeepsIdsDistinct | hooks/useMeals.ts:98 | removal keeps the library's ids distinct |
| MealsHook.HeadNotInTail | hooks/useMeals.ts:145 | in a list without repeats the first item does not recur |
| MealsHook.IdsOfSubset | hooks/useMeals.ts:98 | the ids of a sub-collection of meals are ids of the collection |
| MealsHook.SaveKeepsIdsDistinct | hooks/useMeals.ts:91 | prepending a meal with a fresh id keeps the ids distinct |
| MealsHook.ConsKeepsNoDuplicates | hooks/useMeals.ts:91 | prepending a new item to a list without repeats keeps it without repeats |
| MealsHook.ReplaceByIdKeepsIds | hooks/useMeals.ts:86 | an edit keeps the ids and their order |
| MealsHook.ReplaceByIdStores | hooks/useMeals.ts:86 | an edit of a present id puts the saved record in the library; of an absent id changes nothing |
| MealsHook.DeleteLeavesNoReference | hooks/useMeals.ts:97-101 | after a delete no meal has the id and no day refers to it; other meals and days stay |
| MealsHook.ClearSlotsIdempotent | hooks/useMeals.ts:100 | clearing the same ids twice is clearing them once |
| MealsHook.ResetVotesZero | hooks/useMeals.ts:113 | after a reset every count reads zero, ids and other fields unchanged |
| MealsHook.WithoutAbsent | hooks/useMeals.ts:145 | filtering out an absent item changes nothing |
| MealsHook.ToggleTwice | hooks/useMeals.ts:142-150 | checking then unchecking an item gives back the checklist |
| MealsHook.WithoutAppend | hooks/useMeals.ts:145 | filtering distributes over concatenation |
| MealsHook.ToggleKeepsNoDuplicates | hooks/useMeals.ts:142-150 | toggling keeps a checklist free of repeats |
| MealsHook.WithoutKeepsNoDuplicates | hooks/useMeals.ts:145 | filtering keeps a list free of repeats |
| MealsHook.AddThenRemoveRestoresWeek | hooks/useMeals.ts:65-81 | adding to the first empty day and removing from that day gives back the week |
| MealsHook.MountOutcome | hooks/useMeals.ts:21-62 | after mounting, an accepting store holds the three loaded cells with no warning; a full store keeps what was saved and only warns |
| MealsHook.MountStore | hooks/useMeals.ts:21-62 | the store after the first effects, when it accepts writes, holds the loaded cells |
| MealsHook.AllStorageFull | hooks/useMeals.ts:16 | joined lists of storage-full warnings are storage-full warnings |
| MealsHook.MealLibrary.constructor | hooks/useMeals.ts:21-62 | saved cells are loaded, else the examples, an empty week and an empty checklist; the store then holds all three, or warns when full |
| MealsHook.MealLibrary.SafeSetItem | hooks/useMeals.ts:11-18 | an accepting store takes the value; a full one is unchanged and a warning is shown |
| MealsHook.MealLibrary.Write | hooks/useMeals.ts:48-62 | one effect's write, through `safeSetItem` |
| MealsHook.MealLibrary.Persist | hooks/useMeals.ts:48-62 | the store and warnings of the three effects for the changed cells, in declaration order; well typed stays well typed |
| MealsHook.MealLibrary.PlaceInTray | hooks/useMeals.ts:65-75 | the meal goes into the first empty day with a success toast; with no empty day the week is unchanged and "week is full" is shown |
| MealsHook.MealLibrary.AddToTray | hooks/useMeals.ts:65-75 | only the first empty day changes, then it is persisted; a full week changes nothing and warns |
| MealsHook.MealLibrary.RemoveFromTray | hooks/useMeals.ts:77-81 | only day `index` is emptied, and the week is persisted |
| MealsHook.MealLibrary.SaveMeal | hooks/useMeals.ts:83-95 | an edit replaces by id; a new meal is prepended and offered to the first empty day; the whole toast list of each path (the placement or week-full toast, then the creation toast, then the warnings) and its writes |
| MealsHook.MealLibrary.DeleteMeal | hooks/useMeals.ts:97-102 | the meal leaves the library and its days are emptied, both persisted |
| MealsHook.MealLibrary.ClearWeek | hooks/useMeals.ts:104-122 | confirmed: an empty week, all votes zero, empty checklist, all written; otherwise nothing changes |
| MealsHook.MealLibrary.RemoveDefaults | hooks/useMeals.ts:124-140 | confirmed: exactly the example meals leave and their days are emptied; otherwise nothing changes |
| MealsHook.MealLibrary.ShopToggle | hooks/useMeals.ts:142-150 | the checklist toggles the item and is written |
| MealsHook.MountWithExamples | hooks/useMeals.ts:23-29 | with no saved library the library is the twelve examples, ids "1" to "12" |
| CloudSync.Merge | hooks/useCloudSync.ts:54-68 | meals and week taken from the row only when they are non-empty arrays, the checklist from any array; otherwise local |
| CloudSync.MergeNothingFetched | hooks/useCloudSync.ts:69-71 | no row or an error leaves the local state as it is |
| CloudSync.MergeKeepsContent | hooks/useCloudSync.ts:56-63 | a merge never empties a non-empty library or week |
| CloudSync.MergeIdempotent | hooks/useCloudSync.ts:54-68 | merging the same answer twice is merging once |
| CloudSync.ApplyEffectsTwice | hooks/useCloudSync.ts:54-68 | writing the same effect writes twice leaves the store as after once |
| CloudSync.FetchCloudData | hooks/useCloudSync.ts:46-72 | the cells become the merge; replaced cells are written through, twice, warnings twice |
| CloudSync.FetchCaches | hooks/useCloudSync.ts:56-67 | with the store accepting writes each replaced cell is cached under its key, the others and other keys untouched |
| CloudSync.SaveToCloud | hooks/useCloudSync.ts:76-86 | a row exactly when signed in on a configured backend: the user id and all three collections |
| CloudSync.ListenerCalls | hooks/useCloudSync.ts:97-107 | at most three calls; none exactly without a user or without a changed non-empty library, a changed non-empty week or a changed checklist; a checklist change of a user always calls |
| CloudSync.Pushes | hooks/useCloudSync.ts:76-107 | one row per listener call when signed in on a configured backend, none otherwise, each the user's full state |
| CloudSync.SyncFailedToast | hooks/useCloudSync.ts:92 | an error toast starting "Sync failed: " |
| CloudSync.PushGuards | hooks/useCloudSync.ts:97-107 | nothing pushed without a user or a backend, or for an empty library or week alone; for a signed-in user on a configured backend a change to a non-empty library, to a non-empty week or to the checklist each pushes, one row per listener that fires; every row is the user's full state |
| App.AddVotes | App.tsx:122-127 | each selected meal gains exactly one vote (absent read as zero); all other fields and meals unchanged |
| App.AddVotesKeepsIds | App.tsx:122-127 | the library order and ids are kept |
| App.PassFrom | App.tsx:138-146 | a pass never un-places selections and keeps the number of days |
| App.PassFromShape | App.tsx:138-146 | a pass keeps labels, only appends, at most one per day, only to days with at most `p` ids, and fills every such day while selections remain |
| App.PassFromStops | App.tsx:138-146 | conversely, an eligible day the pass leaves unchanged means the selections ran out: nothing is left over and no later day changes |
| App.PlacedShape | App.tsx:140-143 | the step where a day receives a selection keeps the pass's shape |
| App.PassesFrom | App.tsx:137-147 | the passes place no more selections than there are and keep the days |
| App.PassesFromShape | App.tsx:137-147 | the passes from `p` keep labels, extend prefixes, leave days of three or more alone, cap growth, and fill all days when selections are left |
| App.ShapeNone | App.tsx:137 | no pass leaves the week as it is |
| App.ShapeStep | App.tsx:137-147 | one pass followed by the later passes composes into the shape of all of them |
| App.PrefixTransitive | App.tsx:140-143 | prefixes of prefixes are prefixes |
| App.DistributeShape | App.tsx:131-147 | same days and labels, old ids a prefix of new ones, days with three ids untouched, no day beyond max(old, 3), and leftover selections only when every day holds three |
| App.Distribute | App.tsx:131-147 | the week keeps its number of days |
| App.Placed | App.tsx:131-147 | no more selections placed than were chosen |
| App.AppendedFrom | App.tsx:140-143 | what a pass appended from day `i` on depends only on those days |
| App.PassConsumesInOrder | App.tsx:138-146 | the ids a pass appends, read day by day, are exactly the next selections, in order |
| App.PlacedStep | App.tsx:140-143 | the step where a day receives the next selection consumes it in order |
| App.SkippedStep | App.tsx:139 | a skipped day consumes nothing |
| App.AppendedNone | App.tsx:138 | an unchanged week has appended nothing |
| App.DistributeFiveOverEmptyWeek | App.tsx:131-147 | five selections over seven empty days put selection k on day k, one each, the last two days empty |
| App.FirstPassFills | App.tsx:138-146 | on the first pass, empty days receive selection d on day d until the selections run out |
| App.PlaceOnEmptyDay | App.tsx:140-143 | an empty day reached on the first pass takes the next selection |
| App.RunPass | App.tsx:138-146 | the loop over the days computes one pass |
| App.DistributeVotes | App.tsx:131-147 | the nested loops compute the three passes |
| App.PassesFromUnfold | App.tsx:137 | the passes from `p` are a pass then the passes from `p + 1` |
| App.PassesFromDone | App.tsx:137 | after the third pass nothing changes |
| App.HandleVotingComplete | App.tsx:120-152 | the library with votes added, the week after the three passes, and the count toast |
| App.Insert | App.tsx:157 | the list with one more meal, as a multiset |
| App.SortByVotes | App.tsx:157-161 | a permutation of its input |
| App.InsertSorted | App.tsx:157 | inserting into a sorted list keeps it sorted |
| App.InsertWithVotes | App.tsx:157 | an inserted meal goes before the meals with its vote count |
| App.SortByVotesCorrect | App.tsx:157-161 | sorted by non-increasing votes, a permutation, and stable among equal counts |
| App.InTier | App.tsx:159-161 | exactly the meals of the tier |
| App.InTierPartition | App.tsx:159-161 | the three tier filters together hold each meal as often as the library |
| App.TierColumnsPartition | App.tsx:159-161 | the three columns partition the library, each holding only its tier, each sorted by votes |
| App.TierColumn | App.tsx:159-161 | one column: exactly the library's meals of that tier, as often as the library has them, sorted by non-increasing votes |
| App.AnyContainsIff | App.tsx:168-171 | some string of the list contains the query exactly when one at some position does |
| App.Matching | App.tsx:164-172 | exactly the meals that match |
| App.FilteredMeals | App.tsx:163-174 | an empty query gives nothing |
| App.MatchesQueryIff | App.tsx:165-171 | the search test is a substring test on title, protein, or any tag, ingredient or keyword, all lowercased |
| App.SortedMatchingMembers | App.tsx:163-174 | sorting keeps exactly the matching meals, in vote order |
| App.FilteredMealsCorrect | App.tsx:163-174 | for a non-empty query a meal is a result iff the lowercased query occurs in one of its lowercased fields; results sorted by votes |
| AddMealModal.LoadForm | components/AddMealModal.tsx:53-71 | the edited meal's title, effort, tags and image, and the tier it has now, in the form |
| AddMealModal.SplitLines | components/AddMealModal.tsx:146-148 | exactly the non-blank lines of the text, none holding a line break; order and repeats kept through NonBlankAppend |
| AddMealModal.NonBlank | components/AddMealModal.tsx:146 | every non-blank line of the input and nothing else, no longer than the input |
| AddMealModal.NonBlankAppend | components/AddMealModal.tsx:146-148 | the filter distributes over concatenation, so the kept lines keep their order and repeats |
| AddMealModal.NonBlankKeepsNonBlank | components/AddMealModal.tsx:146 | lines that are all non-blank are kept as they are |
| AddMealModal.SplitLinesJoin | components/AddMealModal.tsx:58-60 | lines joined into a text area split back into the same lines |
| AddMealModal.DefaultLastCookedTier | components/AddMealModal.tsx:128-134 | the default timestamp of a tier is classified into that tier |
| AddMealModal.LastCookedForTier | components/AddMealModal.tsx:120-135 | the saved meal lands in the tier the user selected, whatever its history |
| AddMealModal.LastCookedFor | components/AddMealModal.tsx:120-135 | an edit whose tier is unchanged keeps its timestamp, otherwise the tier's default; a new meal's timestamp lies at most seventy days before now |
| AddMealModal.NewLastCooked | components/AddMealModal.tsx:120-135 | the if-chains compute the timestamp policy: keep it for an edit with unchanged tier, else the tier's default |
| AddMealModal.BuildMeal | components/AddMealModal.tsx:116-153 | nothing exactly for a blank title |
| AddMealModal.BuildMealFields | components/AddMealModal.tsx:137-153 | an edit keeps the id, a new meal takes the clock; the selected tier; protein and keywords from the title; the custom image, else the old one, else the one derived from the title; the three lists are the non-blank lines of their text areas; description, source and tags as entered; no scan and no votes |
| AddMealModal.LoadSubmitRoundTrip | components/AddMealModal.tsx:53-153 | loading a meal and saving it unchanged gives back its id, title, timestamp, effort, image, tags and source, and each of its ingredient, method and Thermomix lists made of non-blank single lines |
| AddMealModal.Populate | components/AddMealModal.tsx:280-288 | each field the answer fills truthily is overwritten, every other field kept |
| AddMealModal.PopulateProperties | components/AddMealModal.tsx:280-288 | an empty answer changes nothing, merging twice is merging once, and filled ingredients split back into themselves |
| AddMealModal.ValidateFile | components/AddMealModal.tsx:159-169 | accepted exactly when at most 5 MB and an image type; a too-large file gets the size toast, an accepted-size non-image the file-type toast |
| AddMealModal.MealModal.constructor | components/AddMealModal.tsx:75-94 | an empty form and no meal being edited |
| AddMealModal.MealModal.Open | components/AddMealModal.tsx:53-71 | a meal to edit fills the form; no meal resets it |
| AddMealModal.MealModal.AddTag | components/AddMealModal.tsx:101-110 | Enter or comma adds the trimmed input only when non-empty and new, and clears the input; tags stay free of repeats |
| AddMealModal.MealModal.RemoveTag | components/AddMealModal.tsx:112-114 | every equal tag is removed and nothing else |
| AddMealModal.MealModal.PopulateFromAI | components/AddMealModal.tsx:280-288 | the form becomes the merge of the answer |
| AddMealModal.FlowsReachRecord | components/AddMealModal.tsx:141-150 | the source kind an import flow sets is stored with the record, and generated Thermomix steps of non-blank single lines are stored as they came |
| AddMealModal.MealModal.MainPhotoUpload | components/AddMealModal.tsx:171-187 | an accepted, compressed file becomes the custom image; otherwise the form is unchanged |
| AddMealModal.MealModal.RecipeScan | components/AddMealModal.tsx:189-209 | an accepted, compressed file marks the source as an image and merges the answer read from it; otherwise nothing changes |
| AddMealModal.MealModal.UrlImport | components/AddMealModal.tsx:211-225 | a blank address does nothing; otherwise the source becomes a URL and the answer is merged |
| AddMealModal.MealModal.GenerateFromTitle | components/AddMealModal.tsx:227-241 | a blank title does nothing; otherwise the source becomes the AI and the answer is merged |
| AddMealModal.MealModal.AIEdit | components/AddMealModal.tsx:243-260 | a blank instruction or a failed call does nothing; otherwise the edited recipe is merged |
| AddMealModal.MealModal.GenerateThermomix | components/AddMealModal.tsx:262-277 | generated steps replace the Thermomix text, one per line; a failed call changes nothing |
| AddMealModal.MealModal.Submit | components/AddMealModal.tsx:116-157 | the built record is handed over and the form reset; a blank title changes nothing |
| ShopList.WeekIds | components/ShopList.tsx:23 | exactly the ids of some day |
| ShopList.ActiveMealsByDay | components/ShopList.tsx:22-25 | resolving the flattened week is resolving each day in turn |
| ShopList.ActiveMeals | components/ShopList.tsx:22-25 | at most one meal per week id, each a library meal whose id is in the week |
| ShopList.ResolveEmptyIff | components/ShopList.tsx:24-25 | ids resolve to nothing exactly when every one dangles |
| ShopList.EmptyViewIff | components/ShopList.tsx:29-37 | the empty view shows exactly when no id of the week refers to a meal |
| ShopList.RawItems | components/ShopList.tsx:45-47 | the ingredients when non-empty, else the title alone |
| ShopList.ItemIdInjective | components/ShopList.tsx:51-53 | items with the same id have the same meal id and index |
| ShopList.ItemId | components/ShopList.tsx:51 | the meal id, a dash, then the decimal index |
| ShopList.ItemsOf | components/ShopList.tsx:51-53 | item k has id `mealId-k`, index k and the k-th text |
| ShopList.Unchecked | components/ShopList.tsx:55-59 | exactly the items whose id is not checked |
| ShopList.Checked | components/ShopList.tsx:55-59 | exactly the items whose id is checked |
| ShopList.SplitCounts | components/ShopList.tsx:55-59 | every item lands in exactly one list |
| ShopList.UncheckedAppend | components/ShopList.tsx:40-65 | the unchecked filter distributes over concatenation |
| ShopList.CheckedAppend | components/ShopList.tsx:40-65 | the checked filter distributes over concatenation |
| ShopList.TodoGroups | components/ShopList.tsx:62-64 | every group is of an active meal with at least one unchecked item, holding its unchecked items |
| ShopList.ToBuyCount | components/ShopList.tsx:75 | the counter is the number of to-buy items |
| ShopList.SplitOfAll | components/ShopList.tsx:40-65 | the groups hold the unchecked items in order, the done list the checked ones |
| ShopList.ShopListPartition | components/ShopList.tsx:40-75 | each item is to-buy iff unchecked and done iff checked, nothing else appears, the counts add up, and no groups iff all checked |
| ShopList.SplitMeal | components/ShopList.tsx:51-59 | the loop over a meal's items gives its unchecked and checked items |
| ShopList.PartitionStep | components/ShopList.tsx:62-64 | one more meal adds its group when it has unchecked items, and its checked items |
| ShopList.Partition | components/ShopList.tsx:40-65 | the loop over the meals gives the to-buy groups and the done list |
| ShopList.BuildChecklist | components/ShopList.tsx:22-65 | the empty view iff no active meals, and the two lists of the active meals |
| FamilyVoting.Selection | components/FamilyVoting.tsx:38 | exactly the library meals whose id was picked, no more than the library holds |
| FamilyVoting.SelectionAppend | components/FamilyVoting.tsx:38 | the filter distributes over concatenation, so the selection keeps library order and repeats |
| FamilyVoting.SelectionIgnoresClickOrder | components/FamilyVoting.tsx:38 | the selection depends only on which ids were picked, not the order of clicks |
| FamilyVoting.SelectionIdsDistinct | components/FamilyVoting.tsx:38 | a library with distinct ids gives a selection with distinct ids |
| FamilyVoting.DistinctCardinality | components/FamilyVoting.tsx:17-25 | a list without repeats has as many distinct items as entries |
| FamilyVoting.SubsetCardinality | components/FamilyVoting.tsx:38 | a subset is no larger |
| FamilyVoting.SelectionSize | components/FamilyVoting.tsx:38 | the selection holds no more meals than ids were picked |
| FamilyVoting.CardinalityAtMostLength | components/FamilyVoting.tsx:38 | a list has no more distinct items than entries |
| FamilyVoting.Ballot.constructor | components/FamilyVoting.tsx:12 | nothing selected |
| FamilyVoting.Ballot.ToggleVote | components/FamilyVoting.tsx:17-25 | a selected id is removed; an unselected one added only while fewer than five; never a repeat, never more than five |
| FamilyVoting.Ballot.Completion | components/FamilyVoting.tsx:37-38 | impossible with nothing selected; otherwise exactly the picked library meals, as the library-order `Selection` |
| WeekTray.FilledDays | components/WeekTray.tsx:27 | between 0 and the number of days; 0 iff all empty, all iff none empty |
| WeekTray.FilledDaysAppend | components/WeekTray.tsx:27 | the count adds up over consecutive parts of the week, so it counts exactly the days holding a meal |
| WeekTray.DayViewOf | components/WeekTray.tsx:71-139 | resolved day meals, the first as primary, count minus one extra, the first three stacked (all of them when fewer), "+N more" iff extra, remove targets of that day and meal |
| WeekTray.TrayView | components/WeekTray.tsx:71 | one view per day, by position |
| WeekTray.DayViewAllPresent | components/WeekTray.tsx:72-78 | with every id present a day shows one meal per id, the first id's meal primary |
| WeekTray.TrayMatchesChecklist | components/WeekTray.tsx:72-74 | the tray's meals, day after day, are the checklist's active meals |
| WeekTray.TrayMealsByDay | components/WeekTray.tsx:72-74 | views resolving their days lay out the days' meals in turn |
| MealCard.DaysAgo | components/MealCard.tsx:90 | the whole days elapsed, rounded down |
| MealCard.DaysAgoWholeDays | components/MealCard.tsx:90 | a meal cooked k whole days ago shows k |
| MealCard.DaysAgoLabel | components/MealCard.tsx:90 | "Never" exactly for timestamp 0, else the days-ago text |
| MealCard.VoteBadge | components/MealCard.tsx:69-73 | shown iff the count, absent as zero, is positive, with that count |
| MealCard.VoteBadgeAfterResetAndVote | components/MealCard.tsx:69 | after a clear no badge; after a vote each picked meal with a non-negative count shows one |
| MealCard.VisibleTags | components/MealCard.tsx:103 | at most the first two tags, none for the low tier |
| MealCard.AddClick | components/MealCard.tsx:111 | `onAdd` gets the meal exactly when the button is enabled |

## Left out

- Image compression (`compressImage` in `utils.ts`): canvas, file reading and floating-point scaling.
- The AI services (`ai.ts`, the server and API routes): network wrappers. Their answers enter the model as `PartialMeal` values.
- Authentication and the remote client (`lib/supabase.ts`, the auth and sync modals): the signed-in user and whether a backend is configured are parameters.
- Session handling, the auth subscription and the interleaving of fetches and pushes in `hooks/useCloudSync.ts`: asynchronous and event-driven. A fetch is given its answer as a value.
- CloudSync.SaveToCloud: the upsert call itself, its failure path and the async toast plumbing are not modelled. Only the guard, the row shape and the failure toast text are.
- JSON encoding and the real storage quota: the store is a map of typed records. A quota failure is the `storageFull` flag of the library, under which every write fails and warns.
- The random shuffle of the voting screen and the progress-bar percentage of the tray: randomness and floating point.
- Presentation: the landing page, the chef chat, toast timers, JSX layout and CSS classes (beyond the effort colour).
- Unicode case folding: `toLowerCase` is modelled on ASCII letters only.
- The multi-meal auto-assign with per-day caps, per-user storage namespaces and `handleCleanupStorage`. The calls in `App.tsx` imply them, but the hook shown does not define them.
- Utils.GetTier: the source divides the age by the day length in floating point and compares the quotient with 14 and 60. The model compares the whole-millisecond age with 14 and 60 days, which is the same test without rounding.
- MealsHook.MealLibrary.RemoveFromTray: requires an index within the week, because the source is only ever called with the index of a shown day. Past the end, hooks/useMeals.ts:78-79 writes `{ mealId: null }` at that index. At exactly the week's length this appends an entry with no day label; further out it also leaves undefined holes before it. Neither shape is a day of the model's week type.
- MealsHook.MealLibrary.constructor: takes `INITIAL_MEALS` as its parameter `initial`. MealsHook.MountWithExamples supplies `Constants.InitialMeals(now)`.
- CloudSync.FetchCloudData: the source sets the state and writes the store for each replaced cell. The hook's persistence effects then write it again. The model shows both as two runs of the same writes, which make the same store (CloudSync.ApplyEffectsTwice) and warn twice.
- AddMealModal.MealModal.Submit: one clock reading `now` serves the timestamp and the new id, where the source reads the clock for each.
- The form's active tab, loading and analysing flags and the other UI-only cells of `components/AddMealModal.tsx`.
- The form's upload and AI flows (`handleMainPhotoUpload`, `handleRecipeScan`, `handleUrlImport`, `handleGenerateFromTitle`, `handleAIEdit`, `handleGenerateThermomix`) are modelled only for their effect on the form: `setCustomImage`, `setSourceType('image' | 'url' | 'ai')`, `setThermomixMethod` and `populateFromAI`. The compression, the service calls, the loading flags, the clearing of `aiInstruction`, the `useThermomix` and `magicDescription` inputs and the toasts are not modelled. The service's answer, or its failure, is a parameter.
