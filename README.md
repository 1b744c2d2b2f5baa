# Mop transfer engine and sector news board

This project is a Dafny model of two systems of the game server, with proofs about them.

**Mopping (`AbsorbentSystem`).** A mop carries an absorbent solution. Used on a puddle, it trades its water for the puddle's contaminants, volume for volume. Used on a bucket or another refillable container, it does one of two things:

- If the bucket is empty, it pushes its contents into it, contaminants first.
- If the bucket is not empty, it does a two-way exchange. Contaminants go into the bucket, water comes back, and contaminants that do not fit return to the mop.

Only the mop-friendly reagents, Water and Holywater, count as water; everything else is a contaminant. The mop's progress display shows three bars: water, other reagents and free room.

**News (`NewsSystem`).** The news board is one article list shared by the whole sector:

- Writer consoles publish into it under a cooldown and delete from it under an access rule.
- Reader cartridges leaf through it with a wrap-around index.
- The list is cleared when a round restarts.

Modules:

- `Optional`: an option type.
- `Solutions`: reagent mixtures and the solution container class.
  - A mixture is a list of reagent quantities, counted in hundredths of a unit (FixedPoint2).
  - The split and add primitives that the absorbent code calls are given a body. Their contracts carry what that code relies on:
    - a split removes exactly `min(amount, eligible pool)`;
    - it takes nothing outside its filter;
    - what it removes plus what it leaves is what there was, reagent by reagent.
- `Fluids`: the mop transfer engine.
  - Each transfer is a pure function over mixtures, which states its contract.
  - Each transfer is also a method that splits and adds on `Solution` objects in place, in the source's order. Its postcondition ties the new state to the function.
- `MassMedia`: the news board.
  - `SectorNews`, `NewsWriter` and `NewsReaderCartridge` are classes whose fields the handlers update.

## Model

| member | source | states |
|---|---|---|
| Solutions.SplitBy | Content.Server/Fluids/EntitySystems/AbsorbentSystem.cs:305-306 | A split by filter removes exactly the smaller of the amount and the filter's pool. It removes nothing the filter excludes. Removed plus remaining equals the original for every reagent class. An empty removal leaves the mixture as it was. |
| Solutions.AddReagent | Content.Server/Fluids/EntitySystems/AbsorbentSystem.cs:317-318 | Adding a quantity of one reagent raises exactly the totals that admit that reagent, by that quantity, and no other total. |
| Solutions.Merge | Content.Server/Fluids/EntitySystems/AbsorbentSystem.cs:317-318 | Adding a solution to another makes every reagent-class total the sum of the two. Adding nothing changes nothing. |
| Solutions.TotalOfComplement | Content.Server/Fluids/EntitySystems/AbsorbentSystem.cs:66-73 | The mop-friendly total and the non-mop-friendly total add up to the volume. |
| Solutions.NothingAdmitted | Content.Server/Fluids/EntitySystems/AbsorbentSystem.cs:335-338 | In a solution without zero entries, a class total is zero exactly when no entry belongs to the class. |
| Solutions.Solution.SplitSolution | Content.Server/Fluids/EntitySystems/AbsorbentSystem.cs:214 | Splitting a container's solution returns the removed part and leaves the remaining part in the container, both as the split defines them. |
| Solutions.Solution.AddSolution | Content.Server/Fluids/EntitySystems/AbsorbentSystem.cs:192 | Adding to a container merges the added solution into its contents and keeps it within capacity, given that the caller sized the addition to fit. |
| Fluids.IsMoppableIffOnlyMopFriendly | Content.Server/Fluids/EntitySystems/AbsorbentSystem.cs:335-338 | A solution is moppable exactly when every entry is Water or Holywater. Equivalently, exactly when it holds no contaminant. |
| Fluids.PuddleInteract | Content.Server/Fluids/EntitySystems/AbsorbentSystem.cs:276-332 | The puddle path. An empty puddle is not handled. A fully moppable puddle, or an absorber without water, is handled with no transfer. Otherwise contaminants leave the puddle and water leaves the absorber, both by the traded volume, which is the smallest of the pickup amount, the absorber's water and the puddle's contaminants. Nothing is created or lost. |
| Fluids.Swap | Content.Server/Fluids/EntitySystems/AbsorbentSystem.cs:302-318 | The trade itself. The puddle's split draws only contaminants, at most the transfer amount. The absorber gives back the same volume of water. Each class total moves by that volume. |
| Fluids.PuddleSwapKeepsVolumes | Content.Server/Fluids/EntitySystems/AbsorbentSystem.cs:305-318 | After a swap, the absorber's volume and the puddle's volume are both unchanged. |
| Fluids.PuddleSwapMovesIffPickup | Content.Server/Fluids/EntitySystems/AbsorbentSystem.cs:302-306 | A swap moves something exactly when the pickup amount is positive. With pickup amount zero, both solutions are left as they were. |
| Fluids.TransferToEmpty | Content.Server/Fluids/EntitySystems/AbsorbentSystem.cs:162-201 | The empty-bucket path. It fails with no change when the mop is empty or the transfer amount, min(pickup amount, bucket room), is zero. Otherwise it succeeds. It conserves every reagent class and never overfills the bucket. At most the transfer amount enters the bucket. |
| Fluids.PushContaminantsFirst | Content.Server/Fluids/EntitySystems/AbsorbentSystem.cs:188-198 | The push succeeds. It conserves every reagent class and moves at most the transfer amount. |
| Fluids.TransferToEmptyPushesContaminantsFirst | Content.Server/Fluids/EntitySystems/AbsorbentSystem.cs:188-198 | While the mop holds contaminants, only contaminants are pushed: min(transfer amount, contaminants), and no water. A mop without contaminants pushes min(transfer amount, its volume) of unrestricted contents. |
| Fluids.WaterLeavesRefillable | Content.Server/Fluids/EntitySystems/AbsorbentSystem.cs:230-232 | Pulling water from the bucket lowers its water by exactly the pulled volume, which is at most the requested amount, and leaves its contaminants alone. |
| Fluids.TwoWayTransfer | Content.Server/Fluids/EntitySystems/AbsorbentSystem.cs:206-271 | The non-empty-bucket path. It conserves every reagent class and keeps both containers within capacity. It succeeds exactly when water left the bucket or contaminants entered it. At most the pickup amount moves each way. A failure leaves the bucket as it was and the mop with the same amounts. |
| Fluids.ExchangeWithRefillable | Content.Server/Fluids/EntitySystems/AbsorbentSystem.cs:226-241 | After the contaminant split, water is pulled into the mop's room. It succeeds exactly when water left the bucket or contaminants entered it, with at most the pickup amount each way. A failure leaves the bucket as it was and the mop holding its contaminants again. Every class is conserved, and both containers stay within capacity. |
| Fluids.WithWater | Content.Server/Fluids/EntitySystems/AbsorbentSystem.cs:245-250 | Adding the pulled water to the mop adds it to every class total. |
| Fluids.PushContaminants | Content.Server/Fluids/EntitySystems/AbsorbentSystem.cs:252-268 | Exactly min(bucket room, contaminants) enters the bucket, and the rest goes back to the mop. It succeeds exactly when that amount is positive. The bucket's water is untouched. Nothing is created or lost. |
| Fluids.CommitExchange | Content.Server/Fluids/EntitySystems/AbsorbentSystem.cs:243-270 | The commit succeeds exactly when water moved or contaminants entered the bucket. The bucket gains exactly the pushed contaminants and nothing else. The mop holds everything that did not go into the bucket. |
| Fluids.RefillableInteract | Content.Server/Fluids/EntitySystems/AbsorbentSystem.cs:132-157 | An empty bucket takes the one-way push; any other takes the two-way exchange. Either way every class is conserved and both containers stay within capacity. |
| Fluids.UseDelay.ResetDelay | Content.Server/Fluids/EntitySystems/AbsorbentSystem.cs:321-322 | Resetting the use delay starts it. |
| Fluids.TryPuddleInteract | Content.Server/Fluids/EntitySystems/AbsorbentSystem.cs:276-332 | A missing or empty puddle is not handled. The in-place splits and adds leave the mop and the puddle exactly as the puddle path computes. The use delay restarts only on a swap. Every path without a swap changes nothing. |
| Fluids.TryTransferFromAbsorbentToRefillable | Content.Server/Fluids/EntitySystems/AbsorbentSystem.cs:162-201 | The in-place version of the empty-bucket push: its result and both solutions are those of TransferToEmpty. |
| Fluids.TryTwoWayAbsorbentRefillableTransfer | Content.Server/Fluids/EntitySystems/AbsorbentSystem.cs:206-241 | The in-place two-way exchange: its result and both solutions are those of TwoWayTransfer. |
| Fluids.CommitTwoWay | Content.Server/Fluids/EntitySystems/AbsorbentSystem.cs:243-270 | The in-place commit: its result and both solutions are those of CommitExchange, and no addition overfills a container. |
| Fluids.PushContaminantsInto | Content.Server/Fluids/EntitySystems/AbsorbentSystem.cs:252-268 | The in-place contaminant push: its result and both solutions are those of PushContaminants. |
| Fluids.TryRefillableInteract | Content.Server/Fluids/EntitySystems/AbsorbentSystem.cs:132-157 | A missing refillable fails with no change. Otherwise the result and both solutions are those of RefillableInteract. The use delay restarts exactly on success. |
| Fluids.Mop | Content.Server/Fluids/EntitySystems/AbsorbentSystem.cs:111-127 | Without an absorbent solution, or while the use delay runs, nothing changes. A non-empty puddle takes the puddle path and the refillable is left alone. Any other target takes the refillable path. The use delay restarts exactly on a swap or on a successful refillable transfer, and is otherwise left as it was. All solutions stay valid. |
| Fluids.Progress | Content.Server/Fluids/EntitySystems/AbsorbentSystem.cs:63-85 | The progress map holds only the water colour, the other colour and dark gray, each with a positive amount. |
| Fluids.ProgressShowsContents | Content.Server/Fluids/EntitySystems/AbsorbentSystem.cs:63-85 | With distinct colours, each bar is present exactly when its amount is positive. The bars are the water, the contaminants and the free room, and they add up to the maximum volume. |
| Fluids.UpdateAbsorbent | Content.Server/Fluids/EntitySystems/AbsorbentSystem.cs:58-91 | Without a solution nothing changes. Otherwise the progress becomes the three bars of the solution and the component is marked dirty. The comparison at line 87 is `Equals` between the progress dictionary and a fresh shallow clone of it, which compares references and never holds, so dirty is set on every update with a solution, changed or not. |
| MassMedia.SectorNews.OnRoundRestart | Content.Server/MassMedia/Systems/NewsSystem.cs:69-73 | A round restart empties the article list. |
| MassMedia.LeafIndex | Content.Server/MassMedia/Systems/NewsSystem.cs:322-328 | Going past the end wraps to 0, going below 0 wraps to Count-1, and any other move lands on current + leafDir. In a non-empty list the index always ends inside [0, Count). |
| MassMedia.LeafNextThenPrev | Content.Server/MassMedia/Systems/NewsSystem.cs:322-328 | From a valid index, Next then Prev, or Prev then Next, returns to the same article. |
| MassMedia.LeafForwardWalks | Content.Server/MassMedia/Systems/NewsSystem.cs:322-328 | Leafing forward k times, k at most Count, lands k articles on, counted around the end of the list. |
| MassMedia.LeafFullRound | Content.Server/MassMedia/Systems/NewsSystem.cs:322-328 | Count steps forward come back to the starting article. |
| MassMedia.NewsReaderLeafArticle | Content.Server/MassMedia/Systems/NewsSystem.cs:317-329 | Without an article list the reader is unchanged. Otherwise its index becomes the wrapped index, and notifications are untouched. |
| MassMedia.OnReaderUiMessage | Content.Server/MassMedia/Systems/NewsSystem.cs:233-252 | Next and Prev leaf by +1 and -1, and NotificationSwitch toggles notifications. The refresh then leafs by 0, so a non-empty list leaves the index inside it. |
| MassMedia.LeafByZeroSettles | Content.Server/MassMedia/Systems/NewsSystem.cs:300 | A second refresh leaf of 0 changes nothing after the first. |
| MassMedia.RefreshReaders | Content.Server/MassMedia/Systems/NewsSystem.cs:130-135 | The event loop over the readers: each reader in a loader runs UpdateReaderUi's leaf of 0. Without an article list no index changes. Otherwise every index becomes its wrapped form and lies inside a non-empty list. Notifications are untouched. |
| MassMedia.SkipWhiteSpace | Content.Server/MassMedia/Systems/NewsSystem.cs:169-170 | It returns the first position at or after the start that does not hold white space, having skipped only white space. |
| MassMedia.BackOverWhiteSpace | Content.Server/MassMedia/Systems/NewsSystem.cs:169-170 | It returns the last end position, at or after the bound, whose preceding character is not white space, having dropped only white space. |
| MassMedia.Trim | Content.Server/MassMedia/Systems/NewsSystem.cs:169-170 | The trimmed text is a contiguous part of the input that starts after its leading white space. What it cuts off at either end is white space, and it starts and ends with a character that is not. |
| MassMedia.TrimOfTrimmed | Content.Server/MassMedia/Systems/NewsSystem.cs:169-170 | Text with no white space at either end is its own trim. |
| MassMedia.TrimIdempotent | Content.Server/MassMedia/Systems/NewsSystem.cs:169-170 | Trimming twice is the same as trimming once. |
| MassMedia.StoredText | Content.Server/MassMedia/Systems/NewsSystem.cs:169-175 | Text whose trim fits within the maximum is stored as the trim. Otherwise it is stored as the first max characters of the trim followed by "...". The stored text never exceeds max + 3 characters. |
| MassMedia.StoredTextStable | Content.Server/MassMedia/Systems/NewsSystem.cs:169-175 | Storing a stored title or content again changes nothing. |
| MassMedia.NewArticle | Content.Server/MassMedia/Systems/NewsSystem.cs:172-178 | A new article has its title and content within their limits plus "...", the ID card's author, and the round duration as share time. No author record keys are attached. |
| MassMedia.OnWriteUiPublishMessage | Content.Server/MassMedia/Systems/NewsSystem.cs:145-204 | A disabled writer changes nothing. Otherwise publishing is disabled and the next publish time set to now plus the cooldown, before any later check. Without an article list, or without the actor's record keys, it aborts there. Otherwise the new article is appended at the end of the list, and every loaded reader is refreshed by a leaf of 0, which leaves its index inside the now non-empty list. Readers are untouched on every other path. |
| MassMedia.PublishedArticleDeletableByAnyone | Content.Server/MassMedia/Systems/NewsSystem.cs:172-178 | An article created by publishing carries no author record keys, so the delete-access rule lets anyone delete it. |
| MassMedia.CheckDeleteAccess | Content.Server/MassMedia/Systems/NewsSystem.cs:340-351 | Access is granted exactly when one of these holds: the console's access reader allows the user; the article has no author record keys, or an empty set of them; or the user's record keys intersect the article's. |
| MassMedia.AuthorMayDelete | Content.Server/MassMedia/Systems/NewsSystem.cs:349-350 | A user holding one of the article's author record keys is always allowed to delete it. |
| MassMedia.StrangerRefused | Content.Server/MassMedia/Systems/NewsSystem.cs:340-351 | Without the console's access, a user sharing no key with an article that has keys is refused. |
| MassMedia.RemoveAt | Content.Server/MassMedia/Systems/NewsSystem.cs:121 | Removing at an index shortens the list by one. The entries before the index stay where they were, and those after it move down by one in order. |
| MassMedia.RemoveAtLosesOnlyThatEntry | Content.Server/MassMedia/Systems/NewsSystem.cs:121 | Removal loses exactly the indexed entry, as a multiset. |
| MassMedia.OnWriteUiDeleteMessage | Content.Server/MassMedia/Systems/NewsSystem.cs:105-138 | Without an article list, at an index at or past the end, or at a negative index, the list is unchanged. At a valid index, the article is removed exactly as RemoveAt does when access is granted. Otherwise access is denied and the list does not change. In both of these cases every loaded reader is then refreshed by a leaf of 0, so none is left outside a non-empty list. Readers are untouched on the early returns. |
| MassMedia.EnabledAfterUpdate | Content.Server/MassMedia/Systems/NewsSystem.cs:83-86 | A writer may publish after an update exactly when it already could, or its next publish time has been reached. |
| MassMedia.Update | Content.Server/MassMedia/Systems/NewsSystem.cs:76-89 | Every writer ends enabled exactly as EnabledAfterUpdate says: only disabled writers whose time has come are re-enabled. No next publish time changes. |

## Left out

- The proportional rounding of the solution split primitives is not reproduced. `SplitBy` takes from the entries greedily, in order, and keeps the contract the callers rely on.
- Floating point is not modelled:
  - FixedPoint2 amounts are non-negative whole hundredths.
  - The `.Float()` conversions of the progress bars keep those hundredths.
  - The source's `<= 0` tests on volumes become `== 0`.
- `DoTileReactions` is taken as the identity on the water leaving the mop.
- `UpdateChemicals` on the refillable, which runs its reactions, is not modelled.
- The use delay is a flag. The clock behind `IsDelayed` and `TryResetDelay` is not modelled.
- These side effects are not modelled:
  - sounds and popups;
  - the melee lunge and its vector and angle maths;
  - admin logs and chat announcements;
  - reader notifications, and the UI state pushes of writers and readers (`UpdateWriterUi`, `UpdateWriterDevices`, and the state sent by `UpdateReaderUi` apart from its leaf by zero).
- The events `NewsArticlePublishedEvent` and `NewsArticleDeletedEvent`, with their handlers `OnArticlePublished` and `OnArticleDeleted`, are modelled only through their effect on the reader index: a leaf of 0 on every reader in a loader (`RefreshReaders`). The UI state they send is not modelled, and neither is the notification `OnArticlePublished` sends.
- `OnReaderUiReady` does the same leaf of 0 on a single reader when its UI opens. It is not modelled as a handler of its own; `NewsReaderLeafArticle` with a direction of 0 is that effect.
- `OnRequestArticlesUiMessage` only sends the writer's UI state, so it is not modelled.
- Entity lookups are not modelled. In their place:
  - `TryComp`, `TryGetSolution`, `ResolveSolution`, `TryGetRefillableSolution` and `TryGetArticles` are nullable parameters or the `present` flag;
  - the access reader's verdict, `FindStationRecordKeys`, `TryFindIdCard` and the round duration are parameters;
  - the writer query of `Update` is a sequence of writers.
- The colours `GetColorWithOnly` and `GetColorWithout` are parameters of `UpdateAbsorbent`. Colour mixing is not modelled.
- Whether `TryAddSolution` refuses an overflowing add is not visible. Instead, every add has the capacity it needs as a precondition, and that precondition is proved at each call. The puddle's solution is uncapped.
- The absorber, the puddle and the refillable are required to be distinct objects. Aliasing between them is not modelled.
- TwoWayTransfer: on a failed exchange in which contaminants went back into the mop because the bucket was full, the contract states equal amounts of every reagent class (`SameAmounts`), not an equal entry list. Splitting and re-adding may reorder the entries.
- Text lengths count characters, where the source counts UTF-16 code units.
- White space is the fixed set of Unicode white space characters that `String.Trim` removes.
- `MaxTitleLength` (25) and `MaxContentLength` (2048) come from SharedNewsSystem, which is not part of this model. The lemmas about stored text hold for any maximum.
- Times and the publish cooldown are natural numbers in one unit. `TimeSpan` and seconds are not modelled.
- Record keys are compared as (origin station, id) pairs; the conversion to network entities is taken as one-to-one.
- A negative `ArticleNum` would make the list indexer throw before anything changes. The model reports it as the `IndexFault` outcome, with no change.
- RadarConsoleSystem is a display wrapper with no logic of its own, so it is not modelled.
