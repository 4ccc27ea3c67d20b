# recipe-reader: what its importer, store and protocols guarantee

recipe-reader imports saved Instagram posts, turns their captions into recipes, stores them in
PostgreSQL and serves them over HTTP. This project models the parts of it whose correctness does not
show in any one function and proves properties of them for every input, run or interleaving. Run
`dafny verify dfyconfig.toml` to check it.

| file | models |
|---|---|
| `SavedFeed.dfy`, `Backlog.dfy` | the walk over a saved-posts feed served by an adversary, and whole sequences of import runs over one feed |
| `Tables.dfy`, `RecipeWrites.dfy`, `RecipeRepository.dfy` | the schema with its constraints and statements, what a write does to tables and recipe, and the repository's transactions over slices on the heap |
| `RecipeReads.dfy`, `RecipeSearch.dfy`, `LikeSearch.dfy`, `RoundTrip.dfy`, `WriteEcho.dfy`, `StoredRecipes.dfy` | reading one recipe and a page of them, paging in 64- and 32-bit arithmetic, escaped `LIKE`, GET followed by PUT, what a write hands back against what a read returns, and what it means that a recipe is stored |
| `Renumber.dfy` | migration 0003 |
| `ClientSlot.dfy`, `ClientLogin.dfy` | the Instagram client: one call at a time with abandoned goroutines, and when it logs in |
| `ImportWorker.dfy`, `ImportProtocol.dfy`, `ImportLock.dfy`, `WorkerRuns.dfy`, `Shutdown.dfy` | single flight, cooldown, the cross-process lock, and shutting down, over all interleavings |
| `Names.dfy`, `Scoring.dfy`, `CaptionSpan.dfy` | name normalisation and the category vocabulary, confidence scores, and the span that delimits a caption in the prompt |
| `ImportAccount.dfy`, `ImportPipeline.dfy` | one import run end to end: walk, extraction, store and tally |
| `Domain.dfy`, `ImportOutcome.dfy`, `Orders.dfy`, `StateMachine.dfy`, `Wrappers.dfy` | shared types, strict orders and counting, runs of a protocol |

Code that changes things step by step is modelled as classes and methods with loops, proved against
functions; the lemmas are about those functions. Protocols are state machines: a partial function takes a
state and one step of one party, and a theorem holds of every state any sequence of steps reaches. Calls
into code outside the repository (Instagram, the LLM, PostgreSQL's answers, clocks) are arguments or
nondeterministic choices.

Where the code and its comments or documents disagree, the model follows the code:

- `ErrSchemaDrift` (internal/instagram/saved.go:258-261) is described as "no item could be read". Besides a
  page that does not decode at all, it is raised when nothing new was collected and some item was
  unreadable, so a feed whose readable posts are all imported already raises it too:
  `SavedFeed.DriftExactly` says exactly when that second case is reported, and
  `SavedFeed.DriftWithReadablePost` gives a feed.
- A post without a recipe is never stored (internal/pipeline/pipeline.go:164-186) and so uses up
  `MaxItems` on every run. The backlog drains exactly when fewer than `MaxItems` such posts stand before
  each storable one (`Backlog.DrainsExactlyWhenUnblocked`; `Backlog.StuckFeed` is a feed of two posts
  that never does).
- Migration 0003 says it changes no position that was already unique (line 14). It leaves a recipe alone
  exactly when its positions were already 0..n-1 (`Renumber.UntouchedExactly`); a single line at position 5
  is moved (`Renumber.UniqueYetMoved`).
- `Create` and `Update` hand back the categories as they were given, ids filled in, and POST and PUT answer
  with them; a read returns them without repetition and sorted by name
  (internal/db/sqlc/recipes.sql.go:288-293). The two agree exactly when the names came in ascending order and
  every id that was given has the name that was given with it; for a PUT the source sent must be the stored
  one besides, as it is echoed and never written (`WriteEcho.CreateEcho`, `WriteEcho.UpdateEcho`). An answer
  that no GET returns: `WriteEcho.PostOutOfOrder`, `WriteEcho.PutWithoutSource`.
- A GET followed by a PUT of its body leaves a read unchanged exactly when no line of the recipe uses a
  unit whose name is empty; a body carries names only and cannot express such a unit
  (`RoundTrip.GetThenPut`, `RoundTrip.EmptyUnitIsLost`). A recipe stored without a name cannot be put back.
- The import lock (internal/db/lock.go:24-31, internal/server/import.go:39-44) is there so that two processes
  never import at once. It does so as long as the database keeps the holder's session: an import never looks
  at its session again, so if the database ends it, a second import gets in
  (`ImportLock.OneImportExactly`, `ImportLock.TwoImports`).
- A page is the true page of the result unless its offset passes 2^31 - 1 while matches remain there
  (`RecipeSearch.PageExact`), so paging is complete for up to 2^31 matches.

## Model

| member | source | states |
|---|---|---|
| SavedFeed.PageMedia | internal/instagram/saved.go:151-256 | whatever the remote answers, the loop collects the first MaxItems new posts along the cursor chain, reports the matching error, takes at most the items and sends at most the requests it was given (or 50 and 100), and never sends the same cursor twice |
| SavedFeed.FetchPage | internal/instagram/saved.go:168-194 | one page is readable unless the context is done, the request fails or the answer is no page, each with its own error; nothing is sent once the context is done |
| SavedFeed.TakeItems | internal/instagram/saved.go:198-217 | one page adds exactly its first unknown, uncollected posts up to MaxItems, and counts every unreadable item while short of it |
| SavedFeed.FetchOptions.WithDefaults | internal/instagram/saved.go:69-77 | both bounds are positive, and a positive one is kept |
| SavedFeed.SourceIdentifiesPost | internal/instagram/saved.go:337-359 | two readable items have the same source exactly when they carry the same shortcode, in whichever of the two shapes they came |
| SavedFeed.DecodedMeaning | internal/instagram/saved.go:337-359 | a wrapped media object wins over the item's own fields; malformed JSON and a missing code are the only two reasons to drop an item; a post has the permalink of the code, the caption text or "", and the first image or "" |
| SavedFeed.PostsOnMeaning | internal/instagram/saved.go:198-217 | of the items of a page exactly those with a code become posts, one each, in order, each showing its item, and the others are counted |
| SavedFeed.CollectedMeaning | internal/instagram/saved.go:151-256 | every collected post shows a readable item of the pages read, none is known, no two share a source, there are at most MaxItems, and with fewer no unknown readable item is missing |
| SavedFeed.ReportedMeaning | internal/instagram/saved.go:172-194 | a cancellation, a failed request with its error, or an answer that is no page is reported exactly when a walk short of MaxItems came to such a page along the chain |
| SavedFeed.NewPostsMeaning | internal/instagram/saved.go:205-211 | the kept posts are exactly the unknown sources of the feed |
| SavedFeed.NewPostsDistinct | internal/instagram/saved.go:205-211 | no source is collected twice |
| SavedFeed.NewPostsAreFirst | internal/instagram/saved.go:205-211 | of several copies of a post the first is kept |
| SavedFeed.RequestsDistinct | internal/instagram/saved.go:223-237 | along the chain no request repeats the cursor of an earlier one |
| SavedFeed.NoRepeatsMeaning | internal/instagram/saved.go:223-237 | what the walk ensures of its requests means that any two cursors sent differ |
| SavedFeed.AfterPage | internal/instagram/saved.go:195-237 | an empty page, an empty cursor and a repeated cursor are exactly what ends the chain |
| SavedFeed.CutOffKeepsPrefix | internal/instagram/saved.go:172-194 | a walk cut off by an error or cancellation has collected a prefix of what it would have collected without it, and everything if nothing cut it off |
| SavedFeed.DriftExactly | internal/instagram/saved.go:240-251 | "none readable" is reported exactly when the walk ran to its end, every readable post is known and some item is unreadable |
| SavedFeed.DriftWithReadablePost | internal/instagram/saved.go:258-262 | a feed with a readable post for which "none readable" is reported all the same |
| Backlog.RunMakesProgress | internal/instagram/saved.go:205-217 | with U waiting posts that are never stored, a run stores at least min(MaxItems - U, R) of the R storable ones, and U stays the same |
| Backlog.BacklogDrains | internal/instagram/saved.go:144-150 | after n runs at most R - n * (MaxItems - U) storable posts are left, so all are stored after ceil(R / (MaxItems - U)) runs |
| Backlog.DrainsExactlyWhenUnblocked | internal/instagram/saved.go:144-150 | some number of runs stores every storable post if and only if fewer than MaxItems never-stored posts stand before each of them |
| Backlog.BlockedForever | internal/pipeline/pipeline.go:164-186 | a storable post behind MaxItems posts without a recipe is not stored by any number of runs |
| Backlog.StuckFeed | internal/pipeline/pipeline.go:164-186 | with MaxItems 1, a feed of one post without a recipe before one with a recipe, of which no number of runs stores anything |
| Backlog.OnlyStorableLeave | internal/pipeline/pipeline.go:164-186 | however many runs, only storable posts leave the waiting line |
| Tables.InsertRecipeKeepsValid | internal/db/sqlc/recipes.sql.go:86-91 | inserting keeps the schema invariant: unique sources and names, foreign keys, legal status, unique positions |
| Tables.FindOrCreateKeepsValid | internal/db/sqlc/ingredients.sql.go:12-24 | read-then-insert keeps names unique, keeps every row and yields a real id |
| Tables.UpdateRecipeKeepsValid | internal/db/sqlc/recipes.sql.go:425-430 | updating a recipe row keeps the schema invariant |
| Tables.DeletesKeepValid | internal/db/sqlc/recipes.sql.go:141-152 | clearing a recipe's links and lines keeps the schema invariant |
| Tables.AddLineKeepsValid | internal/db/sqlc/recipes.sql.go:29-33 | a line that is not refused keeps the schema invariant |
| Tables.AddLinkKeepsValid | internal/db/sqlc/recipes.sql.go:14-17 | a category link that is not refused keeps the schema invariant |
| Tables.DeleteRecipeKeepsValid | internal/db/migrations/0001_init.sql:34-48 | deleting a recipe with the schema's cascades leaves no dangling line or link |
| RecipeWrites.CreateOutcome | internal/repository/recipe_repository.go:69-106 | Create reports a duplicate exactly when the status is legal and the source is stored, and succeeds exactly when the source is new, the status legal, every carried id exists among the lookup rows after resolving, and 32-bit positions can tell the lines apart |
| RecipeWrites.CreateMeaning | internal/repository/recipe_repository.go:69-106 | a successful Create adds one recipe under a fresh id with its row as given, exactly its lines and links, one new source, and leaves every other recipe's rows and every lookup row alone |
| RecipeWrites.UpdateOutcome | internal/repository/recipe_repository.go:111-143 | Update reports "not found" exactly when there is no such recipe, and otherwise succeeds under exactly the same conditions on status, ids and lines |
| RecipeWrites.ResolveAndWriteExactly | internal/repository/recipe_repository.go:167-236 | once the recipe row is there, a write goes through exactly when every carried id exists - among rows it creates itself too - and there are at most 2^32 lines |
| RecipeWrites.UpdateMeaning | internal/repository/recipe_repository.go:111-143 | a successful Update replaces the fields and all child rows, keeps source and creation time, and touches no other recipe |
| RecipeWrites.DeleteMeaning | internal/db/sqlc/recipes.sql.go:129-131 | deleting a recipe removes its row, all its lines and all its links and nothing else; deleting it again removes nothing |
| RecipeWrites.PositionsCountUp | internal/repository/recipe_repository.go:204-225 | the i-th line is written at position i as long as a 32-bit position can number it, and wraps after that |
| RecipeWrites.ResolveCategoriesKeeps | internal/repository/recipe_repository.go:165-178 | resolving only adds lookup rows; a carried id is left alone, and a name gets the id of the row that has it |
| RecipeWrites.ResolveLinesKeeps | internal/repository/recipe_repository.go:179-196 | the same for the ingredient and the unit of every line |
| RecipeRepository.Repository.Create | internal/repository/recipe_repository.go:69-106 | whichever statements are lost, tables and the caller's recipe are either both as specified or both untouched; its slices and every unit its lines point to are untouched either way; a duplicate is reported only if the source is stored, and where nothing is lost the outcome is exactly the specified one |
| RecipeRepository.Repository.Update | internal/repository/recipe_repository.go:111-143 | the same atomicity and exactness for Update; "not found" only if there is no such recipe |
| RecipeRepository.Repository.Delete | internal/repository/recipe_repository.go:260-269 | the recipe is gone with all its lines and links, every other row and all lookup rows stay as they were, or the tables stay; where nothing is lost it succeeds exactly when the recipe was there |
| RecipeRepository.RecipeObject.Stage | internal/repository/recipe_repository.go:145-152 | the staged copy has the same value and slices of its own, but shares every unit pointer, as a shallow clone does |
| RecipeRepository.ResolveLineAt | internal/repository/recipe_repository.go:179-196 | resolving a line writes its slot only: a unit found or created gets a new pointer, and a pointer that was there is neither replaced nor written through |
| RecipeRepository.ResolveLookups | internal/repository/recipe_repository.go:167-197 | the loops through the slices compute exactly the specified resolution, in the specified order, and keep every unit pointer there was |
| RecipeRepository.WriteAssociations | internal/repository/recipe_repository.go:210-236 | delete-then-reinsert writes exactly the specified child rows |
| RecipeRepository.StageCreate | internal/repository/recipe_repository.go:69-100 | the transaction, its commit included, works on a copy only and ends in the specified tables and recipe |
| RecipeRepository.StageUpdate | internal/repository/recipe_repository.go:111-137 | the same for an update |
| RecipeReads.OneLineOrder | internal/db/sqlc/recipes.sql.go:315-322 | unique positions leave the line query one answer: the lines sorted by (position, id) |
| RecipeReads.OneCategoryOrder | internal/db/sqlc/recipes.sql.go:288-293 | unique names leave the category query one answer |
| RecipeReads.Assemble | internal/repository/recipe_repository.go:392-413 | assembling one recipe from any answers of its two child queries gives the one read of it |
| RecipeReads.BatchAnswersOne | internal/db/sqlc/recipes.sql.go:232-241 | the batched line query, cut down to one recipe, answers that recipe's own query |
| RecipeReads.GroupPage | internal/repository/recipe_repository.go:353-386 | grouping by recipe id hands every recipe its own rows in batch order |
| RecipeReads.AssemblePage | internal/repository/recipe_repository.go:348-387 | every recipe of a page comes out exactly as reading it alone would give it, lists and order included |
| RecipeSearch.GuardIsOverflow | internal/repository/recipe_repository.go:309-320 | the division in the guard holds exactly when the offset would pass 2^31 - 1 |
| RecipeSearch.Search | internal/repository/recipe_repository.go:283-337 | for every 64-bit page and size no operation overflows, the total is the number of matches, and the recipes are the reads of the matches from (p - 1) * n up to p * n, with n the size asked for if it lies in 1..100 and else 20, and p the page asked for or 1; nothing where 32 bits cannot hold the offset |
| RecipeSearch.MatchesOrdered | internal/db/sqlc/recipes.sql.go:355-370 | the matches are exactly the selected recipes, ascending by name and, among equal names, by id |
| RecipeSearch.AskedPagesTile | internal/repository/recipe_repository.go:283-337 | asked for in pages of a size in 1..100, the first n pages are the first n * size matches |
| RecipeSearch.PageExact | internal/repository/recipe_repository.go:309-320 | a page is the true slice exactly when its offset can be addressed or nothing lies there |
| RecipeSearch.PagesTile | internal/repository/recipe_repository.go:283-337 | with at most 2^31 matches, pages 1..n concatenate to the first n * size matches, and to all of them once n * size reaches the total |
| RecipeSearch.SelectedMeaning | internal/db/sqlc/recipes.sql.go:361-366 | the WHERE clause is substring search, category membership and status, each only if asked for |
| LikeSearch.EscapeIsOnePass | internal/db/sqlc/recipes.sql.go:361-362 | the three nested replaces equal one single-pass escape |
| LikeSearch.SearchIsSubstring | internal/db/sqlc/recipes.sql.go:361-362 | the pattern never ends in a dangling escape and matches exactly the strings that contain the text |
| LikeSearch.TextFilterMeaning | internal/db/sqlc/recipes.sql.go:361-362 | the filter is substring search in lowered strings, for every text and name |
| RoundTrip.ToRecipeDTO | internal/api/dto.go:87-108 | the body shows the recipe: its id and texts, every line by name, amount and unit, every category by id and name, in order |
| RoundTrip.DtoToRecipe | internal/api/handlers_recipes.go:211-225 | the recipe asks for what the body says, every line and category by name, in order, and carries no ids |
| RoundTrip.HandleCreate | internal/api/handlers_recipes.go:81-117 | a body is refused exactly for an empty name, an empty source or an illegal status; where nothing is lost, a conflict is exactly a stored source and anything else with lines that can be numbered is created; success adds one row with the body's fields, published if no status was sent, and answers with its id |
| RoundTrip.HandleUpdate | internal/api/handlers_recipes.go:128-159 | a body is refused exactly for an empty name or an illegal status; where nothing is lost, "not found" is exactly a missing recipe; success leaves the body's fields in that row, source and creation time kept, and answers with its id; anything else leaves the tables alone |
| RoundTrip.WriteBack | internal/repository/recipe_repository.go:111-236 | writing back known lines by id or by name succeeds, reads back as those lines, creates no lookup row and changes no other recipe |
| RoundTrip.ReadThenUpdate | internal/repository/recipe_repository.go:111-143 | reading a recipe and updating it with the result changes nothing a read can see but the update time |
| RoundTrip.GetThenPut | internal/api/handlers_recipes.go:128-159 | a GET and a PUT of its body through the handlers: refused exactly for an empty recipe name; accepted, it creates no lookup row, changes no other recipe, and changes nothing but the update time exactly when no line uses a unit with an empty name; otherwise nothing changes |
| RoundTrip.GetShows | internal/api/dto.go:87-108 | the body of a GET has the id asked for and shows the recipe read |
| RoundTrip.BodyWrittenBack | internal/api/handlers_recipes.go:211-225 | the same of the repository's update with the names-only body of a read |
| RoundTrip.EmptyUnitIsLost | internal/api/handlers_recipes.go:219-223 | a store in which the round trip loses a line's unit |
| RoundTrip.OtherReadsUnchanged | internal/repository/recipe_repository.go:199-236 | a write that leaves the other recipes' rows alone and only adds lookup rows changes no read of another recipe |
| RoundTrip.CreateLeavesReads | internal/repository/recipe_repository.go:69-106 | a Create of any recipe changes no read of any recipe there was |
| RoundTrip.UpdateLeavesOtherReads | internal/repository/recipe_repository.go:111-143 | an Update with any recipe changes no read of another |
| RoundTrip.DeleteLeavesOtherReads | internal/repository/recipe_repository.go:260-269 | a Delete changes no read of another recipe, and the deleted one is no longer there |
| WriteEcho.CreateEcho | internal/repository/recipe_repository.go:69-106 | for every recipe of up to 2^31 lines, what Create hands back is what a read returns if and only if its categories came in strictly ascending order of names and the row of every id it carried has the name carried with it |
| WriteEcho.UpdateEcho | internal/repository/recipe_repository.go:111-143 | the same of Update, if and only if the source handed in is the stored one too |
| WriteEcho.FitsBeforeAsAfter | internal/repository/recipe_repository.go:163-178 | whether carried ids and names fit can be told from the tables before the write, if the ids exist there; names without ids always fit (NamesOnlyFit) |
| WriteEcho.PostEcho | internal/api/handlers_recipes.go:99-116 | the body a POST answers with is the body of a GET if and only if the categories were sent in strictly ascending order of names |
| WriteEcho.PutEcho | internal/api/handlers_recipes.go:145-158 | the same of a PUT, if and only if the source sent is the stored one too |
| WriteEcho.PostOutOfOrder | internal/api/handlers_recipes.go:99-116 | for every collation two categories whose POST answers with a body no GET returns |
| WriteEcho.PutWithoutSource | internal/api/handlers_recipes.go:126-158 | a PUT that may leave the source out and then answers with a body no GET returns |
| StoredRecipes.CreateKeeps | internal/repository/recipe_repository.go:69-106 | a Create loses nothing: every recipe keeps its row, lines and links |
| StoredRecipes.CreateHolds | internal/repository/recipe_repository.go:69-106 | a recipe created by its names is in the tables under a fresh id with its row, its lines in order and its categories, each by the row of its name |
| StoredRecipes.StaysHeld | internal/repository/recipe_repository.go:199-236 | and it stays there through every change that loses nothing |
| StoredRecipes.HeldReads | internal/repository/recipe_repository.go:392-413 | a read of a recipe the tables hold returns its fields, every line in order and its category names sorted, each once |
| StoredRecipes.PostReads | internal/api/handlers_recipes.go:99-116 | after a POST a read returns what the body said: texts, source, every ingredient in order, and the category names sorted, each once |
| StoredRecipes.PutReads | internal/api/handlers_recipes.go:145-158 | after a PUT a read returns what the body said, under the source there was |
| Renumber.PositionsCountUp | internal/db/migrations/0003_recipe_ingredient_position_unique.sql:16-22 | after the UPDATE each recipe's positions are exactly 0..n-1, each once |
| Renumber.ConstraintApplies | internal/db/migrations/0003_recipe_ingredient_position_unique.sql:24-25 | so the unique constraint always applies |
| Renumber.ReadOrderKept | internal/db/migrations/0003_recipe_ingredient_position_unique.sql:11-14 | the line query has the same answers before and after |
| Renumber.UntouchedExactly | internal/db/migrations/0003_recipe_ingredient_position_unique.sql:22 | a recipe is left alone exactly when its positions were already 0..n-1 |
| Renumber.UniqueYetMoved | internal/db/migrations/0003_recipe_ingredient_position_unique.sql:14 | a unique position that is changed all the same |
| Renumber.OnlyPositionsChange | internal/db/migrations/0003_recipe_ingredient_position_unique.sql:16-22 | the UPDATE adds and removes no row and changes no column but the position |
| Renumber.RenumberTwice | internal/db/migrations/0003_recipe_ingredient_position_unique.sql:16-22 | running the UPDATE again would change nothing |
| Renumber.FitsExactly | internal/db/migrations/0003_recipe_ingredient_position_unique.sql:19 | the cast to a 32-bit integer refuses the statement exactly when a recipe has more than 2^31 lines |
| Renumber.LineTable.Up | internal/db/migrations/0003_recipe_ingredient_position_unique.sql:16-25 | the migration renumbers and adds the constraint, or leaves the table as it was; only the cast can stop it |
| ClientSlot.OneInside | internal/instagram/client.go:117-142 | at most one function runs inside the client at a time, in every interleaving of callers and abandoned goroutines |
| ClientSlot.SlotFullExactly | internal/instagram/client.go:121-134 | the slot is full exactly while some admitted call has not given it back |
| ClientSlot.FinishingNeverBlocks | internal/instagram/client.go:127-134 | a goroutine whose function has returned can release the slot and leave its result at once, even when its caller has given up |
| ClientSlot.RefusedNeverRan | internal/instagram/client.go:121-125 | a caller refused the slot never ran its function |
| ClientSlot.RefusedForGood | internal/instagram/client.go:121-125 | nor does any later step run it |
| ClientSlot.ReplyIsTheAnswer | internal/instagram/client.go:193-203 | what request returns is its own function's answer, read only once the goroutine that wrote it is through |
| ClientSlot.NoWriteBehindReader | internal/instagram/client.go:193-203 | no step writes the body after run has returned to a caller that reads it |
| ClientSlot.CallerCanLeave | internal/instagram/client.go:118-141 | every caller can return once its deadline passes, whatever the others do |
| ClientSlot.HungHolderKeepsSlot | internal/instagram/client.go:110-116 | while the holder hangs, no other call is admitted |
| ClientSlot.Recovers | internal/instagram/client.go:114-116 | if an abandoned call ever returns, its own remaining steps free the slot and a waiting caller is admitted |
| ClientSlot.UndisturbedCall | internal/instagram/client.go:112-143 | where the slot is free a call can get in, run once, give the slot back and return what its function answered, body or error |
| ClientLogin.Client.Do | internal/instagram/client.go:151-189 | the method computes the specified reply, state and history |
| ClientLogin.Client.LoginOrRestore | internal/instagram/client.go:215-229 | the account is stored whatever happens; a session restored from disk is held without a login, otherwise one login is made and the session is held exactly if it succeeded |
| ClientLogin.Client.Reauthenticate | internal/instagram/client.go:284-298 | a login is attempted only with a username and past the floor |
| ClientLogin.OneLoginTwoRequests | internal/instagram/client.go:151-189 | one do logs in at most once and sends at most two requests, because two two-minute calls fit under the fifteen-minute floor |
| ClientLogin.LogsInExactly | internal/instagram/client.go:157-175 | a do logs in exactly when there is a username, no session or a stale one, and the floor has passed by then |
| ClientLogin.DoExactly | internal/instagram/client.go:147-202 | the whole history of a do, from account, session, last login and answers: which requests and logins, when, with which account and how they went |
| ClientLogin.BootExactly | internal/instagram/client.go:218-232 | what LoginOrRestore leaves: the account given, a session exactly if it was restored or the login succeeded, one entry on record |
| ClientLogin.SessionIsLastAttempt | internal/instagram/client.go:246-270 | after any sequence of operations a session is held exactly when the last login or restore succeeded |
| ClientLogin.SessionIsUsed | internal/instagram/client.go:147-166 | from then on a do sends its request at once, answers with its body, and logs in only if it was answered by a stale session |
| ClientLogin.NoRequestWithoutSession | internal/instagram/client.go:147-158 | after a failed attempt, or none, no request is sent before a login has succeeded |
| ClientLogin.AccountIsKept | internal/instagram/client.go:218-222 | the account of all later logins is the one LoginOrRestore was given last |
| ClientLogin.OnlyStaleSessionsGoOn | internal/instagram/client.go:163-188 | a request answered by a rate limit, a challenge or anything but a stale session is the last thing a do does |
| ClientLogin.ReplyIsTheVerdict | internal/instagram/client.go:163-188 | the error a caller gets is determined by the last thing that happened |
| ClientLogin.FloorHolds | internal/instagram/client.go:282-298 | over every sequence of calls, pauses and restores, a login by reauthenticate starts at least fifteen minutes after the attempt before it |
| ClientLogin.LoginsBounded | internal/instagram/client.go:33-37 | within any stretch of a history, n logins take at least n - 1 floors |
| ImportWorker.Worker.Enter | internal/pipeline/worker.go:152-166 | a run is admitted exactly when none is in flight and no cooldown is running, and only then is anything changed |
| ImportWorker.Worker.Leave | internal/pipeline/worker.go:170-193 | a refusal by the lock clears only the running flag; any other outcome records time, tally and error together and starts a cooldown exactly for a rate limit |
| ImportWorker.Worker.Cooldown | internal/pipeline/worker.go:206-215 | the answer is exactly how long a run is still refused |
| ImportWorker.Worker.RecordFailure | internal/pipeline/worker.go:231-239 | only the last error changes |
| ImportWorker.StatusIsLastRun | internal/pipeline/worker.go:217-229 | the status a history leaves has time and tally of its last completed run |
| ImportWorker.ErrorIsLastNoted | internal/pipeline/worker.go:188-239 | the error a history leaves is that of its last completed run or later reported failure |
| ImportWorker.StatusIgnoresEmptyCalls | internal/pipeline/worker.go:154-182 | striking a call that completed no run out of a history leaves the same status |
| ImportLock.OneImport | internal/db/lock.go:24-78 | where the database never ends the session of a living holder, at most one import holds the lock over all servers, commands and deaths, in the session the database knows |
| ImportLock.OneOwner | internal/db/lock.go:52-64 | in every interleaving, lost sessions included, the session that holds the lock belongs to at most one party |
| ImportLock.OneImportExactly | internal/db/lock.go:52-64 | from a reachable state on, imports stay apart in every run that loses no further holder's session if and only if no holder has lost its session already |
| ImportLock.LossAdmitsAnother | internal/db/lock.go:52-64 | once a living holder's session is gone, a second import gets in |
| ImportLock.TwoImports | internal/db/lock.go:52-64 | a run in which the database ends the first import's session and two imports run at once |
| WorkerRuns.SingleFlight | internal/pipeline/worker.go:152-186 | each worker has at most one run in flight, and its running flag is set exactly then |
| WorkerRuns.CooldownRespected | internal/pipeline/worker.go:158-193 | no worker admits a run within half an hour of a rate limit it recorded |
| WorkerRuns.AdmittedExactly | internal/pipeline/worker.go:152-166 | in every reachable state a call is admitted exactly when no call of the server is in a run and half an hour has passed since every rate limit on record |
| WorkerRuns.FinishedRunShows | internal/pipeline/worker.go:170-193 | once a run has ended, the worker shows its time, tally and error, and a rate limit has started half an hour of cooldown |
| WorkerRuns.UnreachableLockShows | internal/pipeline/pipeline.go:130-141 | a run that cannot ask for the lock is recorded as failed with an empty tally |
| WorkerRuns.CooldownNeverMovesBack | internal/pipeline/worker.go:189-192 | over every run, cooldownUntil of a worker never decreases |
| WorkerRuns.StatusTellsOneRun | internal/pipeline/worker.go:184-204 | in every reachable state LastRun and LastResult come from one same completed run, the last |
| WorkerRuns.StatusTellsLastError | internal/pipeline/worker.go:184-239 | in every reachable state the error shown is that of the last completed run or of a failure reported since |
| WorkerRuns.EmptyCallsLeaveNoTrace | internal/pipeline/worker.go:154-182 | along every run, no step of a call that is skipped or refused in the end changes what its worker's status shows, but for whether a run is in flight |
| WorkerRuns.EmptyCallsNotInStatus | internal/pipeline/worker.go:154-182 | in every reachable state the status is the one the history leaves with the events of such a call struck out |
| WorkerRuns.RanIsRecorded | internal/pipeline/worker.go:184-203 | a call that returned a result is on record exactly once, with that result |
| ImportLock.SecondLockRefused | internal/server/import.go:45-58 | while any session holds the lock every attempt at it is refused, one by the holder's own process too, and only the owner's own step or the database ends that |
| ImportLock.LoginUnderLock | internal/server/import.go:39-62 | where no holder loses its session, a command that logs in is the one import there is and owns the lock |
| ImportLock.ContactUnderLock | internal/server/import.go:39-79 | where no holder loses its session, every contact on the log that an import made with Instagram was made while the lock was held in that import's own session |
| ImportLock.ContactsAreLogged | internal/server/import.go:39-79 | every step that contacts Instagram is on the log, with the session that held the lock just then, and no other step is |
| ImportLock.TurnedAwayBeforeContact | internal/server/import.go:39-62 | no contact on the log is of a command the lock turned away, or of a call that was skipped or refused |
| ImportLock.LockComesBack | internal/db/lock.go:67-78 | a lock no living party owns is ended by the database alone, and the next import gets it |
| ImportLock.FreeLockIsTaken | internal/db/lock.go:32-64 | a free lock goes to the call that asks for it |
| ImportLock.FinishedImportFrees | internal/db/lock.go:67-78 | an import that ends and closes its session frees the lock it owns |
| ImportLock.CommandEnds | internal/server/import.go:39-85 | a command says which of lock, login and import failed, or that none did, and frees the lock it owned when its session closes |
| ImportLock.DeathFreesLock | internal/db/lock.go:67-69 | an owner's death leaves nobody owning the lock |
| Shutdown.PoolOutlivesItsUsers | internal/server/server.go:102-139 | unless the budget runs out, the pool is closed only when no handler, schedule loop or triggered import is left, on the cancelled and the listen-failure path alike |
| Shutdown.QuietForGood | internal/server/server.go:102-139 | and after that nothing of the process moves any more |
| Shutdown.NoTriggerDuringWait | internal/pipeline/worker.go:121-139 | once the wait for the worker begins within the budget, no handler can start or trigger an import |
| Shutdown.EarlyReturnStartedNothing | internal/server/server.go:43-94 | a startup failure after the pool is open has started nothing |
| Shutdown.BudgetEndsTheWait | internal/server/server.go:112-127 | whatever is still running, the end of the budget is enough for Run to return |
| Shutdown.ReturnsOnceWorkEnds | internal/server/server.go:102-139 | once cancelled or failing to listen, Run returns within the budget as soon as handlers and imports end: no wait needs the budget to run out |
| Shutdown.ScheduledRunIsAwaited | internal/server/server.go:112-127 | a reachable state in which a run of the schedule keeps Run waiting, and its end lets the wait end |
| Shutdown.ScheduleRunsOn | internal/pipeline/worker.go:86-94 | the schedule's loop ends only after a cancellation |
| Shutdown.ExpiryAbandonsAnImport | internal/server/server.go:28-33 | a run in which the budget ends and the pool is closed under a running import |
| Names.SanitizedIsNormal | internal/pipeline/pipeline.go:300-315 | the result is one line with single interior spaces, no control characters and at most maxRunes runes, and another pass changes nothing |
| Names.KeptExactly | internal/pipeline/pipeline.go:300-315 | a name is left alone exactly when it is in that form and within the bound |
| Names.SanitizedKeepsText | internal/pipeline/pipeline.go:300-315 | the visible characters are a prefix of the input's, all of them unless the bound cut some off |
| Names.SanitizedKeepsWords | internal/pipeline/pipeline.go:300-315 | unless the bound cuts some off, the words are those of the input, none run together and none split |
| Names.TighterIsPrefix | internal/pipeline/pipeline.go:311-314 | a tighter bound gives a prefix of what a wider one gives |
| Names.FoldsAgree | internal/pipeline/pipeline.go:390-392 | two names have one fold exactly when, sanitized and bounded, they agree rune by rune under the case mapping |
| Names.Resolve | internal/pipeline/pipeline.go:355-381 | the loop keeps exactly the proposals whose fold is in the vocabulary, and passes all through without one |
| Names.FoldedMeaning | internal/pipeline/pipeline.go:334-349 | a fold is in the vocabulary exactly when a stored name has it, and stands for such a name |
| Names.LastSpellingWins | internal/pipeline/pipeline.go:344-348 | of several stored names with one fold the last is the spelling kept |
| Names.ResolvedMeaning | internal/pipeline/pipeline.go:355-381 | only stored names come out, in proposal order, each with the fold of its proposal, and nothing a stored name matches is dropped |
| Names.ResolveTwice | internal/pipeline/pipeline.go:355-381 | resolving its own output changes nothing |
| Scoring.ExtractByRules | internal/extraction/rules.go:46-90 | lines are trimmed and sorted into sections by the last header before them, and the score is given the number of lines offered, never fewer than parsed |
| Scoring.LinesInMeaning | internal/extraction/rules.go:51-70 | a line is offered as an ingredient, or as an instruction, exactly when it is not blank, no header, and the last header before it is of that kind; offered lines keep caption order, trimmed |
| Scoring.ParsedMeaning | internal/extraction/rules.go:76-80 | the ingredients are what the offered lines that parse parse to, in order |
| Scoring.JoinedMeaning | internal/extraction/rules.go:72-75 | instructions are joined by single line breaks |
| Scoring.IngredientScore | internal/extraction/rules.go:269-289 | the loop's score is the function of the three counts that the lemmas speak of |
| Scoring.RulesScoreMeaning | internal/extraction/rules.go:252-258 | the score lies in [0,1], is 0 exactly when nothing parsed and instructions are blank, at most 1/2 with one half missing, and 1 exactly for a full titled caption |
| Scoring.HalvesAndTitle | internal/extraction/rules.go:252-266 | both sections weigh the same, and a caption without a title of its own loses a quarter |
| Scoring.AmountsAreCounted | internal/extraction/rules.go:281-286 | exactly the ingredients with a positive amount count |
| Scoring.ParsedLineNeverLowers | internal/extraction/rules.go:269-289 | another parsed line with an amount never lowers the ingredient score |
| Scoring.UnparsedLineNeverRaises | internal/extraction/rules.go:269-289 | another line that does not parse never raises it |
| Scoring.ParseToolInput | internal/extraction/llm.go:134-174 | an LLM answer is accepted exactly when it says a recipe with an ingredient, non-blank instructions and a positive confidence, and then scores at most both its own and the structural confidence |
| Scoring.StructuralMeaning | internal/extraction/llm.go:176-206 | the structural score is 0 or at least 0.55, positive exactly with both halves present, and 1 exactly for a full list with amounts and a long text |
| Scoring.StructuralTerms | internal/extraction/llm.go:176-206 | with both halves present: one half, a twentieth for each of the first four ingredients, and up to 0.15 each for amounts and 80 bytes of text |
| CaptionSpan.OneMatchPerStart | internal/extraction/llm.go:64 | at most one match of the tag pattern starts at any place |
| CaptionSpan.ReplacedIsTagFree | internal/extraction/llm.go:68-70 | replacing tags never creates one, neither between replacements nor out of their neighbours |
| CaptionSpan.TagFreeUnchanged | internal/extraction/llm.go:68-70 | a caption without tags is embedded unchanged |
| CaptionSpan.FirstTagReplaced | internal/extraction/llm.go:68-70 | the leftmost tag becomes the replacement, what stands before it is copied, and the rest is treated as a caption of its own |
| CaptionSpan.TagFreeWrapped | internal/extraction/llm.go:66-70 | a caption without tags stands between the two tags as it is |
| CaptionSpan.ExactlyTwoTags | internal/extraction/llm.go:66-70 | the wrapped text has exactly two matches, the opening tag at its start and the closing tag at its end |
| CaptionSpan.CapCaption | internal/extraction/caption.go:21-35 | the byte cut keeps the encoding of exactly the first 8000 whole runes, or of all |
| ImportAccount.TallyBalances | internal/pipeline/pipeline.go:58-77 | Seen is the sum of the four buckets and the number of counted posts, and Degraded lies within Imported |
| ImportAccount.TallyCounts | internal/pipeline/pipeline.go:58-77 | each bucket is the number of posts with the outcome it is named for |
| ImportAccount.OutcomeMeaning | internal/pipeline/pipeline.go:163-221 | a post counts as without a recipe exactly when none was found or its confidence is not positive; where nothing stands in the way, it is skipped exactly when its source was stored before or earlier in the run, and else imported |
| ImportAccount.StoreGrowsByImported | internal/pipeline/pipeline.go:205-221 | the store gains exactly as many sources as the tally says were imported |
| ImportAccount.ImportedAreNew | internal/pipeline/pipeline.go:190-209 | imported posts have pairwise distinct sources, none stored before |
| ImportAccount.RepeatImportsOnlyTheRest | internal/pipeline/pipeline.go:205-242 | whatever a later run fetches, it imports a post, by its source and with the same extraction, only if the earlier run failed on it or did not get to it |
| ImportAccount.RepeatSkipsTheStored | internal/pipeline/pipeline.go:205-217 | a post the earlier run stored or found stored is skipped when met again, or fails only where the store may fail |
| ImportAccount.CleanRunStores | internal/pipeline/pipeline.go:153-222 | a run in which nothing goes wrong stores exactly the sources of the posts with a recipe |
| ImportPipeline.Pipeline.Run | internal/pipeline/pipeline.go:130-228 | on every return path the tally is that of a prefix of the fetched posts, each with an outcome its turn explains; every recipe stored before keeps its row, lines and links, every imported post is stored under a new id as a recipe that says what the post and its extraction say, the stored sources and lookup rows grow by no more than that; no more posts and requests than allowed are taken and sent; a refused run sends and changes nothing; the error says which path it was |
| ImportPipeline.Pipeline.ImportPost | internal/pipeline/pipeline.go:163-221 | a post has no recipe exactly when none was found or its confidence is not positive; where nothing is lost it is skipped exactly when its source is stored and else stored as the recipe it was turned into; it fails only for its extractor, a lost statement or too many lines; a cancellation that cuts it off leaves no trace |
| ImportPipeline.Pipeline.ToRecipe | internal/pipeline/pipeline.go:249-284 | the loops build a recipe with the extraction's instructions, the post's image and source, the sanitized title or the fallback, the status by the threshold, one line for each ingredient that keeps a name, with its amount and unit, in order, and the resolved category names, none with an id |
| ImportPipeline.RunLeavesReads | internal/pipeline/pipeline.go:130-228 | whatever a run imports and wherever it stops, no read of a recipe stored before changes |
| ImportPipeline.ImportedReadsBack | internal/pipeline/pipeline.go:190-221 | each imported post reads back under the one id that has its source, a new one: sanitized title or fallback, the extraction's instructions, the post's image and source, status by the threshold, every ingredient that keeps a name in order with amount and unit, and the resolved category names sorted |
| ImportPipeline.NothingElseStored | internal/pipeline/pipeline.go:153-221 | each recipe a run adds is what exactly one imported post and its extraction say |
| ImportPipeline.StoredIsHeld | internal/pipeline/pipeline.go:188-204 | storing the recipe of one post loses nothing and leaves the tables holding it |
| ImportPipeline.RecipeIsTame | internal/pipeline/pipeline.go:249-298 | whatever an extraction says, the recipe has a usable title, a legal status, published exactly from the threshold on, and only bounded one-line names |
| ImportPipeline.ImportIsContained | internal/pipeline/pipeline.go:91-103 | storing an import adds only bounded one-line names to ingredients and units, and with a vocabulary no category at all |
| ImportPipeline.DuplicateIsStored | internal/pipeline/pipeline.go:188-209 | an import is skipped as a duplicate exactly when its source is stored |
| ImportPipeline.NewRecipeGoesIn | internal/pipeline/pipeline.go:249-284 | an import whose source is new goes in: it carries no id that could dangle and its status is legal |
| ImportPipeline.HookIsStore | internal/server/fetcher.go:44-65 | the walk's hook knows exactly the stored sources whose lookup is answered, and with every lookup answered exactly the stored ones |
| ImportPipeline.RunIsBacklogRun | internal/pipeline/pipeline.go:130-228 | what a whole run in which nothing goes wrong stores - walk, extraction and writes together - is exactly one backlog step |
| ImportPipeline.CleanRunSteps | internal/pipeline/pipeline.go:130-228 | from what Run ensures of a granted run, a clean one takes the stored sources exactly one backlog step further |
| ImportPipeline.DatabaseDrains | internal/instagram/saved.go:144-150 | with U < MaxItems posts never stored, over n clean runs in a row on one feed, each as Run reports it, at most R - n * (MaxItems - U) storable posts are left unstored; when that is nothing, every storable post of the feed is in the tables |
| Backlog.NothingRemains | internal/instagram/saved.go:144-150 | no storable post remains exactly when every storable post of the feed is stored |
| ImportPipeline.SecondRunImportsTheRest | internal/pipeline/pipeline.go:130-242 | of two runs one after the other, the second imports only posts the first failed on or did not get to |
| ImportPipeline.SecondRunPassesTheStored | internal/server/fetcher.go:44-65 | while its lookups are answered, the second run does not even fetch what the first stored or found stored |
| ImportPipeline.RowsGrowByImported | internal/pipeline/pipeline.go:205-221 | the recipes table grows by exactly as many rows as the tally says were imported |

## Left out

- RecipeRepository.Repository.Create: a commit whose outcome the client never learns counts as failed and changes nothing; transactions are taken one after the other, and a failed one uses up no sequence number.
- WriteEcho.CreateEcho: says nothing of recipes with more than 2^31 lines, whose positions no longer count up; neither do the other theorems about reading back what was written.
- RecipeSearch.Search: the count and the page are answers about the same tables, and a failing query is not modelled.
- RecipeReads.Assemble: the failing child queries are not modelled.
- ClientLogin.FloorHolds: one call at a time. The floor check is not atomic with the login, so concurrent calls on one client may both pass it. Time passes only inside the bounded calls and between calls.
- ClientSlot.OneInside: the channel, the select and the goroutine start are single steps; the Go scheduler's delays are the freedom of the interleaving.
- ImportLock.ContactUnderLock: the login a server makes once at startup happens outside the lock, so logins of different processes are not serialised.
- ImportLock.OneImport: the section that records a run reads the clock twice with nothing of other processes in between.
- Shutdown.PoolOutlivesItsUsers: net/http's handling of idle and new connections during Shutdown is reduced to accepted connections that may still begin a request until they are closed.
- ImportPipeline.Pipeline.Run: nobody else writes the tables during a run; the category query, if it is answered, answers with names that are stored.
- Scoring.RulesScoreMeaning: scores are exact reals; rounding is not modelled. The patterns for headers, ingredient lines and titles are parameters.
- Names.FoldedMeaning: case mapping is a parameter that maps each rune to one rune; White_Space and Cc are written out.
- CaptionSpan.ExactlyTwoTags: a caption is a sequence of runes; invalid UTF-8 is not modelled.
- JSON decoding is a classification: an item is undecodable, or media under its key or directly; a page is one or is not.
- The HTTP transport, routing, middleware, authentication, the frontend, configuration, logging, embedding and release tooling.
- The Instagram, LLM, database-driver and migration libraries themselves.
- Resolving a collection by name and its cache, `Classify`, keyword categories and the hybrid extractor: small branch tables.
- The lookup endpoints and the create handler, which add no property beyond the update handler's.
