# atsume: a verified model

atsume keeps a library of comics by reading sites through scraping modules. This
project models the parts of it whose correctness is a matter of arithmetic, state
and interleaving rather than of I/O, and proves what they promise.

- **Reading a site's catalogue.** `CatalogueStore.dfy` is the two tables and the
  transactions on them, `SiteBrowse.dfy` the walk through a directory's sections,
  `CatalogueRead.dfy` the read loop with its batches, failures and resumption,
  `CatalogueDirectory.dfy` what a whole read finds on a site and leaves in the store,
  and `CatalogueRuns.dfy` every run of such reads. A site is an arbitrary function
  from positions to entries.
- **Jobs.** `JobQueue.dfy` is the jobs table and its statements, `WorkerPool.dfy`
  the pool's signals and an interleaving machine over the workers' steps.
- **Library files.** `FileClaims.dfy` is the claim table, the lookup in the store
  that runs under its lock, and the downloads interleaved around them.
- **Images.** `ImagePuzzle.dfy` is tile descrambling on flat pixel buffers,
  `Otsu.dfy` thresholding over the reals.
- **TXQuery.** `Scanner.dfy` holds the literal-aware scanners, `LiteralPasses.dfy`
  the passes that must leave literals alone, `CallCount.dfy` and `CallRewrites.dfy`
  the loops that rewrite calls and why they end, `CallTexts.dfy` the texts they write
  in place of a call, `JsonTree.dfy` and
  `Navigation.dfy` the JSON tree and the location paths that stand for XQuery
  lookups, `JsonSuffixes.dfy` what the suffixes of `json()` mean and when their path
  selects that, `JsonExpressions.dfy` what the passes make of a whole expression, and
  `TrailingCommas.dfy` the repair of JSON texts.
- **Lists and schedules.** `StringList.dfy` is the TStringList codec,
  `CheckSchedule.dfy` the choice of series to check.

`Options.dfy`, `Sets.dfy` and `Spaces.dfy` are small helpers. Every operation that
updates state in the program is a method here, proved equal to a function of the old
state; the theorems are about those functions and about machines built on them.
`dafny verify dfyconfig.toml` checks the whole project.

## What is proved

1. A read broken off any number of times, carried on each time, and then let finish
   leaves what one unbroken read leaves (`InterruptedReadIsUninterruptedRead`); the
   two columns that can differ, and exactly when they do, are part of the statement.
2. A read asks for the pages of a site's directory in order, each once. On a site each
   page of which has a new link it finds exactly what the site lists, exactly if no
   section with titles comes after three empty ones in a row (the first section
   aside). What each kind of end leaves in the store is stated in full.
3. Over every run of reads: a catalogue that held a title never empties, an
   incomplete end loses nothing, a complete one leaves exactly what it read, and the
   New marker is exact.
4. In every interleaving of workers, enqueues, pauses, resumes, failures and
   restarts: no wake-up is lost, a running job has one holder, attempts are bounded,
   done and failed are final, and a pause lets at most one more claim per worker by.
   A handler's error puts the job off by two minutes, then four, while attempts are
   left, and no worker takes it before its time.
5. Each library path belongs to one chapter at most in every reachable state, as
   long as no claim is taken on a path already held; whenever one is, some
   continuation gives the path to two chapters.
6. Descrambling undoes scrambling pixel for pixel, the inverse puzzle restores the
   input, and no tile is ever clipped; the tile side is the greatest multiple that
   fits, and where each pixel goes is stated in numbers.
7. Otsu's running formula is the between-class variance, and the threshold is the
   smallest that maximises it.
8. The text the passes leave for an expression on `json(*)` reads as a location path
   that selects exactly the trees of the values the expression means, in order, on
   every document exactly if no plain `()` comes before a `()[n]` or some index is 0
   (`JsonSuffixes.AgreesExactly`); for every other expression there is a document from
   which it selects more. The texts it reads are those of the values, and the tree
   tells values apart exactly as far as names and texts do.
9. Dropping trailing commas gives the strict text of the same value, and one pass is
   enough exactly if no comma is followed by one that is dropped; list codecs round-trip
   exactly when they can; literals survive the passes; every rewriting loop ends on
   every text, and what it writes for a call is stated with any text around it.
10. A series due for a check is taken within as many sweeps as it takes to work through
   those ahead of it with some of each batch failing; with as many failing as a batch
   holds it is never taken.

## Where the code falls short of what it is for

- An empty read over a kept list is meant to leave it "still saying where it came
  from and how old it is" (`internal/app/catalogue_index.go`, lines 246 to 250). If
  that read was interrupted and carried on, the source has by then become the site,
  and the date is gone. `CatalogueRead.InterruptedReadIsUninterruptedRead` says
  exactly when: a list was stored, nothing was found, and the list came from a
  published snapshot or had a date. `CatalogueRead.DateIsLost` is such a read.
- A request gives up after four empty pages or sections, to keep a click from becoming
  a burst (`internal/app/app.go`, lines 189 to 194). The catalogue read takes an
  answer without titles for the end, so three empty sections after one with titles end
  it complete, and titles listed further on are removed from the store.
  `CatalogueDirectory.FindsWhatIsListed` says exactly when a read misses titles, and
  `CatalogueDirectory.TitleAfterGapIsLost` is such a read.
- A claim names the chapter, not the download, so a second download of a chapter can
  take a claim the first still holds. `FileClaims.OneChapterPerPath` and
  `FileClaims.SharedClaimBreaks` show this to be exactly what breaks the rule of one
  chapter per path.
- A suffix `()[n]` picks one of all the members on its left, as a predicate filters
  the whole sequence (section 3.2.1 of XQuery 3.1). The location path for it,
  `/*[n]`, picks one for each array, so after a plain `()` it selects too much:
  `json(*).a().b()[1]` becomes `/a/*/b/*[1]`. `JsonSuffixes.AgreesExactly` says that
  it fails on some document exactly if a plain `()` comes before a `()[n]` and no
  index is 0, and `JsonSuffixes.PathIsWrong` builds the document.
- A lookup written straight on `json(*)`, without a suffix first, becomes a path with
  two slashes, which searches at every depth instead of looking one key up
  (`Navigation.ChainThenLookups`, `JsonExpressions.ReadExactly`). For every chain of
  such lookups with no index 0 there is a document on which it finds more
  (`JsonExpressions.DocumentLookupSearches`).
- Taking the series checked longest ago first is meant to drain a backlog fairly
  rather than starve whichever sorts last (`internal/store/store.go`, lines 606 and
  607). A failed check leaves the time of the last one alone, so a series that keeps
  failing stays first. As long as fewer fail than a batch holds the rest is drained
  (`CheckSchedule.TakenInTime`); when as many fail, what comes after them is never
  checked (`CheckSchedule.NeverTaken`).
- A key `parse-json` with a parenthesis right after it is taken for a call to that
  function; `JsonExpressions.JsonPassIsExact` shows that this is the only chain of
  suffixes misread.

## Model

| member | source | states |
|---|---|---|
| CatalogueStore.AddedStamps | internal/store/catalogue.go:149-167 | A batch keeps every stored title, stamps exactly its own non-empty URLs with the read's number, keeps `first_read` of a title already stored and sets it for a new one. |
| CatalogueStore.CleanTitleIsItsWords | internal/store/store.go:155-157 | A cleaned name is the words of the name with one blank between each two. |
| CatalogueStore.Store.SiteCatalogueInfo | internal/store/catalogue.go:285-291 | The number of titles stored, where they came from and how old they are. |
| CatalogueStore.Store.BeginSiteCatalogue | internal/store/catalogue.go:107-129 | A read starts under the next number; the titles stay, `new_from` is that number if any title is stored and 0 if none is, and the old position is not cleared. |
| CatalogueStore.Store.AddSiteTitles | internal/store/catalogue.go:137-169 | The titles after the upserts of a batch, in order. |
| CatalogueStore.Store.FinishSiteCatalogue | internal/store/catalogue.go:198-233 | A complete end deletes the titles other reads stamped and clears the position; an incomplete one deletes nothing and records it; source and date are the outcome's; `pages` changes only on a complete read of the site. |
| CatalogueStore.Store.ResumeSiteCatalogue | internal/store/catalogue.go:238-268 | What there is to carry on: the number, the position, the steps and the URLs stamped by that read, only for an incomplete read with a position. |
| SiteBrowse.Browse | internal/app/app.go:203-238 | The first non-empty page within four sections, or the position past them. |
| SiteBrowse.BrowseFindsFirst | internal/app/app.go:215-237 | The answer is the first non-empty page in position order, every page tried before it was empty, and the next position comes after it. |
| SiteBrowse.ChallengeIsOfLastPage | internal/app/app.go:215-237 | The answer says of a challenge what the last page asked for did. |
| CatalogueRead.Collect | internal/app/catalogue_index.go:185-226 | The new links of one position join `seen`, and rows stamped so far plus the unflushed batch are together exactly the titles seen. |
| CatalogueRead.ReadPosition | internal/app/catalogue_index.go:202-234 | One iteration of the read loop. |
| CatalogueRead.ReadLoop | internal/app/catalogue_index.go:178-238 | The loop reads up to its end or to the failing request, and stores everything it saw either way. |
| CatalogueRead.StartRead | internal/app/catalogue_index.go:129-156 | A resumed job goes on with the read it finds; any other starts a new one. |
| CatalogueRead.IndexSite | internal/app/catalogue_index.go:111-267 | The tables after a whole job, ended by `readFailed` at the request that fails, by an empty list, or by completion. |
| CatalogueRead.TableOfStamp | internal/store/catalogue.go:249-264 | The rows carrying a read's number give back the names and places that read recorded. |
| CatalogueRead.StampNote | internal/app/catalogue_index.go:218-220 | Adding one unseen entry to the batch is adding its row to the table of titles read. |
| CatalogueRead.AbsorbKeeps | internal/app/catalogue_index.go:213-233 | A position never takes a seen title away, and adds none exactly when the count stays. |
| CatalogueRead.AdvanceAdds | internal/app/catalogue_index.go:196-235 | Reading m positions and then n more is reading m + n. |
| CatalogueRead.ResumesWhereItStopped | internal/app/catalogue_index.go:141-150 | A job resuming a paused read starts from the very run that was broken off: same position, steps, titles and places. |
| CatalogueRead.PausedAgain | internal/app/catalogue_index.go:271-298 | A carried-on read broken off again leaves the pause of the longer run. |
| CatalogueRead.CarriedOnIsPaused | internal/app/catalogue_index.go:271-298 | Any number of failed attempts to carry on leave the pause of one run as long as all of them together. |
| CatalogueRead.FirstPause | internal/app/catalogue_index.go:271-298 | A fresh read broken off leaves its pause. |
| CatalogueRead.InterruptedReadIsUninterruptedRead | internal/app/catalogue_index.go:141-156 | However often a read is broken off and carried on, titles, names, places, read number, steps, pages, position and completeness end as those of an unbroken read ending at the same time; source and date too, except exactly when nothing was found over a kept list that came from a snapshot or had a date, and then the site is recorded as the source and no date. |
| CatalogueRead.DateIsLost | internal/app/catalogue_index.go:246-263 | Over any stored list with a date, a read of a site that lists nothing, broken off at its first request and carried on, keeps the titles and loses the date; the read never broken off keeps both. |
| CatalogueRead.ReadEnumerates | internal/app/catalogue_index.go:218-220 | The places recorded by a read are exactly 0..n-1, one title each. |
| CatalogueRead.CallsBound | internal/app/catalogue_index.go:196-235 | A read makes at most as many requests as positions are allowed, and at most one more than the links it newly found. |
| CatalogueRead.PositionsIncrease | internal/app/catalogue_index.go:230-234 | Each position asked for is after the one before in (section, page) order, rollovers included. |
| CatalogueDirectory.NextIsNextPage | internal/app/catalogue_index.go:213-234 | After an answered page comes the very next page of the section that answered; what was gone past on the way there lists nothing. |
| CatalogueDirectory.ReadsInOrder | internal/app/catalogue_index.go:196-235 | However far a read has come, what it has read is the first pages of the directory, in order and none left out; it ends on a page with nothing new or where the sections a request goes through list nothing. |
| CatalogueDirectory.ReadsDirectory | internal/app/catalogue_index.go:196-235 | On a site each page of which has a new link, a read that comes to its end has read the whole directory exactly if no section with titles comes after three empty ones. |
| CatalogueDirectory.FindsWhatIsListed | internal/app/catalogue_index.go:196-235 | Its table then holds exactly the non-empty links of the site's pages, under the same condition. |
| CatalogueDirectory.TableTells | internal/app/catalogue_index.go:213-226 | The table gives each link the cleaned name of the first entry that has it, and the number of different links before it. |
| CatalogueDirectory.UnbrokenJobLeaves | internal/app/catalogue_index.go:239-266 | A job that is not broken off and finds a title leaves exactly the titles it found, complete, from the site, dated at its end, with nothing to carry on. |
| CatalogueDirectory.EmptyJobLeaves | internal/app/catalogue_index.go:246-263 | One that finds nothing keeps the titles there were with their source, date and pages; it is complete only where there were none and no challenge was met. |
| CatalogueDirectory.BrokenJobLeaves | internal/app/catalogue_index.go:271-298 | One that is broken off leaves every title there was and every one it found, incomplete, with its position and steps and no date. |
| CatalogueDirectory.StoreHoldsTheSite | internal/app/catalogue_index.go:196-266 | A job that comes to its end leaves in the store exactly what the site lists, exactly if no titles come after three empty sections. |
| CatalogueDirectory.TitleAfterGapIsLost | internal/app/app.go:189-237 | A site on which the title after three empty sections is not read and is removed from the store. |
| CatalogueRuns.AddKeepsInv | internal/store/catalogue.go:149-167 | Adding a batch under the open read keeps the numbering invariant and the set of titles that read has added. |
| CatalogueRuns.StepSafe | internal/store/catalogue.go:107-233 | Every event keeps the invariant (`first_read <= seen_read <= read_seq`, and what the two sets of history say), and none empties a catalogue that holds a title. |
| CatalogueRuns.RunSafe | internal/store/catalogue.go:107-233 | The same over every run. |
| CatalogueRuns.NeverEmptied | internal/app/catalogue_index.go:246-263 | In every run, from no row or from one older than read numbers, once a title is stored the catalogue is never empty again. |
| CatalogueRuns.NewMarkerIsExact | internal/store/catalogue.go:313-317 | In every reachable state the titles marked New are exactly those not stored when the latest read began, and none if nothing was. |
| CatalogueRuns.EndsDecideTitles | internal/store/catalogue.go:205-213 | An incomplete end keeps every title; a complete one leaves exactly the non-empty URLs added under the read's number. |
| CatalogueRuns.AbsorbedBatch | internal/app/catalogue_index.go:213-226 | The entries of one position come to one batch with exactly the new URLs. |
| CatalogueRuns.JobIsARun | internal/app/catalogue_index.go:111-298 | A whole job, whatever the site answers and wherever it fails, is a run of the machine. |
| CatalogueRuns.JobsAreARun | internal/app/catalogue_index.go:111-298 | So is any sequence of jobs. |
| CatalogueRuns.JobsNeverEmpty | internal/app/catalogue_index.go:246-263 | No sequence of jobs empties a catalogue that holds a title. |
| JobQueue.Queue.EnqueueAt | internal/jobs/queue.go:45-55 | A pending job with no attempts that waits for its time; no other row changes. |
| JobQueue.Queue.Enqueue | internal/jobs/queue.go:33-42 | The same, ready at once. |
| JobQueue.Queue.Claim | internal/jobs/queue.go:60-80 | Nothing exactly when no job is ready; otherwise the ready job with the least id becomes running with one more attempt, and is returned as its row then says. |
| JobQueue.Queue.Complete | internal/jobs/queue.go:83-87 | The job is done; no other row changes. |
| JobQueue.Queue.Fail | internal/jobs/queue.go:90-104 | Failed when the attempts are used up, else pending again after 2^attempts minutes. |
| JobQueue.DelayDoubles | internal/jobs/queue.go:96-98 | The first retry waits two minutes, and each further one twice as long. |
| JobQueue.Queue.DeletePending | internal/jobs/queue.go:140-148 | Exactly the matching pending rows go, and their number is returned. |
| JobQueue.Queue.ResetRunning | internal/jobs/queue.go:216-224 | Exactly the running rows become pending, attempts kept. |
| WorkerPool.Pool.constructor | internal/jobs/worker.go:43-54 | At least one worker, unpaused, with an empty channel. |
| WorkerPool.Pool.Notify | internal/jobs/worker.go:35-41 | One more signal if the channel has room; afterwards it holds one. |
| WorkerPool.Pool.Pause | internal/jobs/worker.go:58-58 | The pool is paused. |
| WorkerPool.Pool.Resume | internal/jobs/worker.go:61-70 | Unpaused, with a signal for every worker. |
| WorkerPool.Pool.Run | internal/jobs/worker.go:121-145 | What becomes of the row: an unknown kind fails for good, an error is recorded with the claimed attempts, success completes. |
| WorkerPool.WorkerMoves | internal/jobs/worker.go:96-119 | A worker's own steps keep the invariant. |
| WorkerPool.ClaimSafe | internal/jobs/queue.go:60-80 | A claim keeps it: the job claimed was held by nobody. |
| WorkerPool.FinishSafe | internal/jobs/worker.go:121-145 | Recording an outcome keeps it. |
| WorkerPool.TableSafe | internal/jobs/queue.go:140-148 | Enqueueing, deleting pending jobs and the passing of time keep it. |
| WorkerPool.CallerSafe | internal/jobs/worker.go:35-70 | Notify, Pause and both halves of Resume keep it. |
| WorkerPool.RestartSafe | internal/jobs/worker.go:76-94 | A restart keeps it, whether or not resetting running jobs succeeds. |
| WorkerPool.StepSafe | internal/jobs/worker.go:96-145 | Every step of every interleaving keeps the invariant. |
| WorkerPool.NoWakeUpIsLost | internal/jobs/worker.go:35-70 | Once, with the pool not paused, a Notify has returned or a Resume has sent a signal while a job was ready, then until a pause, a failed claim or the job's own claim a signal is waiting or some worker is not at its select, whatever Resumes are under way. |
| WorkerPool.SignalsCover | internal/jobs/worker.go:35-70 | A Notify or a Resume's signal in a pool that is not paused covers every ready job. |
| WorkerPool.ResumeHalfWay | internal/jobs/worker.go:61-70 | Why a Notify made while paused covers nothing: its signal can be used up on the pause, and until the Resume that cleared the flag sends one, a job is ready and nobody awake. |
| WorkerPool.StaysCovered | internal/jobs/worker.go:96-119 | A job so covered stays covered until it is claimed or deleted, the pool is paused, a claim fails or the program restarts. |
| WorkerPool.OneHolder | internal/jobs/queue.go:57-68 | No two workers hold one job, and a held job's row is running. |
| WorkerPool.AttemptsAreBounded | internal/jobs/queue.go:60-104 | Attempts never exceed the allowance plus the restarts that requeued the job. |
| WorkerPool.PauseBoundsClaims | internal/jobs/worker.go:56-58 | After Pause, at most as many claims as workers until Resume. |
| WorkerPool.StepKeepsJobs | internal/jobs/queue.go:60-148 | A job leaves the table only by deletion while pending, and a final one does not change. |
| WorkerPool.FinalIsFinal | internal/jobs/queue.go:83-104 | Done and failed stay as they are over every run. |
| WorkerPool.FinishEnds | internal/jobs/worker.go:121-145 | An error leaves the job pending with its attempts kept and a later time while attempts are left, and failed otherwise; an unknown kind fails, success completes; no other row changes. |
| WorkerPool.RowChanges | internal/jobs/queue.go:60-104 | A row changes only by a claim when it is pending and due, by the end of its own worker's run, and by a restart that finds it running, and exactly so. |
| WorkerPool.NewJobWaits | internal/jobs/queue.go:33-55 | A new job is pending with three attempts before it and waits for its time. |
| WorkerPool.FirstDueIsClaimed | internal/jobs/queue.go:60-80 | A worker that asks gets the pending job with the lowest id of those whose time has come, and none only if there is none. |
| WorkerPool.WaitsItsTime | internal/jobs/queue.go:60-104 | In no run does a worker take a job before its time: until then its row stays as it is, unless it is deleted. |
| FileClaims.Claims.ChapterByFile | internal/store/store.go:678-685 | A chapter recorded at the path, or 0 exactly when none is. |
| FileClaims.Claims.ClaimFile | internal/app/files.go:28-59 | The first candidate no other chapter holds or has recorded is claimed and nothing else changes; every candidate before it is taken, and an error means that all are. Where two chapters were recorded at one path already, the store may name either. |
| FileClaims.Claims.Release | internal/app/files.go:50-56 | The claim goes only if it is still the chapter's. |
| FileClaims.StaysExclusive | internal/app/files.go:38-58 | No step gives a path to a second chapter. |
| FileClaims.BasicRun | internal/app/app.go:684-694 | In every run at all, a claim held is that of a download that has not released it, and checks under the lock stay true. |
| FileClaims.StepSafe | internal/app/app.go:684-694 | Every step of every interleaving, but for a claim taken on a held path, keeps the invariant over downloads, claims and records. |
| FileClaims.OneChapterPerPath | internal/app/files.go:12-19 | In every reachable state claims and records together give each path to one chapter at most, if no claim was taken on a path already held. |
| FileClaims.ClaimsAreGivenUp | internal/app/files.go:28-59 | A held path is one some download of its chapter is still writing or about to release; with all downloads over nothing is held. |
| FileClaims.OneDownloadOneChapter | internal/app/files.go:12-19 | That is so whenever no chapter has two downloads at once. |
| FileClaims.SharedClaimBreaks | internal/app/files.go:39-41 | The condition is exact: after any reachable claim on a path already held, some continuation gives a path to two chapters. |
| FileClaims.TwoDownloadsOfAChapterCollide | internal/app/files.go:50-56 | For any path, two downloads of one chapter can bring this about. |
| ImagePuzzle.NewImagePuzzle | internal/scraper/imagepuzzle.go:45-61 | The identity puzzle: every tile in its own place, unflipped. |
| ImagePuzzle.TilesFit | internal/scraper/imagepuzzle.go:137-143 | Whatever the rounding, the tiles stay inside the image, so the clipping never applies. |
| ImagePuzzle.SideIsGreatest | internal/scraper/imagepuzzle.go:135-143 | The tile side is a multiple of Multiply, the tiles fit, and with one multiple more they would not. |
| ImagePuzzle.NothingLeftOver | internal/scraper/imagepuzzle.go:135-143 | A length the grid divides is cut up whole when no multiple is asked for. |
| ImagePuzzle.NoProblem | internal/scraper/imagepuzzle.go:68-112 | An image is descrambled exactly if the grid is positive, the matrix has an entry in it for every tile, and the tiles are not empty. |
| ImagePuzzle.CopyRow | internal/scraper/imagepuzzle.go:177-187 | A row of a tile lands mirrored or not, and nothing else changes. |
| ImagePuzzle.CopyTile | internal/scraper/imagepuzzle.go:154-189 | A tile lands pixel by pixel with its flips and clipping, and nothing else changes. |
| ImagePuzzle.DeScramble | internal/scraper/imagepuzzle.go:68-120 | Each error exactly in its case and order; otherwise the whole buffer, pixel by pixel. |
| ImagePuzzle.GridPixel | internal/scraper/imagepuzzle.go:111-119 | A pixel inside the tiled area belongs to the tile at its quotients, at its remainders. |
| ImagePuzzle.DescrambledPixel | internal/scraper/imagepuzzle.go:101-120 | A pixel of the result is that of the last tile sent to its place, and white where no tile goes. |
| ImagePuzzle.DescramblingUndoesScrambling | internal/scraper/imagepuzzle.go:68-120 | If tile i of the scrambled image is the original's tile Matrix[i], mirrored by its flips, then the result equals the original in the tiled area and is white outside. |
| ImagePuzzle.WholeImageComesBack | internal/scraper/imagepuzzle.go:68-143 | With no multiple asked for and dimensions the grid divides, the result is the original. |
| ImagePuzzle.PixelMoves | internal/scraper/imagepuzzle.go:108-189 | Where each pixel of tile i goes, in numbers: to tile Matrix[i] counted along the rows, columns turned round by bit 0 of the flip and rows by bit 1. |
| ImagePuzzle.ResultIsScrambled | internal/scraper/imagepuzzle.go:108-120 | The result of one puzzle is a scramble for its inverse. |
| ImagePuzzle.InverseRestores | internal/scraper/imagepuzzle.go:108-120 | The inverse matrix with the flips moved along restores the tiled area of the input. |
| Otsu.Histogram | internal/scraper/watermark.go:50-53 | How often each level occurs. |
| Otsu.Mean | internal/scraper/watermark.go:56-59 | The mean of the buffer. |
| Otsu.Threshold | internal/scraper/watermark.go:61-74 | A best threshold if any splits the buffer, else 0. |
| Otsu.Otsu | internal/scraper/watermark.go:46-83 | The buffer becomes 0 up to the threshold and 255 above it; an empty one is left alone. |
| Otsu.RunningFormula | internal/scraper/watermark.go:69-70 | The running formula equals the product of the class weights and the squared distance of the class means. |
| Otsu.LevelFormula | internal/scraper/watermark.go:63-70 | At each level that splits the buffer, the loop's value is that variance. |
| Otsu.SplitSeparates | internal/scraper/watermark.go:71-73 | Every split into two non-empty classes has a positive variance, so starting from zero misses none. |
| Otsu.BestAtEnd | internal/scraper/watermark.go:63-74 | The threshold kept is the smallest that maximises the variance over all splits. |
| Otsu.TwoValuesGiveBoth | internal/scraper/watermark.go:76-82 | A buffer with two different values comes out with both 0 and 255. |
| Otsu.BlackIsLowerClass | internal/scraper/watermark.go:76-82 | The pixels made black are as many as the lower class has, and those made white as many as the upper. |
| StringList.Strings.CommaText | internal/scraper/strings.go:65-75 | The fields, quoted where needed, between commas. |
| StringList.Strings.SetCommaText | internal/scraper/strings.go:79-100 | The items the parser finds. |
| StringList.Strings.SetText | internal/scraper/strings.go:136-142 | The items are what stands between the line feeds of the text, every CRLF counted as one and one at the very end left aside; none holds a line feed, and there are none exactly if the text is empty. |
| StringList.Strings.Reverse | internal/scraper/strings.go:38-42 | Item i becomes the i-th from the end. |
| StringList.ParseField | internal/scraper/strings.go:83-96 | A field, quoted or not, is read back as its item. |
| StringList.CommaTextRoundTrip | internal/scraper/strings.go:65-100 | Parsing the comma text restores the list exactly if it is not the one holding a single empty string. |
| StringList.CommaTextForm | internal/scraper/strings.go:65-75 | Items without commas, blanks and quotes stand between commas as they are; any other is in quotes. |
| StringList.PlainTextIsSplit | internal/scraper/strings.go:79-100 | A text without quotes is read as what stands between its commas. |
| StringList.TextRoundTrip | internal/scraper/strings.go:199-200 | Setting the text from its own value restores the list exactly if no item holds a line feed and the last item is not empty. |
| StringList.TextForm | internal/scraper/strings.go:199-200 | The text is the items with a carriage return and a line feed between each two. |
| CheckSchedule.SeriesDueForCheck | internal/store/store.go:608-630 | As many due series as fit the limit, never one checked later while an earlier one is left. |
| CheckSchedule.NotTooOften | internal/store/store.go:603-615 | Only followed series never checked or not for longer than the interval are taken, and one whose check succeeded is taken again only after the interval. |
| CheckSchedule.SweepDrains | internal/app/scheduler.go:121-132 | A sweep that leaves a due series waiting takes a full batch of those ahead of it; all of these but the failed ones are gone from there by the next, and nothing gets ahead of it. |
| CheckSchedule.TakenInTime | internal/store/store.go:603-615 | If at most f checks of a batch fail, a due series is taken within as many sweeps as batches less f cover the series ahead of it. |
| CheckSchedule.NeverTaken | internal/store/store.go:702-720 | With as many due series as a batch holds strictly ahead of it, whose checks all fail, a series is never taken, however many sweeps there are. |
| TrailingCommas.DropTrailingCommas | internal/txquery/jsonnode.go:84-117 | What the scanner keeps, and a change reported exactly when something was dropped. |
| TrailingCommas.DropsExactlyTrailingCommas | internal/txquery/jsonnode.go:81-117 | On any text of the grammar with optional trailing commas, exactly those commas go: the result is the strict text of the same value, with strings and white space as they were. |
| TrailingCommas.StripFacts | internal/txquery/jsonnode.go:81-83 | Taking the commas out leaves the grammar strict, the value the same and the text shorter by their number. |
| TrailingCommas.StrictIsKept | internal/txquery/jsonnode.go:82-83 | A strict text has no comma to drop. |
| TrailingCommas.OnePassSuffices | internal/txquery/jsonnode.go:104-113 | A second pass would change nothing exactly if no comma outside strings is followed, after white space, by a comma that the pass drops. |
| Scanner.SkipLiteral | internal/txquery/rewrite.go:58-74 | Where the literal at an index ends, doubled quotes and unclosed literals included. |
| Scanner.MatchParen | internal/txquery/rewrite.go:77-94 | The parenthesis that brings the depth back, outside literals. |
| Scanner.FindCall | internal/txquery/rewrite.go:98-122 | The first call outside literals that is not part of a longer name. |
| Scanner.SplitArgs | internal/txquery/rewrite.go:129-150 | The arguments between top-level commas, trimmed. |
| Scanner.ArgsFit | internal/txquery/rewrite.go:129-150 | The first argument is no longer than the list. |
| Scanner.LiteralStays | internal/txquery/rewrite.go:65-71 | A literal is still read as the same one when what follows it changes, unless it is its own quote. |
| LiteralPasses.RewriteAttrCase | internal/txquery/rewrite.go:757-778 | The text with attribute names lower-cased, of the same length. |
| LiteralPasses.AttrCaseAt | internal/txquery/rewrite.go:757-778 | A character changes exactly if it stands in an attribute name outside the literals, and then to lower case. |
| LiteralPasses.AttrCaseKeepsLiterals | internal/txquery/rewrite.go:757-778 | The pass keeps every literal in order, and a second one changes nothing. |
| LiteralPasses.RewriteDottedNames | internal/txquery/rewrite.go:505-524 | The text with property dots made steps, of the same length. |
| LiteralPasses.DottedAt | internal/txquery/rewrite.go:514-522 | A character changes exactly if it is a dot outside the literals between two name characters that are not both digits, and then to a slash. |
| LiteralPasses.DottedKeepsLiterals | internal/txquery/rewrite.go:505-524 | The pass keeps every literal in order, and a second one changes nothing. |
| LiteralPasses.RewriteLookup | internal/txquery/rewrite.go:399-438 | The text with lookups made steps. |
| LiteralPasses.LookupKey | internal/txquery/rewrite.go:425-431 | A key lookup becomes a child step. |
| LiteralPasses.LookupIndex | internal/txquery/rewrite.go:418-424 | An index lookup becomes a counted step. |
| LiteralPasses.LookupKeepsLiterals | internal/txquery/rewrite.go:399-438 | The pass keeps every literal in order, and a second one changes nothing. |
| CallCount.CallsAdd | internal/txquery/rewrite.go:98-122 | The calls of a text with all its literals closed and of what follows a stopping character add up. |
| CallCount.BeforeFirstCall | internal/txquery/rewrite.go:98-122 | Up to the call found the text is closed and holds no call. |
| CallCount.ClosedInside | internal/txquery/rewrite.go:77-94 | What stands between matched parentheses is closed. |
| CallCount.FirstArgumentCut | internal/txquery/rewrite.go:129-150 | The first argument ends at a comma or the end, with both sides of the cut closed. |
| CallCount.Trimmed | internal/txquery/rewrite.go:150-150 | Trimming an argument adds no call to it. |
| CallRewrites.TargetOf | internal/txquery/rewrite.go:160-167 | The call found stands between an opening and a closing parenthesis after its name; there is none exactly if no call is found. |
| CallRewrites.JsonPass | internal/txquery/rewrite.go:158-181 | The loop ends, with no call left or one that is never closed. |
| CallRewrites.JsonRounds | internal/txquery/rewrite.go:158-181 | Every round shortens the text by the length of the name or more. |
| CallRewrites.RewriteJson | internal/txquery/rewrite.go:158-181 | The whole pass, ended by an unclosed call; whether a call was found, and the last argument that names the JSON text. |
| CallRewrites.JsonCallBecomesPath | internal/txquery/rewrite.go:152-157 | A round on json(*) with a chain of suffixes leaves the chain's location path and what follows. |
| CallRewrites.WrapPass | internal/txquery/rewrite.go:239-256 | The loops that put an argument in place of its call end on every text. |
| CallRewrites.WrapRounds | internal/txquery/rewrite.go:441-459 | Every round shortens the text by what is saved around the argument. |
| CallRewrites.UnwrapCall | internal/txquery/rewrite.go:239-256 | Each call gives way to its first argument in parentheses; the arguments after it are handed over, call by call, if anyone keeps them. |
| CallRewrites.RewriteJsonFns | internal/txquery/rewrite.go:441-459 | The four helper functions in turn, an unclosed call ending only its own loop. |
| CallRewrites.CaseStepCounts | internal/txquery/rewrite.go:280-292 | Each round leaves strictly fewer calls than it found, though the text grows. |
| CallRewrites.CasePass | internal/txquery/rewrite.go:275-295 | The loop ends after at most as many rounds as there are calls. |
| CallRewrites.TranslateChangesCase | internal/txquery/rewrite.go:269-283 | translate() over the two alphabets is lower-casing and upper-casing, letter by letter (section 4.2 of XPath 1.0). |
| CallRewrites.RewriteCase | internal/txquery/rewrite.go:275-295 | Both case functions in turn. |
| CallTexts.LowerCaseIsTranslate | internal/txquery/rewrite.go:275-295 | With any text around it that has no such call, lower-case() of an argument becomes translate() of it from capitals to small letters. |
| CallTexts.UpperCaseIsTranslate | internal/txquery/rewrite.go:275-295 | upper-case() becomes translate() from small letters to capitals. |
| CallTexts.CaseMeansTranslate | internal/txquery/rewrite.go:263-295 | What is written reads as translate() of the same argument with two quoted alphabets by which every text changes as the function changes it. |
| CallTexts.HelperBecomesMembers | internal/txquery/rewrite.go:441-459 | A call to a JSON helper becomes its argument in parentheses and a step to its members, with what stands around it kept. |
| CallTexts.UnwrappedIsArgument | internal/txquery/rewrite.go:239-256 | A call that is unwrapped leaves its argument in parentheses and hands nothing over. |
| CallTexts.UnwrappedKeepsSecond | internal/txquery/rewrite.go:239-256 | With two arguments the first takes the call's place and the second is handed over. |
| CallTexts.JsonTextIsNoted | internal/txquery/rewrite.go:158-181 | A call to json() or parse-json() becomes the root, and its argument is noted unless it is `*` or `.`. |
| JsonTree.HtmlNode.AppendChild | internal/txquery/jsonnode.go:23-43 | A child joins at the end; the other children keep their trees. |
| JsonTree.AppendElement | internal/txquery/jsonnode.go:27-35 | A node gains one element with exactly the nodes of the value in it. |
| JsonTree.AppendValue | internal/txquery/jsonnode.go:23-55 | A node gains exactly the nodes of the value, after those it had. |
| JsonTree.BuildJSONTree | internal/txquery/jsonnode.go:17-21 | The document node is the tree of the value: exactly its nodes, in order. |
| JsonTree.TextOfTree | internal/txquery/jsonnode.go:37-53 | The text of a value's element: "true" or "false", "null", the string itself, the number's decimal text, and for arrays and objects that of the members in order. |
| JsonTree.TreeTells | internal/txquery/jsonnode.go:23-55 | Two values have the same tree exactly if they are scalars of the same text or have members of the same names, an array's named "_", that are alike one for one. |
| Navigation.ConsumeChain | internal/txquery/rewrite.go:185-234 | The path for the suffixes that follow json(), and where they end. |
| Navigation.StepSelects | internal/txquery/jsonnode.go:23-55 | A location step selects, from the tree of a value, the trees of what the lookup finds in it. |
| Navigation.NavigationPreserved | internal/txquery/jsonnode.go:11-16 | Whatever a chain of steps looks up, the path of those steps selects exactly the trees of those values, in order. |
| Navigation.ReadsBack | internal/txquery/rewrite.go:152-157 | The text written for a chain of steps reads as those steps. |
| Navigation.PathTextSelects | internal/txquery/jsonnode.go:11-16 | That text, read and evaluated, selects exactly the trees of what the steps look up, in order. |
| Navigation.LookupsBecomePath | internal/txquery/rewrite.go:397-438 | A chain of lookups is rewritten to the path of its steps. |
| Navigation.ChainBecomesPath | internal/txquery/rewrite.go:183-234 | A chain of suffixes is rewritten to the path of its steps, and the root if there is none. |
| Navigation.ChainThenLookups | internal/txquery/rewrite.go:230-232 | Suffixes and then lookups give the path of all the steps exactly if there is a suffix. |
| JsonSuffixes.PathIsRight | internal/txquery/rewrite.go:152-157 | With no plain `()` before a `()[n]`, or with an index 0, the path selects exactly the trees of the values the suffixes and lookups mean, in order, indexes past the end included. |
| JsonSuffixes.PathIsWrong | internal/txquery/rewrite.go:196-224 | For every other chain there is a document from which the path selects more values than are meant. |
| JsonSuffixes.AgreesExactly | internal/txquery/rewrite.go:183-234 | The path and the meaning agree on every document exactly if no plain `()` comes before a `()[n]` or some index is 0. |
| JsonSuffixes.SearchFindsMore | internal/txquery/rewrite.go:230-232 | For every chain of lookups with no index 0 there is a document on which the search after two slashes finds more than the lookups. |
| JsonSuffixes.ZeroSearchesNothing | internal/txquery/rewrite.go:230-232 | With an index 0 the search and the lookups both find nothing. |
| JsonExpressions.ChainNoCall | internal/txquery/rewrite.go:98-122 | In a chain of suffixes no call to parse-json is found, unless a key of that name has a parenthesis after it. |
| JsonExpressions.PassWritesPath | internal/txquery/rewrite.go:158-181 | The whole pass on json(*) with a chain leaves the chain's path and what follows. |
| JsonExpressions.JsonPassIsExact | internal/txquery/rewrite.go:158-181 | It does so exactly if no key parse-json has a parenthesis right after it. |
| JsonExpressions.DocumentNoted | internal/txquery/rewrite.go:170-176 | Such an expression is noted as one on the document itself. |
| JsonExpressions.PassesWritePath | internal/txquery/rewrite.go:786-788 | The passes over json(), the JSON helpers and the lookups together leave the path of all the steps, behind a second slash if a lookup comes first. |
| JsonExpressions.ReadExactly | internal/txquery/rewrite.go:230-232 | That text reads as the steps exactly if there is a suffix or no lookup. |
| JsonExpressions.ExpressionSelects | internal/txquery/rewrite.go:152-157 | Read and evaluated, it selects exactly the trees of the values the expression means, in order, if no plain `()` comes before a `()[n]` or some index is 0. |
| JsonExpressions.ExpressionTexts | internal/txquery/jsonnode.go:37-53 | The texts the rewritten expression reads are those of the values it means, one for one; for an absent key there is none. |
| JsonExpressions.ExpressionSelectsMore | internal/txquery/rewrite.go:196-224 | For every other expression there is a document from which the text selects more than the expression means. |
| JsonExpressions.DocumentLookupSearches | internal/txquery/rewrite.go:230-232 | Lookups straight on json(*) are left as a search at every depth, and for every chain of them with no index 0 some document makes it find more. |

## Left out

- CatalogueStore.Store.FinishSiteCatalogue: the note, problem, retry, challenge and redirect columns, and when a read last ended, are not modelled; they do not decide titles, positions or completeness.
- CatalogueStore.Store.ResumeSiteCatalogue: the note and retry time it clears are not modelled.
- CatalogueStore.Store.BeginSiteCatalogue: one site's rows are modelled, since every statement keys on the site.
- CatalogueRead.IndexSite: the snapshot path is not in the job, and a database error or a shutdown, which end the job at once, are modelled only as the event that abandons a read in `CatalogueRuns`.
- CatalogueRead.InterruptedReadIsUninterruptedRead: speaks of reads ended by `readFailed`; a process killed in the middle of a read stores no position and is not covered.
- CatalogueRuns.NeverEmptied: runs are of one read at a time; that two are never open at once is a matter of the web handlers and is not proved.
- JobQueue.Queue.EnqueueAt: the id the database picks is a parameter, and payloads are strings; the text of a recorded error is not kept.
- JobQueue.Queue.Fail: a delay is a number of seconds of any size; that of a job with tens of attempts would overflow the program's.
- JobQueue.Queue.DeletePending: the match on a field of the payload is an arbitrary predicate.
- WorkerPool.NoWakeUpIsLost: a claim that errors is excluded, as the worker then waits for its timer.
- FileClaims.SharedClaimBreaks: a continuation may give the id of a deleted chapter out again, as the table allows.
- FileClaims.Claims.ClaimFile: the candidate names are a parameter; a failed lookup in the store is the event that gives a download up.
- ImagePuzzle.DeScramble: starts after decoding and ends before encoding; a pixel is one element rather than four bytes.
- Otsu.Otsu: arithmetic is over the reals, so rounding is not modelled.
- CheckSchedule.SeriesDueForCheck: ties in the order are broken arbitrarily, as the query leaves them.
- CheckSchedule.TakenInTime: every queued check is assumed to have ended by the next sweep and no series to be added meanwhile.
- Scanner.SkipLiteral: texts are sequences of characters rather than bytes.
- CallRewrites.RewriteCase: its flag, and those of the other passes that only record that they ran, are not kept.
- CallTexts.LowerCaseIsTranslate: texts with one call are covered; with several the pass works through them one by one (`CallRewrites.CaseStepCounts`).
- JsonExpressions.ExpressionSelects: between the JSON helpers and the host the program runs further passes, which are not part of this model.
- Navigation.NavigationPreserved: the XPath engine is represented by child, all and counted steps and the search below a node; `[...]` suffixes other than `()[n]` are carried through but given no meaning. It is about lookups; what suffixes mean is in `JsonSuffixes`.
- JsonTree.BuildJSONTree: numbers are given by their decimal text, and an object's fields stand in the order they are visited, which the program leaves open.
- The passes `rewriteCSS`, `rewriteSequence`, `rewriteFuncStep`, `rewriteJoinStep`, `normalizeQuotes`: heuristics without a fixed meaning to preserve.
- HTTP, the module host, the web interface, notifications, the ZIP writer, cover images and the SQL engine: I/O.
