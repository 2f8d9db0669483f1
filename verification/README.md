# SSH bulletin board: a Dafny model

A Dafny model of the parts of the board that carry hard promises, and proofs of
those promises for all inputs, all runs and all interleavings.

| module | models |
|---|---|
| `GoStrings`, `Numerals`, `Sorting`, `Wrappers`, `Records` | the Go string, number, time and sort functions the code calls, and the rows of the tables |
| `Sentinel`, `Markdown`, `RoundTrip`, `Reading`, `Writing` | the text form of an article: the in-band sentinel and its escaping, the writer, the parser, what reading back a written article gives, what reading any text gives, and the written text word for word |
| `Banner` | truncation of banner lines that hold ANSI colour runs (CSI sequences, ECMA-48 section 5.4) |
| `WaterBalloons`, `Broker`, `Delivery`, `BalloonFlows` | water balloons: the table and the inbox roll-up, the hub of live sessions, the delivery protocol as interleaved steps, and the send and replay flows |
| `Forum`, `ForumRuns`, `ForumEffects` | articles and pushes as a transactional store, what holds over whole runs of it, and what each operation stores and refuses |
| `Listing`, `BoardView` | the article list of a board with its search pattern and orders, and the screen that shows it |
| `Mail` | threaded mail |
| `Migrate` | the migration runner under failures and restarts |
| `Notify` | the notification queue, its workers and its shutdown |

Conventions. Strings are sequences of Unicode characters. Objects that the code
updates in place are classes (`Markdown.Parsed`, `WaterBalloons.BalloonTable`,
`Broker.Hub`, `Forum.Store`, `Mail.Mailbox`, `Migrate.Database`); each of their
methods is proved equal to a function on values, and the promises are lemmas
about those functions. The screen model of the board view is a value, as in Go,
where its methods have value receivers. A statement that can fail takes the
failure as a parameter, so every theorem about a run covers every pattern of
failures. Concurrent parts are step functions, and a run is any sequence of
steps. The order in which Go ranges over a map is a parameter.

What the proofs say about the code, where a promise does not hold as written:

- A body survives writing and reading exactly when it holds no sentinel, or
  holds one but neither an already marked sentinel nor the temporary
  placeholder with its NULs (`RoundTrip.BodySurvivesExactly`). The comment in
  the code says an already marked sentinel is left alone; writing leaves it
  alone, but reading then takes its marker away
  (`Sentinel.MarkedSentinelLosesMarker`).
- The comment above `Parse` says that the whole input becomes the body where no
  frontmatter is present. A first line `---` that no later line closes is lost;
  the whole text is the body exactly when it does not open with such a line
  (`Reading.WholeTextIsBodyExactly`).
- A hand-written push may have its time and its body one space apart. It comes
  back as written exactly when its body holds no two spaces in a row
  (`Reading.OneBlankApart`); otherwise the time is lost, and the body up to
  those spaces (`Reading.StampSwallowsBody`).
- The comment above `reload` says that errors after the first load are silent.
  The screen shows the error instead of its list from the first failed query on,
  for good: exactly when any query has failed (`BoardView.ErrorsStayExactly`,
  `BoardView.OneFailureBlanksTheScreen`).
- The comment above `MailRepo.Insert` says every read sees a thread id. Insert
  and back-fill are two committed statements and reads take no lock, so a read
  between them finds none although nothing fails
  (`Mail.ReadBetweenStatementsFails`); a back-fill that fails or is cut off
  leaves the row without one for good (`Mail.GivenUpStaysMissing`). Which rows
  have none is `Mail.MissingExactly`, when an inbox fails to load for it is
  `Mail.InboxFailsExactly`, and which messages are in the thread of their root
  is `Mail.ThreadIsRootExactly`. In the screens, which answer only what they
  could read, every thread is the root's (`Mail.AnsweredThreadsAreRoots`).
- The comment above `bannerTruncate` promises a reset whenever the input held
  an escape. The code looks at the result, so a cut in front of the first
  escape leaves none (`Banner.CutBeforeEscapeIsNotReset`); exactly when there is
  a reset is `Banner.ResetsExactly`.
- The comment above `ListConversation` says its limit clips the oldest rows. It
  keeps them and clips the newest (`WaterBalloons.NewestIsClipped`); the newest
  is listed exactly when nothing is clipped
  (`WaterBalloons.NewestIsListedExactly`).
- Two migration files with one version make a run fail at the second, and the
  next run succeeds without it (`Migrate.RepeatedVersionIsLost`). All pending
  files can be committed exactly when their versions differ
  (`Migrate.AllCommittedExactly`); no version is ever committed twice
  (`Migrate.NoVersionTwice`).
- `Stop` is said to wait for the workers to drain. Under a cancelled context it
  can return with accepted notifications undelivered
  (`Notify.CancelCanLoseEvents`). If nothing cancels later, closing is certain
  to deliver everything exactly when the context is not cancelled at the close
  or nothing is queued then (`Notify.DrainsExactly`); if something may, exactly
  when nothing is queued (`Notify.DrainsWhateverHappensExactly`). A shutdown by
  signal has cancelled the context before it stops the manager
  (cmd/sshbbs/main.go:93-96). A `Dispatch` that has read the closed flag panics
  when the queue is closed before it sends (`Notify.OverlapPanics`); closing is
  safe exactly when there is no such call (`Notify.PanicsExactly`).

## Model

| member | source | states |
|---|---|---|
| `RoundTrip.FormatThenParse` | internal/markdown/markdown.go:95-338 | for every article, push list and option: reading the written text gives the article as written (title, board, author, times, score, id when positive, pin, pushes in order, body without the newlines around it) if and only if every part can be carried |
| `RoundTrip.ParseOfFormat` | internal/markdown/markdown.go:95-207 | what reading a written article gives back, field by field, with no condition on the article beyond 64-bit score and id |
| `RoundTrip.BodySurvivesExactly` | internal/markdown/markdown.go:123-131 | a body comes back exactly when it has no sentinel, or has neither a marked sentinel nor the placeholder |
| `RoundTrip.BodyCut` | internal/markdown/markdown.go:176-204 | behind any written body, with or without a push block, the parser cuts exactly where the writer ended the body |
| `RoundTrip.PushesSurviveExactly` | internal/markdown/markdown.go:138-147 | the push list comes back unchanged exactly when every push has one of the three kinds, an author without `]` and newline, a four-digit-year time and a one-line body without outer blanks |
| `RoundTrip.PushReads` | internal/markdown/markdown.go:280-338 | any push with a known kind and a usable author is read back from its line, whatever its body, with the body flattened and trimmed |
| `RoundTrip.BlockBackIsGood` | internal/markdown/markdown.go:267-338 | whatever the pushes were, every push that is read has a known kind, a usable author and a calendar time |
| `RoundTrip.CleanTextSurvives` | internal/markdown/markdown.go:216-222 | a frontmatter text survives exactly when it is a trimmed single line |
| `RoundTrip.FrontmatterReads` | internal/markdown/markdown.go:157-174 | the closing delimiter is found behind the last written line and nowhere inside, so each line sets its field |
| `Markdown.Format` | internal/markdown/markdown.go:95-148 | the writer loop produces the document text, and fails exactly without an article |
| `Markdown.Parse` | internal/markdown/markdown.go:153-207 | the parser ends with exactly the document that the text denotes, on every input |
| `Markdown.CutFrontmatter` | internal/markdown/markdown.go:157-172 | the frontmatter block and the rest, with the closing delimiter at the end of the text as a case of its own |
| `Markdown.Parsed.ParseFrontmatter` | internal/markdown/markdown.go:224-265 | the line loop folds every line into the fields, later lines winning |
| `Markdown.Parsed.ParsePushes` | internal/markdown/markdown.go:267-278 | the line loop appends exactly the pushes of the lines that are push lines, in order |
| `Reading.LineSets` | internal/markdown/markdown.go:224-236 | a frontmatter line with a colon that is not its first rune sets the field named by the trimmed text before the colon to the trimmed text behind it, with or without a blank there |
| `Reading.LineSetsFields` | internal/markdown/markdown.go:237-263 | what such a line does to every field: a known key sets its own, a time or number only when it can be read, `pinned` exactly for `true` and `1`, and any other key an entry of `extra` |
| `Reading.OtherLinesSetNothing` | internal/markdown/markdown.go:226-234 | a line without a colon, or with nothing before it, sets nothing |
| `Reading.FrontmatterOfLines` | internal/markdown/markdown.go:157-172 | for any lines: the first line `---` behind the first line of the block closes it, be it followed by more text or the end of it |
| `Reading.NoFrontmatter` | internal/markdown/markdown.go:157-172 | a text that does not open with `---` is all rest; one whose block is never closed is rest but for its first line |
| `Reading.ParseWithBlock` | internal/markdown/markdown.go:153-207 | a text with a closed block and no sentinel sets what its lines set, and its body is what follows without the newlines around it |
| `Reading.SentinelCuts` | internal/markdown/markdown.go:175-204 | in any text the first sentinel that is not marked ends the body, and the lines behind it are the push lines |
| `Reading.WholeTextIsBodyExactly` | internal/markdown/markdown.go:150-152 | a text without a sentinel becomes the body whole, with no field set, if and only if it does not open with a line `---` |
| `Reading.PushLinesExactly` | internal/markdown/markdown.go:267-311 | a line is a push if and only if, trimmed, it is a dash, one of the three glyphs, blanks, and a non-empty author in brackets |
| `Reading.PushLineReads` | internal/markdown/markdown.go:280-338 | the kind and author of any such line, and its time and body from what stands behind the bracket |
| `Reading.StampTwoSpaces` | internal/markdown/markdown.go:313-325 | a stamp alone, or with a body behind two spaces or more |
| `Reading.OneBlankApart` | internal/markdown/markdown.go:313-325 | a push with its stamp and body one blank apart comes back as written if and only if its body holds no two spaces in a row |
| `Reading.StampSwallowsBody` | internal/markdown/markdown.go:313-337 | otherwise it has no time and only what stands behind the two spaces for a body |
| `Writing.DocumentText` | internal/markdown/markdown.go:95-148 | the written document word for word: delimiters, keys in order, each optional line exactly when there is something to say, the sentinel and the push lines |
| `Writing.PushLineText` | internal/markdown/markdown.go:138-147 | a push line word for word, with the glyph of its kind and its body on one line |
| `Writing.SanitizeIs` | internal/markdown/markdown.go:216-222 | every newline and carriage return of a value becomes one space and nothing else changes |
| `Writing.EscapedTexts` | internal/markdown/markdown.go:127-131 | the marker and the placeholder word for word |
| `Sentinel.StripUndoesEscape` | internal/markdown/markdown.go:127-131 | unescaping an escaped body gives the body back if and only if it had no sentinel, or no marked sentinel and no placeholder |
| `Sentinel.MarkedSentinelLosesMarker` | internal/markdown/markdown.go:123-131 | a sentinel with its marker is left alone by escaping and loses the marker on reading |
| `Sentinel.StripIgnoresEscape` | internal/markdown/markdown.go:340-342 | for a body without NUL, stripping the escaped body equals stripping the body |
| `Sentinel.EscapeMarks` | internal/markdown/markdown.go:127-131 | after the three passes every sentinel, in any body, is followed by the marker |
| `Sentinel.FindReal` | internal/markdown/markdown.go:176-206 | the scan with its offset stops at the least sentinel not followed by the marker, or finds that there is none, on every text |
| `Sentinel.CutAfterMarked` | internal/markdown/markdown.go:188-205 | a body whose sentinels are all marked is never cut, whatever stands behind it |
| `Numerals.ParseTimeInvertsFormat` | internal/markdown/markdown.go:108-113 | the second-precision form of RFC 3339 section 5.6 reads back exactly for the calendar times with a four-digit year |
| `Numerals.ParseIntInvertsFormat` | internal/markdown/markdown.go:114-117 | every 64-bit integer reads back from its decimal text |
| `Writing.ParseTimeExactly` | internal/markdown/markdown.go:108-113 | a text is read as a time if and only if it is what is written for that time |
| `Writing.TimeShape` | internal/markdown/markdown.go:108-113 | each field of a written time in decimal in its place, as section 5.6 of RFC 3339 has it |
| `Writing.CalendarDays` | internal/markdown/markdown.go:242-249 | which days there are in the Gregorian calendar, leap years included |
| `Writing.ParseIntExactly` | internal/markdown/markdown.go:250-257 | digits, with or without a sign, are read as their number within 64 bits and otherwise as none |
| `Banner.TruncationIsGreedy` | internal/tui/runewidth.go:85-124 | a line that is too wide is cut once: a prefix with its colour runs whole, the ellipsis and at most one reset, ending before the first body rune that would not leave room for the ellipsis |
| `Banner.TruncationFits` | internal/tui/runewidth.go:85-110 | how wide the result is for any width of the ellipsis: a line that fits keeps its width, a cut line has the width of the cut and the ellipsis, and nothing is wider than asked when the ellipsis takes at most one column |
| `Banner.TruncationIsIdempotent` | internal/tui/runewidth.go:85-131 | truncating twice is truncating once, whatever the width of the ellipsis, and a result that holds an escape ends in the reset |
| `Banner.ResetsExactly` | internal/tui/runewidth.go:80-110 | for every line: the result ends in the reset if and only if there is width, the line holds an escape, and the line fits or what is up to its first escape fits in front of the ellipsis |
| `Banner.CutBeforeEscapeIsNotReset` | internal/tui/runewidth.go:80-84 | a line with a colour run that is cut in front of it and gets no reset, against the comment |
| `Banner.ResetIsInvisible` | internal/tui/runewidth.go:76-78 | appending the reset never changes the visual width, even behind an unfinished escape |
| `Banner.RunsAreExactly` | internal/tui/runewidth.go:54-58 | a text begins with a run if and only if it begins with escape, bracket, any of `0123456789;?`, and an ASCII letter |
| `Banner.BannerTruncate` | internal/tui/runewidth.go:85-110 | the loop over the colour runs computes the greedy cut |
| `Banner.WriteBodyUpToBudget` | internal/tui/runewidth.go:112-124 | writes the longest prefix of the body that fits and says whether that was all of it |
| `Delivery.NoGap` | internal/server/server.go:131-156 | in every interleaving, once the replay of a session is over and it is still registered, every row to its user whose send is over was handed to a session of that user or opened by that user |
| `Delivery.ReadMeansHandedOver` | internal/tui/screen_wb.go:260-283 | in every reachable state a marked row was handed to a session of its recipient, was opened by its recipient, or is a memo |
| `Delivery.NothingLeftUnread` | internal/tui/root.go:114-134 | when no send or replay is in flight and no mark failed, a user with a registered, drained session has nothing unread |
| `Delivery.RunsGrow` | internal/store/waterballoons.go:118-125 | whatever follows, a mark never reverts and no hand-over is forgotten |
| `Delivery.ReplayFinishes` | internal/server/server.go:145-148 | left alone, a replay hands every listed row to its session, marks each whose mark does not fail, and ends |
| `Delivery.StepKeepsInv` | internal/tui/screen_wb.go:337-373 | every step of senders, replays, running sessions and thread openings keeps the protocol's five invariants |
| `Delivery.KeepsNothingMissed` | internal/server/server.go:133-149 | registering before listing leaves no row between the list and the live sends |
| `Delivery.SentAtMostTwice` | internal/server/server.go:133-148 | over every run, a row goes to one session at most once from its sender and at most once from the replay of that session, and it counts as handed over exactly when one of the two happened |
| `Delivery.SentTwice` | internal/server/server.go:133-148 | both can happen: a session that registers and lists before the send gets the row from the sender and from its replay |
| `Delivery.ReceiptMarks` | internal/tui/root.go:127-133 | a session that receives a row marks it and no other, and marks nothing it was not handed |
| `Delivery.OpeningMarks` | internal/tui/screen_wb.go:343-347 | opening a thread marks exactly the rows from the counterparty to the viewer |
| `BalloonFlows.Submit` | internal/tui/screen_wb.go:260-286 | an undisturbed submit adds one row, sends it once to each session of the recipient unless it is a memo, and marks it exactly when it is a memo or was delivered and the mark did not fail; a row that was committed and could not be read back stays and is sent to nobody |
| `BalloonFlows.DrainUnread` | internal/server/server.go:139-149 | an undisturbed replay sends exactly the unread rows, oldest first, and marks exactly those of them whose marks do not fail |
| `BalloonFlows.DrainIsReplaySteps` | internal/server/server.go:139-149 | whichever marks fail, the replay flow and the replay steps of the protocol list the same rows and leave the same table |
| `BalloonFlows.SubmitIsThreeSteps` | internal/tui/screen_wb.go:472-504 | where the hub holds the online sessions of the protocol, the three sender steps leave the table that `Submit` leaves and hand the row to exactly the sessions that `Submit` sends it to |
| `BalloonFlows.HubMirrorsRun` | internal/chat/broker.go:45-67 | over every run of the protocol, a hub that registers and unregisters the same sessions holds exactly those that are online, each once and under its user |
| `BalloonFlows.SameRecipients` | internal/chat/broker.go:78-86 | in such states the sessions the hub sends to are the online sessions of the user, and the hub says delivered exactly when there is one |
| `BalloonFlows.ConnectingCanCatchUp` | internal/server/server.go:131-149 | from every reachable state a user who connects can catch up: some continuation leaves nothing to them unread, changes no other row, and hands all that was unread to the new session |
| `WaterBalloons.InboxAgrees` | internal/store/waterballoons.go:189-236 | each line of the inbox agrees with the conversation it stands for, no counterparty has two lines, unread ones come first and then the later ones; a line left out comes after all that are shown, and only when as many are shown as the limit, 50 when none is given; unless the limit cuts, every counterparty has a line and the counts add up to all that is unread |
| `WaterBalloons.GroupsAgree` | internal/store/waterballoons.go:197-209 | the group of a counterparty exists exactly when there is a conversation, its last id is the newest row between the two and its count the unread rows from them |
| `WaterBalloons.GroupsCountOnce` | internal/store/waterballoons.go:203-209 | one group per counterparty, and the counts add up to the viewer's unread rows |
| `WaterBalloons.MarkingZeroesOne` | internal/store/waterballoons.go:242-251 | opening a thread sets that counterparty's count to zero and changes no other group |
| `WaterBalloons.MarkingIsPrivate` | internal/store/waterballoons.go:242-251 | opening a thread changes nobody else's inbox, the counterparty's included |
| `WaterBalloons.SelectIs` | internal/store/waterballoons.go:72-90 | a list query returns exactly the matching rows, oldest first |
| `WaterBalloons.QueriesSelect` | internal/store/waterballoons.go:72-90 | which rows each query selects, by their sender, recipient and mark |
| `WaterBalloons.BalloonTable.ListConversation` | internal/store/waterballoons.go:150-174 | the scan returns the conversation, oldest first, up to the limit, 200 when none is given |
| `WaterBalloons.NewestIsListedExactly` | internal/store/waterballoons.go:145-149 | the list is the beginning of the conversation up to the limit, 200 when none is given: the oldest row is always listed, the newest if and only if the limit clips nothing |
| `WaterBalloons.NewestIsClipped` | internal/store/waterballoons.go:145-149 | two rows and a limit of one: the older is kept and the newer clipped, against the comment |
| `WaterBalloons.ScreenClipsNewest` | internal/tui/screen_wb.go:343 | with the limit of 200 that the thread screen passes, the newest row of any longer conversation is not listed |
| `WaterBalloons.BalloonTable.MarkConversationRead` | internal/store/waterballoons.go:242-251 | marks exactly the unread rows from the counterparty to the viewer, or nothing when it fails |
| `Broker.Hub.Register` | internal/chat/broker.go:45-49 | appends to the list of live sessions and keeps the map equal to it |
| `Broker.Hub.Unregister` | internal/chat/broker.go:54-67 | the splice loop removes the first matching session from the list and leaves no empty slice in the map |
| `Broker.WithoutFirstIs` | internal/chat/broker.go:57-63 | that is exactly one session, the earliest that matches, with the order of the others kept; without a match nothing changes |
| `Broker.Hub.Send` | internal/chat/broker.go:78-86 | sends to each session of the user once, in order, to no other, and returns whether there is one |
| `Broker.Hub.SendToAll` | internal/chat/broker.go:90-101 | sends in the order of the traversal to the sessions of everyone but the excluded user |
| `Broker.TraversalIsComplete` | internal/chat/broker.go:90-101 | whatever the traversal order, each live session is reached once, and excluding a user leaves out exactly that user's sessions |
| `Broker.Hub.IsOnline` | internal/chat/broker.go:106-110 | true exactly when the list holds a session of the user |
| `Broker.Hub.OnlineList` | internal/chat/broker.go:127-142 | one line per user with a live session, with the handle of the earliest and the number of them |
| `Broker.Hub.SessionsSnapshot` | internal/chat/broker.go:147-155 | every live session once |
| `ForumRuns.ScoreCacheIsExact` | internal/store/pushes.go:107-221 | over every run, with any statement failing, each cached score is the number of surviving pushes minus the number of surviving boos, and no push outlives its article |
| `ForumRuns.RevertedOnce` | internal/store/pushes.go:177-221 | after a deletion that went through, every later deletion of that push fails and changes nothing |
| `ForumRuns.RemovedByRight` | internal/store/articles.go:205-227 | a push disappears only by its author, its article's author or a moderator; unknown roles have no say |
| `ForumRuns.GoesThroughExactly` | internal/store/role.go:25-32 | an operation changes anything only when it is permitted, said role by role and mode by mode, and a permitted one that meets no fault goes through |
| `ForumRuns.ArticleChangedByRight` | internal/store/articles.go:229-325 | board, author and creation time of an article never change, its text only by its author or a moderator, its pin and mode only by a moderator, its score only with a push |
| `ForumRuns.ClosedScoreFallsByDeletions` | internal/store/pushes.go:127-169 | over a run in which the comments of an article stay closed its score falls by exactly the deltas of the pushes it has lost |
| `ForumRuns.LockedPushesOnlyShrink` | internal/store/pushes.go:141-147 | while an article stays locked, every push it has at the end it had, unchanged, at the start |
| `ForumRuns.FaultsOnlyDropOperations` | internal/store/pushes.go:119-124 | over every run, with any statement failing, the tables end as after a run in which nothing fails, made of exactly the operations that took effect, in order |
| `Forum.ExecKeepsConsistent` | internal/store/pushes.go:107-175 | every operation, wherever it fails, keeps ids in order, pushes with an article, and every score equal to its sum |
| `Forum.Store.CreatePush` | internal/store/pushes.go:113-175 | the transaction, with its checks in the order of the code and its rollback, has its effect or, unless the error is the read of the committed row, leaves the tables as they were |
| `Forum.Store.DeletePush` | internal/store/pushes.go:182-221 | the transaction, with its checks in the order of the code and its rollback, has its effect or returns an error and leaves the tables as they were |
| `Forum.Store.CreateArticle` | internal/store/articles.go:187-203 | appends an open, unpinned article with score 0 and the next id |
| `Forum.Store.DeleteArticle` | internal/store/articles.go:209-227 | deletes the article and, by the cascade, its pushes |
| `Forum.Store.UpdateArticle` | internal/store/articles.go:235-257 | changes title, body and edit time of one article, for its author or a moderator |
| `Forum.Store.SetPinned` | internal/store/articles.go:266-293 | pins or unpins, for moderators only |
| `Forum.Store.SetCommentsMode` | internal/store/articles.go:302-325 | refuses an unknown mode first, then anyone below moderator, then a missing article |
| `Forum.ScoreAfterDelete` | internal/store/pushes.go:209-219 | deleting a push takes exactly its own delta from the sum of its article and from no other |
| `Forum.FindPushAfterCascade` | internal/store/migrations/0001_init.sql:48 | deleting an article deletes its pushes and no other |
| `ForumEffects.UpdateStores` | internal/store/articles.go:235-257 | a permitted update leaves the article with the new title, body and edit time and everything else as it was |
| `ForumEffects.PinStores` | internal/store/articles.go:266-293 | a permitted pin stores its time, an unpin takes it away, and nothing else changes |
| `ForumEffects.ModeStores` | internal/store/articles.go:302-327 | a permitted change of mode stores the mode and nothing else |
| `ForumEffects.ArticleIsPosted` | internal/store/articles.go:187-202 | a new article is found under an id that was free, with what it was given |
| `ForumEffects.ArticleIsDeleted` | internal/store/articles.go:209-228 | a deleted article is gone with its own pushes and no other |
| `ForumEffects.PushIsStored` | internal/store/pushes.go:113-176 | a new push is found under an id that was free, with what it was given; its article gains one for a push, loses one for a boo, and keeps its score for an arrow |
| `ForumEffects.PushIsDeleted` | internal/store/pushes.go:182-230 | a deleted push is gone and its contribution with it; nothing else changes |
| `ForumEffects.RefusesExactly` | internal/store/articles.go:209-327 | each refusal is returned if and only if what it says of the requester, the row or the mode is so |
| `ForumEffects.RanksExactly` | internal/store/role.go:15-32 | which role is at least which; a role outside the table is at least none |
| `ForumEffects.FaultsAreReported` | internal/store/pushes.go:113-230 | a permitted operation returns an error if and only if one of its own statements fails, and then changes nothing unless only the re-read failed |
| `Listing.SearchFindsSubstrings` | internal/store/articles.go:126-129 | the search pattern matches a title exactly when the title contains the text up to ASCII case, whatever wildcards and backslashes the text holds |
| `Listing.EscapedIsLiteral` | internal/store/articles.go:70 | escaped text matches itself, up to ASCII case, and nothing else |
| `Listing.OneCharacter` | internal/store/articles.go:126-129 | what `_` and an escaped character mean in a pattern |
| `Listing.AnyRunOf` | internal/store/articles.go:126-129 | what `%` means: any run of characters, the empty one included |
| `Listing.FoldsLettersOnly` | internal/store/articles.go:127 | case is ignored for the 26 ASCII letters and for nothing else |
| `Listing.ListingIsExact` | internal/store/articles.go:116-154 | the list holds only what was asked for, without repeats, pinned articles first, then by score if asked, then by time and id, all descending; what it leaves out comes after all it shows and only when the limit, 50 when none is given, is reached |
| `Listing.OrderIsUnique` | internal/store/articles.go:131-134 | whatever arrangement of what was asked for is in that order, the list is that arrangement up to the limit |
| `BoardView.CursorStaysInRange` | internal/tui/screen_board_view.go:84-235 | after any keys, broadcasts and failed reloads the cursor is on an article, or 0 on an empty list |
| `BoardView.HighlightFollowsArticle` | internal/tui/screen_board_view.go:97-109 | after a change of order, pin or comments mode the same article is highlighted whenever it is still listed |
| `BoardView.SortKeepsHighlight` | internal/tui/screen_board_view.go:158-167 | changing the order keeps the highlight of an article that is in the table and matches, unless the list is full |
| `BoardView.WantedIsListed` | internal/tui/screen_board_view.go:51-72 | a reload loses an article that is in the table and matches only to a list that is full |
| `BoardView.SearchShowsMatches` | internal/tui/screen_board_view.go:115-132 | confirming a search shows only matching articles of the board, from the top; cancelling it drops the filter |
| `BoardView.Reload` | internal/tui/screen_board_view.go:51-72 | a reload as the code does it, with the failed query, the anchor and the clamp |
| `BoardView.Update` | internal/tui/screen_board_view.go:84-235 | the message and key switch, with the search input's own keys |
| `BoardView.FindCursorByID` | internal/tui/screen_board_view.go:367-374 | the index of the first article with the id, or 0 |
| `BoardView.ReloadGives` | internal/tui/screen_board_view.go:45-72 | what a reload lists and where the cursor lands: on the anchor, at the top when it is not listed, or where it was, clamped; a failed query changes only the error |
| `BoardView.OpensAtTheTop` | internal/tui/screen_board_view.go:29-41 | the screen opens at the top of the newest articles without a search, and with an error when board or list cannot be loaded |
| `BoardView.CursorKeysDo` | internal/tui/screen_board_view.go:168-181 | up and down move by one and stop at the ends, home and end go to them |
| `BoardView.OtherKeysDo` | internal/tui/screen_board_view.go:138-235 | the search opens with the filter that is set, and pinning is for moderators |
| `BoardView.ReloadsDo` | internal/tui/screen_board_view.go:90-235 | what makes the screen reload, and that the reload follows the highlighted article except when an article was added |
| `BoardView.EscapeDropsFilter` | internal/tui/screen_board_view.go:145-153 | escape drops a filter that is set and lists again from the top |
| `BoardView.TypingDoes` | internal/tui/screen_board_view.go:115-136 | while a search is typed every key but enter and escape only changes its text |
| `BoardView.OtherBoardsAreIgnored` | internal/tui/screen_board_view.go:90-109 | messages about other boards change nothing |
| `BoardView.ErrorsStayExactly` | internal/tui/screen_board_view.go:45-64 | over every run the screen shows an error if and only if its first load or any query since has failed |
| `BoardView.OneFailureBlanksTheScreen` | internal/tui/screen_board_view.go:45-64 | one failed refresh and then one that succeeds leave the error in place of the list, against the comment |
| `Mail.ThreadIsTheTree` | internal/store/mail.go:112-130 | with every message in a thread, the thread of a root is exactly the root and all that descends from it, oldest first, root in front |
| `Mail.ThreadIsRootExactly` | internal/store/mail.go:43-82 | a message is in the thread of its root exactly when it and every message above it are in a thread; otherwise its thread is a later one |
| `Mail.RunKeepsInv` | internal/store/mail.go:43-82 | in every reachable state, between any two statements, with any of them failing and after crashes, parents are older, and a thread is the parent's when the parent is in one and otherwise the message's own |
| `Mail.MissingExactly` | internal/store/mail.go:63-79 | in every reachable state the messages without a thread are exactly those that inherited none and whose back-fill has not committed |
| `Mail.RunsAreThreaded` | internal/store/mail.go:74-79 | every message is in a thread if and only if the back-fill of every root has committed |
| `Mail.InboxReadsExactly` | internal/store/mail.go:86-110 | loading an inbox succeeds if and only if no message to the user without a thread has fewer than the limit shown before it, and then lists exactly the first ones |
| `Mail.InboxFailsExactly` | internal/store/mail.go:86-110 | over runs: the load fails if and only if it would list a message that inherited no thread and whose back-fill has not committed |
| `Mail.ListedExactly` | internal/store/mail.go:91-94 | a message is listed if and only if fewer than the limit come before it, unread first and newest first |
| `Mail.InboxIsExact` | internal/store/mail.go:84-94 | the inbox shows messages to the user, unread first and newest first, and leaves out only what would come after all it shows, at the limit of 50 when none is given |
| `Mail.ReadBetweenStatementsFails` | internal/store/mail.go:40-42 | with nothing failing, a read between the insert and the back-fill finds no thread: inbox and lookup fail, and succeed after the back-fill |
| `Mail.GivenUpStaysMissing` | internal/store/mail.go:74-79 | a message whose back-fill was given up has no thread in any later state |
| `Mail.AnsweredThreadsAreRoots` | internal/tui/screen_mail.go:465-470 | where replies answer messages that could be read, as in the screens, every thread is the root's and only roots can be without one |
| `Mail.RepliesOpenNoThread` | internal/store/mail.go:112-118 | a message that is no root has no thread of its own |
| `Mail.FailedBackfillSplitsThread` | internal/store/mail.go:49-62 | after a failed back-fill a caller of the store that answers the message all the same opens a thread of its own |
| `Mail.Mailbox.Begin` | internal/store/mail.go:44-62 | takes the lock and, for a reply, the thread of its parent, or refuses a parent that is not there |
| `Mail.Mailbox.InsertRow` | internal/store/mail.go:63-73 | commits the row with the thread it inherited, if any |
| `Mail.Mailbox.Backfill` | internal/store/mail.go:74-79 | commits the row's own id as its thread, or leaves it without one |
| `Mail.Mailbox.Insert` | internal/store/mail.go:43-82 | the whole call under any failures of its four statements: which row is left behind, which error comes back (a row committed and not read back is an error too), and that a success returns the row as a lookup by id would |
| `Mail.InsertIsItsSteps` | internal/store/mail.go:43-82 | the call and the four steps of its writer, taken without a pause, leave the same table |
| `Mail.InsertsWhatItWasGiven` | internal/store/mail.go:43-82 | an undisturbed call adds one row with the given sender, recipient, texts and parent, unread, in the thread of its parent or in its own |
| `Mail.LookupsExactly` | internal/store/mail.go:49-64 | which lookups find their row and with which error each other one fails |
| `Mail.MarksAndEnds` | internal/store/mail.go:43-82 | marks change only whether rows are read and wait for the lock; a failed statement, a crash and the end of a call give the lock back and change no row |
| `Mail.Mailbox.ListInboxFor` | internal/store/mail.go:86-110 | the scan loop returns the listed messages, or fails at the first without a thread |
| `Mail.Mailbox.ListThread` | internal/store/mail.go:112-130 | the scan returns exactly the messages of the thread, oldest first |
| `Migrate.ResumesWhereItStopped` | internal/store/migrate.go:20-68 | any number of failed or killed runs and then a successful one end in the database of one uninterrupted run, which adds to the history exactly the files whose version was not recorded, in ascending order of their versions |
| `Migrate.StopsAfter` | internal/store/migrate.go:58-66 | a run cut off after n commits leaves the first n of them, and has failed unless that was all |
| `Migrate.RerunChangesNothing` | internal/store/migrate.go:52-68 | after a successful run no further run changes anything |
| `Migrate.SucceedsWhenVersionsDiffer` | internal/store/migrate.go:87-100 | a run that nothing interrupts succeeds exactly when no two pending files share a version |
| `Migrate.AllCommittedExactly` | internal/store/migrate.go:20-100 | for any database and directory, some series of runs commits every pending migration if and only if no two of them share a version |
| `Migrate.NoVersionTwice` | internal/store/migrate.go:87-100 | however often runs are made and fail, no version is committed twice and none that was recorded before |
| `Migrate.RepeatedVersionIsLost` | internal/store/migrate.go:52-54 | two directory entries with one version: the first run commits one and fails, the next succeeds and changes nothing |
| `Migrate.BadNameChangesNothing` | internal/store/migrate.go:48-51 | a bad file name stops a run before it has changed anything |
| `Migrate.NoTableNoChange` | internal/store/migrate.go:20-33 | a run that cannot create or read its table has changed nothing |
| `Migrate.VersionOfName` | internal/store/migrate.go:102-113 | a name of a padded number, an underscore and anything has that number as its version |
| `Migrate.VersionExactly` | internal/store/migrate.go:102-113 | the version of any name is the integer before its first underscore; any other name is bad |
| `Migrate.Database.Apply` | internal/store/migrate.go:20-68 | a run over the directory: its table, the pending files, their transactions in order |
| `Migrate.Database.RunOne` | internal/store/migrate.go:87-100 | body and version row are committed together or not at all, and a version that is there already fails |
| `Migrate.Database.LoadApplied` | internal/store/migrate.go:70-85 | the map holds exactly the recorded versions |
| `Notify.EventsAreConserved` | internal/notify/dispatcher.go:128-158 | in every reachable state an event was accepted as often as it is queued, in flight and delivered; the queue holds at most 256 and there are four workers |
| `Notify.TakenInOrder` | internal/notify/dispatcher.go:135-158 | the queue is what was accepted and not yet taken: workers take events in the order they were accepted |
| `Notify.CallEnqueues` | internal/notify/dispatcher.go:135-142 | a call past the check puts its event at the end of the queue, drops it exactly when 256 are queued, and panics when the queue was closed |
| `Notify.WorkerDelivers` | internal/notify/dispatcher.go:145-158 | an idle worker takes the first event of the queue and delivers that event, once |
| `Notify.StopDrains` | internal/notify/dispatcher.go:111-121 | when the stop has returned, what was accepted is what was delivered, once each, and what a cancellation left in the queue; without a cancellation nothing is left |
| `Notify.StopCanFinish` | internal/notify/dispatcher.go:108-121 | from every reachable state that has not panicked, closing the queue can be followed by a return of the stop, and with everything accepted delivered when nothing was cancelled |
| `Notify.EveryEventIsAccounted` | internal/notify/dispatcher.go:128-143 | over every run, the events past the check are exactly those accepted, dropped, still between the two steps, or lost to a panic, each as often |
| `Notify.DropsNeedAFullQueue` | internal/notify/dispatcher.go:135-142 | over every run, an event has been dropped only if the queue held 256 before |
| `Notify.NoOverlapNoPanic` | internal/notify/dispatcher.go:128-138 | where no call overlaps the close, none ever sends on the closed queue |
| `Notify.PanicsExactly` | internal/notify/dispatcher.go:111-138 | from any reachable open state, closing the queue is safe for every continuation if and only if no call is between its two steps |
| `Notify.OverlapPanics` | internal/notify/dispatcher.go:128-138 | a run that panics: a call reads the flag, the queue is closed, the call sends |
| `Notify.CancelCanLoseEvents` | internal/notify/dispatcher.go:148-151 | a run in which a cancelled context leaves an accepted event undelivered |
| `Notify.DrainsExactly` | internal/notify/dispatcher.go:108-121 | from any reachable open state: if nothing cancels after the close, every run in which the stop returns has delivered all that was accepted, once each, if and only if the context was not cancelled or nothing was queued at the close |
| `Notify.DrainsWhateverHappensExactly` | internal/notify/dispatcher.go:108-121 | the same where the context may be cancelled after the close: if and only if nothing was queued |

## Left out

- Delivery.NoGap: `Program.Send` returning counts as handed over; whether the screen showed the message, and deadlock freedom of two users sending to each other at once, are not modelled.
- Delivery.NothingLeftUnread: a thread opening marks every inbound row although it lists at most 200; that a marked row was shown is not claimed.
- Notify.StopDrains: it is about the `Stop` that closes the queue; a second `Stop` returns at once and promises nothing. What `deliver` sends to whom (preferences, targets, HTTP) is not modelled.
- Broker.Hub.Unregister: the slice is a value, so the reuse of its backing array by the splice is not modelled; no reader keeps a slice outside the lock.
- Banner.TruncationFits: the width of a rune is a parameter and widths are added rune by rune; grapheme clusters, for which the library's string width differs, and invalid UTF-8 are not modelled.
- Markdown.Parse: hand-edited timestamps with offsets or fractions, which the code accepts, are read as absent; the writer never produces them.
- Markdown.Parsed.ParseFrontmatter: the same for the two frontmatter times.
- Markdown.Parsed.ParsePushes: the same for the time of a push line, which then reads as the zero time.
- Listing.SearchFindsSubstrings: `LIKE` is modelled as pattern matching on characters; SQLite's treatment of NUL inside a text is not.
- Listing.ListingIsExact: stored times are compared field by field, not as the text SQLite holds.
- WaterBalloons.InboxAgrees: two conversations whose last rows have the same second may come in either order; the model keeps their counterparties in order of first contact.
- Forum.Store.CreatePush: foreign keys to users and boards are not modelled; a violated one is a failed insert. Scores are unbounded integers.
- Migrate.Database.RunOne: a migration body is one atomic change inside its transaction; bodies that manage transactions themselves are not modelled.
- Migrate.Database.Apply: `sort.Slice` may put either of two pending files with one version first; the model keeps directory order.
- BalloonFlows.Submit: the checks before the insert (empty recipient or body, unknown user) and the webhook notification after it.
- The SSH server, the terminal runtime, every view, key help and translation: libraries and rendering.
- The SQLite engine, its pragmas and its driver: tables are sequences, and each committed statement or transaction is one step. The unread count of the mail badge, which does not look at threads, is not modelled.
- Login, password hashing, URL redaction, JSON, the clipboard and file export: foreign calls or thin wrappers.
- Whether there is always an administrator, and the range of the push cursor of the article screen, are not modelled.
- Neighbour lookup, online lookup by name, seeding, reply quoting, menus and board list filtering: true but easy.
