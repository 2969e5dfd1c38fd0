# Chat backend core, modelled in Dafny

A model of the core of a Kotlin chat backend. Users ask questions. Each
question joins the user's most recently active conversation thread, or opens
a new thread when that one has been idle for more than 30 minutes. The earlier
turns of the thread go to an OpenAI chat-completions call as context. The
question and its answer are stored as one turn. Around that flow sit:

- the thread store's queries;
- the grouping of a page of threads with their turns;
- a daily CSV report of all turns;
- feedback on turns, with a status that reviewers change;
- thread deletion by the owner;
- sign-up and login.

The stores are classes over sequences of rows, and ids come from an identity
counter that starts at 1. Time is whole minutes. The answer generator, the
HTTP exchange with OpenAI, the password encoder, the password check, the token
issuer and the timestamp formatter are function parameters.

Files, one module each:

| file | module | models |
|---|---|---|
| common.dfy | Common | ids, time, `Option`, error codes, `Result`, decimal spelling of ids |
| chat_thread.dfy | ChatThreadDomain | ChatThread.kt |
| thread_store.dfy | ChatThreadStore | ChatThreadJpaRepository.kt and the thread repository port |
| chat_store.dfy | Chats | Chat.kt and the chat repository port |
| ai_client.dfy | AiClientPort | AiClient.kt |
| open_ai_client.dfy | OpenAi | OpenAiClient.kt |
| chat_service.dfy | ChatService | ChatService.kt |
| csv.dfy | Csv | `escapeCsv` and the row joining of ReportService.kt, with a reader for them |
| report_service.dfy | ReportService | `generateChatReport` of ReportService.kt |
| user_store.dfy | Users | User.kt and the user repository port |
| user_service.dfy | UserService | UserService.kt |
| feedback.dfy | FeedbackDomain | Feedback.kt |
| feedback_store.dfy | FeedbackStorage | the feedback repository and its unique constraint |
| feedback_service.dfy | FeedbackService | FeedbackService.kt |
| chat_thread_service.dfy | ChatThreadService | ChatThreadService.kt |

Behaviour of the code that a reader might expect to be otherwise; the model
follows the code in each case:

- Expiry is strict. A thread is expired only when its last activity plus 30
  minutes lies strictly before the new question's time (`isBefore` in
  ChatThread.kt:14-16). A gap of exactly 30 minutes keeps the thread.
- Deleting a thread deletes only the thread row (ChatThreadService.kt:42).
  The controller test ChatThreadControllerTest.kt:168-181 expects the
  thread's turns to go with it. `deleteByThreadId` is declared but never
  called, and no entity mapping cascades the delete.
- The services throw error codes (chat, thread and feedback codes) that the
  repository's ErrorCode enum does not declare. `Common.ErrorCode` declares
  every code the services use.
- ReportService.kt calls `userRepository.findById`, which the UserRepository
  port does not declare. The model gives the user table that lookup
  (`Users.FindUserById`).
- ChatRepositoryAdapter.kt:40 and :44 call `countByCreatedAtBetween` and
  `findByCreatedAtBetween` on ChatJpaRepository, which declares neither.
  `Chats.ChatsCreatedBetween` gives the lookup the meaning of a Spring Data
  derived `Between` query, with both bounds included.

## Model

| member | source | states |
|---|---|---|
| Common.NatToString | src/main/kotlin/com/assignment/report/application/service/ReportService.kt:70-71 | `toString()` of an id: a non-empty run of decimal digits with no leading zero whose value is the id |
| ChatThreadDomain.ExpiredAt | src/main/kotlin/com/assignment/thread/domain/ChatThread.kt:12-16 | expired exactly when more than 30 minutes have passed since the last activity; an expired thread's last activity lies before `time` |
| ChatThreadDomain.ChatThread.constructor | src/main/kotlin/com/assignment/thread/domain/ChatThread.kt:5-10 | a new thread object holds exactly the given id, owner, last activity and creation time |
| ChatThreadDomain.ChatThread.IsExpired | src/main/kotlin/com/assignment/thread/domain/ChatThread.kt:14-16 | `isExpired`: true exactly when more than 30 minutes have passed since the object's last activity |
| ChatThreadDomain.ChatThread.UpdateLastActivityAt | src/main/kotlin/com/assignment/thread/domain/ChatThread.kt:18-20 | sets the last activity time to `time`, leaves id, owner and creation time alone, and the thread is not expired at `time` afterwards |
| ChatThreadDomain.ExpiryBoundary | src/main/kotlin/com/assignment/thread/domain/ChatThread.kt:12-16 | a gap of exactly 30 minutes is not expired (strict `isBefore`); 31 minutes is |
| ChatThreadDomain.ExpiryExamples | src/main/kotlin/com/assignment/thread/domain/ChatThread.kt:14-16 | 10 minutes after the last activity the thread is open, 40 minutes after it is expired |
| ChatThreadDomain.ExpiryMonotone | src/main/kotlin/com/assignment/thread/domain/ChatThread.kt:14-16 | once expired at `t`, a thread is expired at every later instant |
| ChatThreadDomain.OpenWithinWindow | src/main/kotlin/com/assignment/thread/domain/ChatThread.kt:14-16 | a thread is open at every instant up to 30 minutes after its last activity |
| ChatThreadStore.FindThreadById | src/main/kotlin/com/assignment/thread/application/port/out/ChatThreadRepository.kt:10 | absent exactly when no row has the id; a found row is stored and has that id |
| ChatThreadStore.FindThreadByIdAt | src/main/kotlin/com/assignment/thread/application/port/out/ChatThreadRepository.kt:10 | with distinct ids, looking up a stored row's id finds that very row |
| ChatThreadStore.FindThreadByIdAppend | src/main/kotlin/com/assignment/thread/adapter/out/persistence/ChatThreadRepositoryAdapter.kt:15-19 | saving a row under a new id makes it findable and leaves every other lookup unchanged |
| ChatThreadStore.FindLatest | src/main/kotlin/com/assignment/thread/adapter/out/persistence/ChatThreadJpaRepository.kt:16-21 | nothing exactly when the user owns no thread; otherwise a stored thread of that user whose last activity is at least that of each of the user's threads |
| ChatThreadStore.ThreadsOfUser | src/main/kotlin/com/assignment/thread/adapter/out/persistence/ChatThreadJpaRepository.kt:14 | exactly the stored threads whose owner is the user |
| ChatThreadStore.ThreadsOfUserConcat | src/main/kotlin/com/assignment/thread/adapter/out/persistence/ChatThreadJpaRepository.kt:14 | the listing keeps store order: listing a concatenation lists each part in turn |
| ChatThreadStore.WithLastActivityAt | src/main/kotlin/com/assignment/thread/adapter/out/persistence/ChatThreadJpaRepository.kt:23-27 | the update keeps the row count and at each position rewrites only the last activity time, and only of rows with that id |
| ChatThreadStore.WithLastActivity | src/main/kotlin/com/assignment/thread/adapter/out/persistence/ChatThreadJpaRepository.kt:23-27 | the UPDATE statement on the rows: the row count stays, and every row keeps its id, owner and creation time |
| ChatThreadStore.WithLastActivityFind | src/main/kotlin/com/assignment/thread/adapter/out/persistence/ChatThreadJpaRepository.kt:23-27 | through `findById`: the updated thread carries the new time, every other id finds what it found before |
| ChatThreadStore.WithLastActivityUnknown | src/main/kotlin/com/assignment/thread/adapter/out/persistence/ChatThreadJpaRepository.kt:23-27 | an update naming no stored id changes nothing |
| ChatThreadStore.WithoutThread | src/main/kotlin/com/assignment/thread/application/port/out/ChatThreadRepository.kt:15 | `deleteById` on the rows: none is added, and none with the id is left |
| ChatThreadStore.WithoutThreadContents | src/main/kotlin/com/assignment/thread/application/port/out/ChatThreadRepository.kt:15 | after `deleteById` the rows are exactly the earlier rows with a different id |
| ChatThreadStore.WithoutThreadFind | src/main/kotlin/com/assignment/thread/application/port/out/ChatThreadRepository.kt:15 | after `deleteById` the id finds nothing and every other id finds what it found before |
| ChatThreadStore.WithoutThreadValid | src/main/kotlin/com/assignment/thread/application/port/out/ChatThreadRepository.kt:15 | deletion keeps ids distinct and below the identity counter |
| ChatThreadStore.ThreadStore.constructor | src/main/kotlin/com/assignment/thread/application/port/out/ChatThreadRepository.kt:8-17 | an empty table whose first identity value is 1 |
| ChatThreadStore.ThreadStore.Save | src/main/kotlin/com/assignment/thread/adapter/out/persistence/ChatThreadRepositoryAdapter.kt:15-19 | appends the row under the next identity value, advances the counter, and returns a fresh object with that row |
| ChatThreadStore.ThreadStore.FindLatestByUserId | src/main/kotlin/com/assignment/thread/adapter/out/persistence/ChatThreadRepositoryAdapter.kt:37-40 | null exactly when the user owns no thread, else a fresh copy of the latest thread's row |
| ChatThreadStore.ThreadStore.UpdateLastActivityAt | src/main/kotlin/com/assignment/thread/adapter/out/persistence/ChatThreadRepositoryAdapter.kt:42-44 | the rows become the UPDATE statement's result; counter and invariant kept |
| ChatThreadStore.ThreadStore.DeleteById | src/main/kotlin/com/assignment/thread/adapter/out/persistence/ChatThreadRepositoryAdapter.kt:46-48 | the rows lose that id; counter and invariant kept |
| Chats.FindChatById | src/main/kotlin/com/assignment/chat/application/port/out/ChatRepository.kt:8 | absent exactly when no turn has the id; a found turn is stored and has that id |
| Chats.ChatsOfThread | src/main/kotlin/com/assignment/chat/application/port/out/ChatRepository.kt:9 | exactly the stored turns of the thread |
| Chats.ChatsOfThreadConcat | src/main/kotlin/com/assignment/chat/application/port/out/ChatRepository.kt:9 | the history keeps store order: a thread's turns in a concatenation are its turns in each part, in turn |
| Chats.ChatsOfThreads | src/main/kotlin/com/assignment/chat/application/port/out/ChatRepository.kt:10 | exactly the stored turns of any of the given threads |
| Chats.ChatsCreatedBetween | src/main/kotlin/com/assignment/chat/application/port/out/ChatRepository.kt:13 | exactly the stored turns created within the bounds, both included |
| Chats.ChatsOfThreadOfFetch | src/main/kotlin/com/assignment/chat/application/service/ChatService.kt:89-95 | one requested thread's turns, taken from a multi-thread fetch, are that thread's turns in store order |
| Chats.ChatsOfThreadAppend | src/main/kotlin/com/assignment/chat/application/port/out/ChatRepository.kt:7 | saving a turn extends its own thread's history by that turn and no other thread's |
| Chats.ChatStore.constructor | src/main/kotlin/com/assignment/chat/application/port/out/ChatRepository.kt:6-14 | an empty table whose first identity value is 1 |
| Chats.ChatStore.Save | src/main/kotlin/com/assignment/chat/application/port/out/ChatRepository.kt:7 | appends the turn under the next identity value and advances the counter |
| ChatService.OpensNewThread | src/main/kotlin/com/assignment/chat/application/service/ChatService.kt:55-57 | a new thread is opened exactly when every thread of the user has expired at `now`, vacuously so when there is none |
| ChatService.Resolve | src/main/kotlin/com/assignment/chat/application/service/ChatService.kt:54-72 | on the table: a missing or expired latest thread gives a new row (next id, owner, both times `now`) appended; otherwise the latest thread with its activity set to `now`, the table being exactly the old one with that id's activity set to `now` and the id counter unchanged; either way the invariant holds, the thread is found under its id, and no other id's thread changes |
| ChatService.ResolveThread | src/main/kotlin/com/assignment/chat/application/service/ChatService.kt:54-72 | the store and the returned object both end as `Resolve` says: a save on the new-thread path, the UPDATE plus the object's own update on the reuse path |
| ChatService.NoTurnsInNewThread | src/main/kotlin/com/assignment/chat/application/service/ChatService.kt:33 | a thread id not yet handed out has no turns, so a new thread's history is empty |
| ChatService.CreateChat | src/main/kotlin/com/assignment/chat/application/service/ChatService.kt:26-52 | the answer generator gets exactly the resolved thread's stored turns and the caller's model and streaming flag; exactly one turn is saved, with the next turn id, the resolved thread id, the question, the generated answer and `now`, and the turn counter advances by one; the thread table changes only as `Resolve` says; a new thread has an empty history |
| ChatService.SameThreadWithinWindow | src/main/kotlin/com/assignment/chat/application/service/ChatService.kt:54-72 | a second question at most 30 minutes after the first (no later activity recorded) joins the first one's thread, whose activity becomes the second time, and opens no thread |
| ChatService.NewThreadAfterWindow | src/main/kotlin/com/assignment/chat/application/service/ChatService.kt:54-72 | a second question more than 30 minutes after the first opens a new thread with the next id, distinct from the first |
| ChatService.LatestAfterResolve | src/main/kotlin/com/assignment/chat/application/service/ChatService.kt:57-71 | when every recorded activity of the user lies strictly before `t`, the resolved thread is the user's latest after resolving at `t` |
| ChatService.OtherRowAfterResolve | src/main/kotlin/com/assignment/chat/application/service/ChatService.kt:57-71 | after resolving at `t`, the user's other threads keep their earlier times |
| ChatService.MaxActivityAfterResolve | src/main/kotlin/com/assignment/chat/application/service/ChatService.kt:57-71 | when every recorded activity of the user lies at or before `t`, resolving at `t` puts no thread of the user later than `t` |
| ChatService.ThreadIds | src/main/kotlin/com/assignment/chat/application/service/ChatService.kt:88 | the page's thread ids, in page order |
| ChatService.GroupOf | src/main/kotlin/com/assignment/chat/application/service/ChatService.kt:99 | `chatsByThreadId[thread.id] ?: emptyList()`: the group when the key is present, else the empty list |
| ChatService.GroupByThread | src/main/kotlin/com/assignment/chat/application/service/ChatService.kt:95 | every group is non-empty, and looking up a thread (empty when absent) gives exactly its turns in order |
| ChatService.MapThreadsToChatsPage | src/main/kotlin/com/assignment/chat/application/service/ChatService.kt:84-105 | one entry per page thread in page order, each with exactly that thread's stored turns (empty if none), and the total carried over; the multi-thread fetch happens exactly when the page is non-empty, and then asks for the page's thread ids |
| ChatService.ConversationScenario | src/main/kotlin/com/assignment/chat/application/service/ChatService.kt:26-72 | questions at minutes 0 and 10 share a thread and one at minute 45 opens another; the second question's generator gets the first turn as history, and the third gets an empty history |
| OpenAi.IsWhitespace | src/main/kotlin/com/assignment/chat/adapter/out/ai/OpenAiClient.kt:35 | Kotlin's `isWhitespace`: space, tab, line feed and carriage return count, and letters and digits do not |
| OpenAi.IsBlank | src/main/kotlin/com/assignment/chat/adapter/out/ai/OpenAiClient.kt:35 | Kotlin's `isBlank`: true exactly when every character is whitespace, so the empty key is blank |
| OpenAi.HistoryMessages | src/main/kotlin/com/assignment/chat/adapter/out/ai/OpenAiClient.kt:83-86 | each history turn becomes a user message with its question and then an assistant message with its answer, in order |
| OpenAi.PromptMessages | src/main/kotlin/com/assignment/chat/adapter/out/ai/OpenAiClient.kt:73-91 | length 2·|history|+2; the system instruction first; positions 2i+1 and 2i+2 hold turn i's question and answer; the new question last |
| OpenAi.BuildMessages | src/main/kotlin/com/assignment/chat/adapter/out/ai/OpenAiClient.kt:73-91 | the appending loop yields exactly `PromptMessages` |
| OpenAi.BuildRequest | src/main/kotlin/com/assignment/chat/adapter/out/ai/OpenAiClient.kt:42-47 | the caller's model when given, else the configured default; never streaming; the prompt messages |
| OpenAi.FirstContent | src/main/kotlin/com/assignment/chat/adapter/out/ai/OpenAiClient.kt:58 | `response?.choices?.firstOrNull()?.message?.content`: null for a null body, missing or empty choices; a content found is the first choice's message content |
| OpenAi.MessageText | src/main/kotlin/com/assignment/chat/adapter/out/ai/OpenAiClient.kt:67 | `${e.message}`: the message when present, the text `null` otherwise |
| OpenAi.SelectAnswer | src/main/kotlin/com/assignment/chat/adapter/out/ai/OpenAiClient.kt:58-69 | the first choice's content when present, the no-response notice when absent, the error prefix plus the exception message ("null" when missing) on failure; an empty answer only comes from an empty content |
| OpenAi.GenerateAnswer | src/main/kotlin/com/assignment/chat/adapter/out/ai/OpenAiClient.kt:29-71 | a blank key returns the key-not-set notice and sends nothing; otherwise it sends exactly `BuildRequest` and answers `SelectAnswer` of the outcome; never marked as streaming |
| OpenAi.FailureAnswerVisible | src/main/kotlin/com/assignment/chat/adapter/out/ai/OpenAiClient.kt:65-69 | a failure answer is never empty and starts with the error prefix |
| Csv.DoubleQuotes | src/main/kotlin/com/assignment/report/application/service/ReportService.kt:88 | a value without quotes is unchanged |
| Csv.DoubleQuotesChars | src/main/kotlin/com/assignment/report/application/service/ReportService.kt:88-89 | doubling quotes keeps the same set of characters, so the quoting test on the doubled text equals the test on the value |
| Csv.EscapeCsv | src/main/kotlin/com/assignment/report/application/service/ReportService.kt:87-94 | a value with no comma, quote or line feed is written as it is; otherwise it is enclosed in quotes with each quote doubled |
| Csv.JoinCommaShape | src/main/kotlin/com/assignment/report/application/service/ReportService.kt:77 | `joinToString(",")`: no fields give the empty text, one field gives itself, and otherwise the text begins with the first field and then a comma |
| Csv.EscapeAll | src/main/kotlin/com/assignment/report/application/service/ReportService.kt:72-75 | each field is escaped, in place |
| Csv.CollapseDoubled | src/main/kotlin/com/assignment/report/application/service/ReportService.kt:88 | collapsing doubled quotes undoes the doubling |
| Csv.EscapeRoundTrip | src/main/kotlin/com/assignment/report/application/service/ReportService.kt:87-94 | stripping the enclosing quotes and collapsing doubled quotes gives the value back |
| Csv.DoubleQuotesPaired | src/main/kotlin/com/assignment/report/application/service/ReportService.kt:88 | after doubling, every quote is one of a pair (RFC 4180 section 2, rule 7) |
| Csv.EscapedFieldShape | src/main/kotlin/com/assignment/report/application/service/ReportService.kt:89-90 | an escaped field with a comma, quote or line feed is enclosed in quotes with its inner quotes paired (RFC 4180 section 2, rules 6 and 7) |
| Csv.CarriageReturnNotQuoted | src/main/kotlin/com/assignment/report/application/service/ReportService.kt:89 | a lone carriage return does not cause quoting |
| Csv.CommaExample | src/main/kotlin/com/assignment/report/application/service/ReportService.kt:87-94 | `a,b` is enclosed in quotes |
| Csv.QuoteExample | src/main/kotlin/com/assignment/report/application/service/ReportService.kt:87-94 | `x"y` becomes `"x""y"` |
| Csv.ReadFieldEscaped | src/main/kotlin/com/assignment/report/application/service/ReportService.kt:72-75 | an escaped field followed by a comma, a line feed or nothing reads back as its value |
| Csv.ReadRecordWritten | src/main/kotlin/com/assignment/report/application/service/ReportService.kt:69-80 | a record of escaped fields joined by commas and ended by a line feed reads back as its fields |
| Csv.ReadRecordsWritten | src/main/kotlin/com/assignment/report/application/service/ReportService.kt:65-81 | records written one after another read back as those records, in order |
| ReportService.OwnerOf | src/main/kotlin/com/assignment/report/application/service/ReportService.kt:49 | absent exactly when the thread is not found; else the stored thread's owner |
| ReportService.ThreadUserMap | src/main/kotlin/com/assignment/report/application/service/ReportService.kt:47-50 | each thread id of a reported turn maps to its owner, or to nothing when the thread is gone; no other key |
| ReportService.UserMap | src/main/kotlin/com/assignment/report/application/service/ReportService.kt:52-55 | each owner found maps to that user's account, or to nothing when it is gone |
| ReportService.ReportRow.LineShape | src/main/kotlin/com/assignment/report/application/service/ReportService.kt:69-77 | the line begins with the turn id; when e-mail, name, question and answer need no quoting it is the plain comma-join of the seven values |
| ReportService.RowOf | src/main/kotlin/com/assignment/report/application/service/ReportService.kt:69-77 | the id is written in decimal; the owner id is empty exactly when there is no owner, else that id in decimal; e-mail and name are empty without an account, else the account's; question, answer and formatted time are carried over |
| ReportService.ChatRow | src/main/kotlin/com/assignment/report/application/service/ReportService.kt:66-77 | with direct lookups: the turn id, the owner id of a found thread, and the e-mail and name of a found account |
| ReportService.CachedRow | src/main/kotlin/com/assignment/report/application/service/ReportService.kt:66-67 | a turn whose thread id maps to nothing in the cache gets empty owner, e-mail and name fields |
| ReportService.ReportLines | src/main/kotlin/com/assignment/report/application/service/ReportService.kt:65-81 | the rows are empty exactly when there are no turns, and otherwise end with a line feed |
| ReportService.ReportWindow | src/main/kotlin/com/assignment/report/application/service/ReportService.kt:42-45 | exactly the turns created within the last 1440 minutes up to `now`, both bounds included |
| ReportService.ReportText | src/main/kotlin/com/assignment/report/application/service/ReportService.kt:57-84 | the report starts with U+FEFF and the header line; with no turn in the window that is all of it |
| ReportService.CachedRowIsDirect | src/main/kotlin/com/assignment/report/application/service/ReportService.kt:66-67 | the row built from the two caches equals the row built with direct lookups |
| ReportService.GenerateChatReport | src/main/kotlin/com/assignment/report/application/service/ReportService.kt:41-85 | reads the stores, changes none, and writes the byte order mark, the header and then one row per turn of the last day, in query order |
| ReportService.LineIsRecord | src/main/kotlin/com/assignment/report/application/service/ReportService.kt:69-77 | a row whose id, owner id and time need no quoting is the standard record of its seven values |
| ReportService.HeaderIsRecord | src/main/kotlin/com/assignment/report/application/service/ReportService.kt:61 | the header line is the record of the seven column names, none of which needs quoting |
| ReportService.ReportLinesRecords | src/main/kotlin/com/assignment/report/application/service/ReportService.kt:65-81 | the rows are the records of the turns' values, in order |
| ReportService.ReportReadsBack | src/main/kotlin/com/assignment/report/application/service/ReportService.kt:41-85 | the report starts with U+FEFF, after which a CSV reader sees the column names and then one seven-field record per turn of the day, in input order |
| ReportService.EmptyReport | src/main/kotlin/com/assignment/report/application/service/ReportService.kt:45-61 | no turn in the day gives the header alone |
| ReportService.MissingThreadRow | src/main/kotlin/com/assignment/report/application/service/ReportService.kt:48-50 | a turn whose thread is gone gets empty owner id, e-mail and name fields, with question and answer still written |
| ReportService.MissingUserRow | src/main/kotlin/com/assignment/report/application/service/ReportService.kt:52-55 | an owner without an account gives the owner id with empty e-mail and name fields |
| Users.Role.Name | src/main/kotlin/com/assignment/user/application/service/UserService.kt:46 | `MEMBER` for members and `ADMIN` for admins |
| Users.FindUserByEmail | src/main/kotlin/com/assignment/user/application/port/out/UserRepository.kt:7 | absent exactly when no user has the e-mail; a found user is stored and has it |
| Users.FindUserById | src/main/kotlin/com/assignment/report/application/service/ReportService.kt:54 | absent exactly when no user has the id; a found user is stored and has it |
| Users.FindUserByEmailAppend | src/main/kotlin/com/assignment/user/application/port/out/UserRepository.kt:6 | saving a user with a new e-mail makes that e-mail find it and leaves every other e-mail's lookup as it was |
| Users.UserStore.constructor | src/main/kotlin/com/assignment/user/application/port/out/UserRepository.kt:5-9 | an empty table whose first identity value is 1 |
| Users.UserStore.ExistsByEmail | src/main/kotlin/com/assignment/user/application/port/out/UserRepository.kt:8 | true exactly when a stored user has the e-mail |
| Users.UserStore.Save | src/main/kotlin/com/assignment/user/adapter/out/persistence/UserJpaEntity.kt:15 | appends the user under the next identity value; requires the e-mail to be new, as the unique column does; the unique-e-mail invariant is kept |
| UserService.SignUp | src/main/kotlin/com/assignment/user/application/service/UserService.kt:24-36 | a stored e-mail gives DuplicateEmail with the table unchanged; otherwise exactly one MEMBER is added with the e-mail, name and encoded password |
| UserService.Authenticate | src/main/kotlin/com/assignment/user/application/service/UserService.kt:38-44 | success exactly when the e-mail is stored and the password matches its hash; every failure is InvalidCredentials |
| UserService.Login | src/main/kotlin/com/assignment/user/application/service/UserService.kt:38-51 | changes nothing; failure is InvalidCredentials with no token; success carries `createToken(email, role name)` and the expiry seconds |
| UserService.GetUserByEmail | src/main/kotlin/com/assignment/user/application/service/UserService.kt:53-56 | the stored user with the e-mail, or UserNotFound exactly when there is none |
| UserService.SignUpThenLogin | src/main/kotlin/com/assignment/user/application/service/UserService.kt:24-51 | after signing up, logging in with the same password succeeds as the new user, whose role is MEMBER, when the hash accepts its own password |
| UserService.SignUpKeepsOtherLogins | src/main/kotlin/com/assignment/user/application/service/UserService.kt:24-36 | signing up does not change the login result of any other e-mail |
| FeedbackDomain.Feedback.UpdateStatus | src/main/kotlin/com/assignment/feedback/domain/Feedback.kt:13-22 | the new status, every other field as before |
| FeedbackDomain.NewFeedback | src/main/kotlin/com/assignment/feedback/domain/Feedback.kt:5-12 | a new feedback has no id and status PENDING |
| FeedbackDomain.UpdateStatusIdempotent | src/main/kotlin/com/assignment/feedback/domain/Feedback.kt:13-22 | setting a status twice equals setting it once |
| FeedbackDomain.UpdateStatusLastWins | src/main/kotlin/com/assignment/feedback/domain/Feedback.kt:13-22 | of two status updates only the last counts |
| FeedbackDomain.UpdateStatusSame | src/main/kotlin/com/assignment/feedback/domain/Feedback.kt:13-22 | setting the current status changes nothing |
| FeedbackStorage.FindFeedbackById | src/main/kotlin/com/assignment/feedback/application/port/out/FeedbackRepository.kt:9 | absent exactly when no row has the id; a found row is stored and has it |
| FeedbackStorage.FindFeedbackByUserAndChat | src/main/kotlin/com/assignment/feedback/application/port/out/FeedbackRepository.kt:10 | absent exactly when no row has that user and chat; a found row is stored and has both |
| FeedbackStorage.FindFeedbackByIdAt | src/main/kotlin/com/assignment/feedback/application/port/out/FeedbackRepository.kt:9 | with distinct ids, the lookup finds exactly the row holding the id |
| FeedbackStorage.WithFeedback | src/main/kotlin/com/assignment/feedback/adapter/out/persistence/FeedbackRepositoryAdapter.kt:14-18 | `save` of a stored feedback overwrites rows in place: the row count stays |
| FeedbackStorage.WithFeedbackAt | src/main/kotlin/com/assignment/feedback/adapter/out/persistence/FeedbackRepositoryAdapter.kt:14-18 | saving a stored feedback replaces the rows with its id and keeps the others, position by position |
| FeedbackStorage.WithFeedbackFind | src/main/kotlin/com/assignment/feedback/adapter/out/persistence/FeedbackRepositoryAdapter.kt:14-18 | after the overwrite the id finds the new value and every other id finds what it found before |
| FeedbackStorage.WithFeedbackOther | src/main/kotlin/com/assignment/feedback/adapter/out/persistence/FeedbackRepositoryAdapter.kt:14-18 | lookups of other ids do not see the overwrite |
| FeedbackStorage.OverwriteKeepsTable | src/main/kotlin/com/assignment/feedback/adapter/out/persistence/FeedbackJpaEntity.kt:9-14 | an overwrite with the same id, user and chat keeps ids distinct and one feedback per user and chat |
| FeedbackStorage.FeedbackStore.constructor | src/main/kotlin/com/assignment/feedback/application/port/out/FeedbackRepository.kt:7-13 | an empty table whose first identity value is 1 |
| FeedbackStorage.FeedbackStore.Insert | src/main/kotlin/com/assignment/feedback/adapter/out/persistence/FeedbackRepositoryAdapter.kt:14-18 | a feedback without id is appended under the next identity value; the unique (user, chat) invariant is kept |
| FeedbackStorage.FeedbackStore.Update | src/main/kotlin/com/assignment/feedback/adapter/out/persistence/FeedbackRepositoryAdapter.kt:14-18 | a stored feedback's row is overwritten; invariant and counter kept |
| FeedbackService.CreateFeedbackError | src/main/kotlin/com/assignment/feedback/application/service/FeedbackService.kt:28-40 | ChatNotFound exactly when the chat is missing; ThreadNotFound exactly when the chat exists and its thread does not; FeedbackAccessDenied exactly when both exist, the requester is not an admin and not the owner; FeedbackAlreadyExists exactly when those pass and the requester already judged the chat |
| FeedbackService.CreateFeedbackAllowed | src/main/kotlin/com/assignment/feedback/application/service/FeedbackService.kt:28-40 | every guard passes exactly when the chat and its thread exist, the requester owns it or is an admin, and there is no earlier feedback of the requester on the chat |
| FeedbackService.AdminSkipsOwnership | src/main/kotlin/com/assignment/feedback/application/service/FeedbackService.kt:34-36 | an admin never gets FeedbackAccessDenied |
| FeedbackService.CreateFeedback | src/main/kotlin/com/assignment/feedback/application/service/FeedbackService.kt:27-50 | on a failing guard its error with the table unchanged; otherwise exactly one feedback is added, with the next id, the user, chat and verdict, status PENDING and `now` |
| FeedbackService.UpdateStatus | src/main/kotlin/com/assignment/feedback/application/service/FeedbackService.kt:64-71 | an unknown id gives FeedbackNotFound with the table unchanged; otherwise the stored feedback with the new status is written back and returned |
| FeedbackService.UpdateStatusStored | src/main/kotlin/com/assignment/feedback/application/service/FeedbackService.kt:69-70 | after the update the id finds the feedback with the new status and every other id finds what it found before |
| ChatThreadService.GetChatThreadsByUser | src/main/kotlin/com/assignment/thread/application/service/ChatThreadService.kt:20-22 | exactly `ThreadsOfUser` of the table: the user's stored threads, all of them, in store order |
| ChatThreadService.GetChatThreadById | src/main/kotlin/com/assignment/thread/application/service/ChatThreadService.kt:28-31 | the stored thread with the id, or ThreadNotFound exactly when there is none |
| ChatThreadService.DeleteError | src/main/kotlin/com/assignment/thread/application/service/ChatThreadService.kt:35-40 | ThreadNotFound exactly when the thread is missing; ThreadAccessDenied exactly when it exists and the requester is not its owner, whatever the role; no error otherwise |
| ChatThreadService.DeleteChatThread | src/main/kotlin/com/assignment/thread/application/service/ChatThreadService.kt:33-43 | on an error the table is unchanged; otherwise exactly the thread's id is deleted |
| ChatThreadService.DeleteRemovesOnlyThread | src/main/kotlin/com/assignment/thread/application/service/ChatThreadService.kt:42 | after the owner's delete the id finds nothing and every other id finds what it found before |
| ChatThreadService.OnlyOwnerDeletes | src/main/kotlin/com/assignment/thread/application/service/ChatThreadService.kt:38-40 | with distinct ids, a delete passes the guards exactly when the requester owns the stored thread with that id |

## Left out

- HTTP and framework code is not modelled: controllers, DTO field copies,
  response wrappers, exception handlers and security configuration. It is
  routing and serialisation done by the framework.
- Bean Validation of requests is not modelled. The framework enforces it, so
  the model accepts any question, e-mail and name.
- Password hashing, the password check, JWT creation and the token lifetime
  are the parameters `encode`, `matches`, `createToken` and
  `expirationSeconds`. They are library code.
- The OpenAI HTTP exchange, its JSON types and the client setup are the
  parameter `send`. That call yields either the decoded body or an
  exception's message.
- Mapping JPA entities to domain objects and back is not modelled. Those
  are field copies. The exception is the fresh `ChatThread` object
  returned by `findLatestByUserId` and `save`, whose copy semantics matter
  to `resolveThread`.
- Pagination and sorting are not modelled. A page is a sequence of threads
  plus a total count, and listings return whole sequences.
  `getAllChatThreads` and the `getChatsByUser`/`getAllChats` wrappers only
  pass a page to the functions that are modelled.
- `OffsetDateTime` becomes whole minutes on one clock. "One day ago" is
  1440 minutes earlier. Time-zone offsets and sub-minute precision are not
  modelled.
- The report is a character string. Its UTF-8 byte encoding is not
  modelled, and the ISO-8601 formatting of `created_at` is the parameter
  `formatTime`. `ReportService.ReportReadsBack` assumes that the formatted
  time contains no comma, quote or line feed, which holds for ISO-8601 text.
- Transactions and concurrent requests are not modelled. Requests run one
  at a time, so the unlocked check-then-act in `resolveThread` cannot race.
- ChatThreadStore.FindLatest: the query's order among threads with equal
  last-activity times is unspecified. The model picks the first stored one.
  `ChatService.Resolve`, `ChatService.ResolveThread` and
  `ChatService.CreateChat` inherit that first-stored tie-break, so on a tie
  they fix a choice the source leaves open. `SameThreadWithinWindow` avoids
  ties through its precondition. `NewThreadAfterWindow` allows ties and
  holds on them, because every thread of the user has expired at the
  second question's time whichever one is picked.
- Chats.ChatsOfThread: history comes in store order, because the query has
  no ORDER BY. No chronological order is claimed.
- Cascade deletion of a thread's turns is not modelled, because the code
  never calls `deleteByThreadId`. `ChatsOfThread` of a deleted thread keeps
  its turns in the model.
- The feedback listing queries (`getFeedbacksByUser`, `getAllFeedbacks`) and
  their optional `isPositive` filter are not modelled. They only delegate to
  the persistence framework.
- `getActivityStats` is not modelled. It is three count queries over the
  one-day window.
- ChatService.SameThreadWithinWindow: requires every recorded activity of
  the user to lie strictly before the first question's time. That excludes
  any activity at or after that time, so it rules out a same-minute tie as
  well as a clock that runs backwards between requests.
- ChatService.NewThreadAfterWindow: requires every recorded activity of the
  user to lie at or before the first question's time. Activity at that very
  time, and so a tie, is allowed; a clock that runs backwards is not
  covered.
