# topperaimentor rules, in Dafny

topperaimentor is a study assistant: a React frontend and a Flask/sqlite backend around a remote
language model. Around that I/O sit small deterministic rules over strings, sequences and numbers.
This project models those rules and proves their properties:

- the three parsers that turn the model's prose into cards (deadline suggestions, learning
  recommendations, AI recommendations);
- the client-side list updates and colour/threshold bands;
- the backend text processing: tokeniser, stop words, n-grams, rule-based sentiment, Jaccard
  similarity, domain detection, fallback answers, chat statistics and the doubt resolver;
- the request validators: registration with its email pattern, login, profile update and
  password change;
- the user-record shaping and `UPDATE` statement building of the database layer;
- the deadline table's insert, mark-completed, upcoming query and reminder urgency;
- audio-file validation.

There is one module per source file:

| module | file |
|---|---|
| `DeadlinesView` | `deadlines_view.dfy` |
| `LearningView` | `learning_view.dfy` |
| `RecommendationView` | `recommendation_view.dfy` |
| `ProgressView` | `progress_view.dfy` |
| `DoubtResolverView` | `doubt_resolver_view.dfy` |
| `Nlp` | `nlp.dfy` |
| `Chatbot` | `chatbot.dfy` |
| `DeadlineTracker` | `deadline_tracker.dfy` |
| `DoubtService` | `doubt_service.dfy` |
| `RecommendationEngine` | `recommendation_engine.dfy` |
| `Auth` | `auth.dfy` |
| `Database` | `database.dfy` |
| `Voice` | `voice.dfy` |

Two shared modules support them:

- `Strings` holds character classes, JavaScript and Python whitespace, Python `lower()`, trim,
  split, join and substring tests.
- `Sorting` is a stable insertion sort by an integer key. It stands for JavaScript's
  `Array.prototype.sort` and for SQLite's `ORDER BY`.

Each source construct takes a matching Dafny form:

- A loop that builds a list or updates counters is a `method` with a `while`/`for` loop. It is
  proved equal to a specification function, and the properties are lemmas about that function.
- Pure expressions are functions.
- The deadline table is a `class` whose `rows` field the methods reassign.
- The doubt-resolver form is a `class` whose fields are the component's state variables.

Representations:

- Dates are integers: day numbers in the frontend, seconds in the backend. The current time is
  an input.
- JSON bodies are maps from field names to text.
- Database reads, password hashing and the language model's replies are inputs.

## Model

| member | source | states |
|---|---|---|
| DeadlinesView.ParseAISuggestions | frontend/src/components/Deadlines/Deadlines.js:192-219 | the loop over the non-blank lines computes the suggestions the line-by-line state machine yields, and returns at most 4 of them |
| DeadlinesView.Classify | frontend/src/components/Deadlines/Deadlines.js:196-210 | a header line's title is the trimmed line, is non-empty, and its type is the first matching keyword group (priority, time, risk, stress); a text line's content is the trimmed line and matches no group |
| DeadlinesView.CardsFollowHeaders | frontend/src/components/Deadlines/Deadlines.js:196-217 | the emitted cards correspond one to one, in order, to the header lines, with their titles and types; the 'general' placeholder is never emitted |
| DeadlinesView.CardsAreHeaders | frontend/src/components/Deadlines/Deadlines.js:192-217 | for any reply text, the cards are exactly the classified header lines of its non-blank lines, in order |
| DeadlinesView.LeadingLinesDropped | frontend/src/components/Deadlines/Deadlines.js:212-213 | text lines before the first header produce no card and leave the placeholder in place |
| DeadlinesView.HeaderThenBody | frontend/src/components/Deadlines/Deadlines.js:205-213 | after a header, the card's content is the trimmed non-empty text lines up to the next header, each followed by one space, and earlier cards are pushed unchanged |
| DeadlinesView.ToggleComplete | frontend/src/components/Deadlines/Deadlines.js:124-130 | same length and order; every field but `is_completed` kept; `is_completed` flips exactly on items with the id |
| DeadlinesView.ToggleTwice | frontend/src/components/Deadlines/Deadlines.js:124-130 | toggling the same id twice restores the list |
| DeadlinesView.DeleteDeadline | frontend/src/components/Deadlines/Deadlines.js:133-136 | unconfirmed: list unchanged; confirmed: an item remains iff it was there and has another id |
| DeadlinesView.WithoutIdMembers | frontend/src/components/Deadlines/Deadlines.js:134-136 | the kept items are exactly the items with another id |
| DeadlinesView.WithoutIdConcat | frontend/src/components/Deadlines/Deadlines.js:134-136 | removal works piecewise, so the kept items keep their relative order |
| DeadlinesView.WithoutIdKeepsOthers | frontend/src/components/Deadlines/Deadlines.js:134-136 | deleting an id that no item has changes nothing |
| DeadlinesView.FilterMembers | frontend/src/components/Deadlines/Deadlines.js:237-244 | an item is shown iff it is in the list and satisfies the selected filter |
| DeadlinesView.OneOfThreeFilters | frontend/src/components/Deadlines/Deadlines.js:238-244 | each deadline satisfies exactly one of upcoming, overdue and completed |
| DeadlinesView.FiltersPartition | frontend/src/components/Deadlines/Deadlines.js:238-244 | the three filtered lists' sizes add up to the list's size |
| DeadlinesView.OtherFiltersKeepAll | frontend/src/components/Deadlines/Deadlines.js:237-244 | 'all' and any unknown filter keep the whole list, in order |
| DeadlinesView.VisibleOrder | frontend/src/components/Deadlines/Deadlines.js:245-253 | the visible list is a permutation of the filtered list, ascending by date or high-before-medium-before-low by priority, unchanged for other sort keys |
| DeadlinesView.SameDayKeepsOrder | frontend/src/components/Deadlines/Deadlines.js:245-253 | sorting by date keeps same-day deadlines in their original order |
| DeadlinesView.UrgencyColor | frontend/src/components/Deadlines/Deadlines.js:229-235 | negative days red, 0..2 orange, 3..7 yellow, above 7 green |
| LearningView.ParseAIRecommendations | frontend/src/components/Learning/Learning.js:110-142 | the loop computes the cards of the line state machine and returns at most 6 |
| LearningView.ProcessLine | frontend/src/components/Learning/Learning.js:118-135 | one iteration of the loop body is one step of the state machine on the classified line |
| LearningView.ListNumberChars | frontend/src/components/Learning/Learning.js:124 | what is stripped from a header is a prefix of digits, dots and whitespace |
| LearningView.HeaderTitleKeepsKeyword | frontend/src/components/Learning/Learning.js:119-127 | a header's title still contains "recommendation" or "Recommendation", so it is never empty |
| LearningView.CardsFollowHeaders | frontend/src/components/Learning/Learning.js:118-139 | one card per header line, in order, titled by that header |
| LearningView.CardsAreHeaders | frontend/src/components/Learning/Learning.js:110-139 | for any reply, the card titles are the header titles of its non-blank lines, and every line with the keyword is a header |
| LearningView.EmittedKinds | frontend/src/components/Learning/Learning.js:123-131 | an emitted card's type is recommendation, skill or resource, never the placeholder's 'general' |
| LearningView.KindInvariant | frontend/src/components/Learning/Learning.js:123-131 | the invariant of the loop: pushed cards and a titled current card have an emitted type |
| LearningView.HeaderThenBody | frontend/src/components/Learning/Learning.js:118-135 | after a header, the card's description is the trimmed text lines each followed by a space, its type the last skill/resource line (skill checked first) or 'recommendation'; type lines never reach the description |
| LearningView.LeadingLinesDropped | frontend/src/components/Learning/Learning.js:132-134 | lines before the first header produce no card |
| LearningView.ProgressColor | frontend/src/components/Learning/Learning.js:144-148 | at least 0.8 green, at least 0.6 yellow, otherwise red |
| LearningView.ProgressColorMonotone | frontend/src/components/Learning/Learning.js:144-148 | a higher confidence never gets a worse colour |
| LearningView.DomainColors | frontend/src/components/Learning/Learning.js:16-153 | each listed domain gets its colour, any other value 'gray' |
| RecommendationView.UpdateInterestsFlips | frontend/src/components/RecommendationSystem/RecommendationSystem.js:199-205 | the id's membership flips and every other id keeps its membership |
| RecommendationView.ToggleAbsentTwice | frontend/src/components/RecommendationSystem/RecommendationSystem.js:200-204 | adding appends at the end, so toggling an absent id twice restores the list |
| RecommendationView.RemoveAllMembers | frontend/src/components/RecommendationSystem/RecommendationSystem.js:201 | the filter keeps exactly the other ids |
| RecommendationView.RemoveAllAbsent | frontend/src/components/RecommendationSystem/RecommendationSystem.js:201 | filtering out an absent id changes nothing |
| RecommendationView.RemoveAllAppend | frontend/src/components/RecommendationSystem/RecommendationSystem.js:201-203 | removing an id after appending it gives the list before the append, filtered |
| RecommendationView.SplitMarkersPieces | frontend/src/components/RecommendationSystem/RecommendationSystem.js:168 | no piece of the split by `/\d+\./` contains a list marker |
| RecommendationView.SplitMarkersRebuild | frontend/src/components/RecommendationSystem/RecommendationSystem.js:168 | the pieces interleaved with the removed markers (digits then '.') rebuild the text |
| RecommendationView.SectionYields | frontend/src/components/RecommendationSystem/RecommendationSystem.js:169-192 | every non-blank section yields a record |
| RecommendationView.RecordIds | frontend/src/components/RecommendationSystem/RecommendationSystem.js:168-183 | non-blank sections give one record each, with ids 1..n in section order |
| RecommendationView.ReplyIds | frontend/src/components/RecommendationSystem/RecommendationSystem.js:168-183 | for any reply, one record per non-blank section, ids 1..n |
| RecommendationView.RecordShape | frontend/src/components/RecommendationSystem/RecommendationSystem.js:174-192 | a record's title is the first line without leading bullets, or "Learning Recommendation k" when that is empty; description at most 203 characters; difficulty one of the four levels; type 'ai_generated', no topics, AI-generated |
| RecommendationView.ShortenBound | frontend/src/components/RecommendationSystem/RecommendationSystem.js:185 | a description up to 200 characters is kept; a longer one becomes its first 200 characters plus '...' |
| RecommendationView.LevelFromLeftmost | frontend/src/components/RecommendationSystem/RecommendationSystem.js:179 | the level found is the leftmost case-insensitive occurrence of a level word |
| RecommendationView.DifficultyFirstLevel | frontend/src/components/RecommendationSystem/RecommendationSystem.js:179-187 | the difficulty is the leftmost level word of the description, or 'intermediate' when there is none |
| RecommendationView.ParseAIRecommendations | frontend/src/components/RecommendationSystem/RecommendationSystem.js:167-197 | the loop over the sections computes the records of the non-blank sections and returns at most 6 |
| RecommendationView.DifficultyColor | frontend/src/components/RecommendationSystem/RecommendationSystem.js:207-215 | the four levels map to their colours, anything else to gray |
| RecommendationView.ParsedDifficultyColored | frontend/src/components/RecommendationSystem/RecommendationSystem.js:179-215 | a parsed difficulty never falls back to gray |
| ProgressView.GenerateAchievements | frontend/src/components/Progress/Progress.js:66-117 | the titles are the entries whose rule holds, in fixed order; every entry but Power User is earned, and Power User's progress is chats/50*100 |
| ProgressView.PushIf | frontend/src/components/Progress/Progress.js:69-114 | one conditional push: keeps the earlier entries and appends the k-th title exactly when its rule holds, keeping every entry but Power User earned |
| ProgressView.Entry | frontend/src/components/Progress/Progress.js:69-113 | the k-th entry has its title, is earned unless it is Power User, and Power User carries the progress |
| ProgressView.AchievementRules | frontend/src/components/Progress/Progress.js:66-116 | at most five entries; each present exactly when its threshold holds (10 chats, 0.8 confidence, 3 domains, 5 positive interactions, fewer than 50 chats) |
| ProgressView.CalculateTrends | frontend/src/components/Progress/Progress.js:119-126 | confidence up at 0.7, stable from 0.5, else down; activity up iff 10 chats; domains up iff 2 domains |
| ProgressView.TrendsMonotone | frontend/src/components/Progress/Progress.js:119-126 | more confidence, chats or domains never lower a trend |
| ProgressView.ProgressPercentage | frontend/src/components/Progress/Progress.js:176-178 | never above 100; exactly 100 when current is at least a positive target; non-negative for non-negative current |
| ProgressView.ProgressPercentageMonotone | frontend/src/components/Progress/Progress.js:176-178 | monotone in current, and current/target*100 below the target |
| ProgressView.TrendIcon | frontend/src/components/Progress/Progress.js:180-186 | up and down map to their icons, any other value to the neutral arrow |
| ProgressView.GrowthNeverFalls | frontend/src/components/Progress/Progress.js:123-186 | activity and domain trends never show the falling icon |
| DoubtResolverView.DoubtForm.constructor | frontend/src/components/DoubtResolver/DoubtResolver.js:6-40 | empty form, domain 'general', not loading, no resolution, the two sample recent doubts |
| DoubtResolverView.DoubtForm.ResolveDoubt | frontend/src/components/DoubtResolver/DoubtResolver.js:42-112 | a blank doubt changes nothing; an ok reply sets the resolution, pushes the new resolved entry onto the recent list and clears doubt and context; a failed reply keeps the form; loading always ends false |
| DoubtResolverView.PushRecent | frontend/src/components/DoubtResolver/DoubtResolver.js:92-101 | the new entry first, length min(n+1, 5) |
| DoubtResolverView.PushRecentKeeps | frontend/src/components/DoubtResolver/DoubtResolver.js:92-101 | the rest of the list is the first four previous entries |
| DoubtResolverView.PushAllNewest | frontend/src/components/DoubtResolver/DoubtResolver.js:92-101 | after any number of submissions the list holds the five newest entries, newest first |
| DoubtResolverView.MakeResolution | frontend/src/components/DoubtResolver/DoubtResolver.js:78-87 | the resolution echoes question, domain and context; confidence, suggestions and resources default when absent |
| DoubtResolverView.DefaultConfidence | frontend/src/components/DoubtResolver/DoubtResolver.js:84-86 | a reply without them gets confidence 0.9 and no suggestions or resources |
| DoubtResolverView.DomainColors | frontend/src/components/DoubtResolver/DoubtResolver.js:13-117 | listed domains get their colour, unknown ones 'gray' |
| Nlp.CleanTextIsClean | backend/algorithms/nlp_algorithms.py:20-24 | the cleaned text is lower-case letters separated by single spaces, without leading or trailing space, and cleaning is idempotent |
| Nlp.TokenizeJoins | backend/algorithms/nlp_algorithms.py:26-28 | tokens are non-empty lower-case words whose single-space join is the cleaned text |
| Nlp.WordsOfJoin | backend/algorithms/nlp_algorithms.py:24-28 | splitting a single-space join of words gives the words back |
| Nlp.RemoveStopWordsMembers | backend/algorithms/nlp_algorithms.py:13-31 | a token is kept iff it is not a stop word |
| Nlp.RemoveStopWordsAppend | backend/algorithms/nlp_algorithms.py:30-31 | filtering works piecewise, so order is preserved |
| Nlp.RemoveStopWordsIdempotent | backend/algorithms/nlp_algorithms.py:30-31 | filtering twice equals filtering once |
| Nlp.GetNGrams | backend/algorithms/nlp_algorithms.py:33-42 | no n-grams when there are fewer tokens than n; otherwise len-n+1 windows, the i-th equal to tokens[i:i+n] |
| Nlp.AnalyzeSentiment | backend/algorithms/nlp_algorithms.py:197-257 | the loop over the tokens computes the verdict of the scanning state machine |
| Nlp.Verdict | backend/algorithms/nlp_algorithms.py:237-250 | no scores give neutral 0.0; positive iff the positive score is larger; ties are negative; a non-neutral confidence lies in [0.5, 1] |
| Nlp.NoSentimentWordsNeutral | backend/algorithms/nlp_algorithms.py:239-240 | text without sentiment words is neutral with confidence 0.0 |
| Nlp.NegationFlips | backend/algorithms/nlp_algorithms.py:206-234 | a negation flips the polarity of the next sentiment word, and repeated negations do not cancel |
| Nlp.ModifiersPersistAndReset | backend/algorithms/nlp_algorithms.py:206-234 | neutral words leave negation and intensifier in place; a sentiment word resets them |
| Nlp.ScoresCount | backend/algorithms/nlp_algorithms.py:206-234 | the boost is always 1.0 or 1.5 (2 or 3 halves), and the scores are bounded by the token count |
| Nlp.SetJaccardProperties | backend/algorithms/nlp_algorithms.py:266-281 | the set ratio lies in [0, 1], is symmetric, and is 1 for equal non-empty sets |
| Nlp.JaccardProperties | backend/algorithms/nlp_algorithms.py:266-281 | similarity lies in [0, 1], is symmetric, is 0 when neither text has a term, and is 1 for texts with the same non-empty terms |
| Chatbot.DetectDomain | backend/services/ai_chatbot.py:42-56 | the loop with early return computes the first context, in table order, with a keyword in the lower-cased message |
| Chatbot.DomainOfFirstMatch | backend/services/ai_chatbot.py:23-56 | the domain is one of the four; data_science iff one of its keywords occurs; app_development iff none of data_science's does and one of its own does; likewise cyber_security; otherwise general |
| Chatbot.ChooseDomain | backend/services/ai_chatbot.py:79-80 | a missing, empty or 'auto' domain is detected from the message, any other is kept |
| Chatbot.Respond | backend/services/ai_chatbot.py:191-211 | a non-generic answer is the text of the first pattern present in the lower-cased message, with confidence 0.7 and the domain's suggestions and resources; no match gives the generic answer |
| Chatbot.RespondConfidence | backend/services/ai_chatbot.py:191-211 | confidence is 0.7 exactly when some pattern matches |
| Chatbot.FirstPatternLeftmost | backend/services/ai_chatbot.py:194-195 | no pattern is found iff none occurs; the one found is the first that occurs |
| Chatbot.PatternsOnlyForKnownDomains | backend/services/ai_chatbot.py:167-191 | only the three named domains have patterns |
| Chatbot.FallbackWithoutPatterns | backend/services/ai_chatbot.py:191-211 | general and unknown domains always get the generic answer |
| Chatbot.ExtractSuggestions | backend/services/ai_chatbot.py:213-225 | the appends compute the fixed-order pick of the three suggestions, at most 3 |
| Chatbot.SuggestionsByKeyword | backend/services/ai_chatbot.py:213-225 | each suggestion is present exactly when its keyword occurs case-insensitively |
| Chatbot.ExtractResources | backend/services/ai_chatbot.py:227-236 | always two resources |
| Chatbot.ResourcesByDomain | backend/services/ai_chatbot.py:227-236 | the first two of the domain's resources, or of general for other domains |
| Chatbot.GetChatStatistics | backend/services/ai_chatbot.py:238-263 | an empty history, or one holding a NULL confidence (the sum raises and the handler answers), gives zeros and no domains; otherwise the total, per-domain counts keyed in insertion order, the average confidence with 0.8 for a missing score, and the most active domain |
| Chatbot.CountsSumToTotal | backend/services/ai_chatbot.py:249-255 | the per-domain counts add up to the number of chats |
| Chatbot.OccursIffFirst | backend/services/ai_chatbot.py:250-251 | a domain is a key iff it occurs in the history, and keys are distinct |
| Chatbot.CountAbsent | backend/services/ai_chatbot.py:250-251 | a domain that is not a key has count 0 |
| Chatbot.MostActive | backend/services/ai_chatbot.py:258 | the most active domain is one of the keys |
| Chatbot.MostActiveIsFirstMaximum | backend/services/ai_chatbot.py:258 | it has the maximal count, and every earlier key has a smaller count (the first inserted wins ties) |
| DeadlineTracker.DeadlineTable.constructor | backend/services/deadline_tracker.py:7-8 | an empty table whose ids start at 1 |
| DeadlineTracker.DeadlineTable.AddDeadline | backend/services/deadline_tracker.py:10-28 | exactly one row appended, with the given fields, priority defaulting to 'medium' and category to 'assignment', status 'pending', and a fresh id that is returned |
| DeadlineTracker.DeadlineTable.MarkCompleted | backend/services/deadline_tracker.py:53-71 | the rows become the completed table; the result is true iff a row matches both id and user |
| DeadlineTracker.CompletedChangesOnlyMatches | backend/services/deadline_tracker.py:61-65 | only matching rows change, and only their status, to 'completed' |
| DeadlineTracker.CompletedIdempotent | backend/services/deadline_tracker.py:61-65 | marking the same deadline twice equals marking it once |
| DeadlineTracker.CompletedAtMostOne | backend/services/deadline_tracker.py:61-65 | with distinct ids, at most one row changes |
| DeadlineTracker.DeadlineTable.GetUpcomingDeadlines | backend/services/deadline_tracker.py:30-51 | the result is the query's answer over the table |
| DeadlineTracker.UpcomingIsSortedSelection | backend/services/deadline_tracker.py:41-46 | ascending by due date, a permutation of the selection, and containing exactly the user's unfinished rows due by the end |
| DeadlineTracker.SelectedMembers | backend/services/deadline_tracker.py:44 | a row is selected iff it belongs to the user, is due by the end and is not completed |
| DeadlineTracker.CompletedNotUpcoming | backend/services/deadline_tracker.py:44-65 | a deadline just marked completed is no longer upcoming |
| DeadlineTracker.Urgency | backend/services/deadline_tracker.py:83-88 | urgent iff at most 1 day and high priority; important iff at most 2 days otherwise; normal iff more than 2 days |
| DeadlineTracker.DaysRemaining | backend/services/deadline_tracker.py:81 | whole days remaining, rounded down as `timedelta.days` does |
| DeadlineTracker.DeadlineTable.GetDeadlineReminders | backend/services/deadline_tracker.py:73-99 | the loop computes the reminders of the deadlines due within 3 days |
| DeadlineTracker.RemindersFollowDeadlines | backend/services/deadline_tracker.py:78-97 | one reminder per upcoming deadline, in order, copying id, title, due date and category |
| DeadlineTracker.RemindersWithinWindow | backend/services/deadline_tracker.py:76-88 | every reminder is at most 3 days away, and an urgent one at most 1 |
| DoubtService.ResolveDoubt | backend/services/doubt_resolver.py:10-44 | the answer echoes doubt and context, with confidence 0.7, three resources, and a resolution that starts with the thank-you sentence quoting the doubt |
| DoubtService.AdviceCascade | backend/services/doubt_resolver.py:19-28 | the advice is chosen by first match: error or bug, algorithm, function, database, else generic |
| DoubtService.AdviceIgnoresCase | backend/services/doubt_resolver.py:17-20 | a doubt holding "error" or "bug" in any mix of cases gets the debugging advice |
| DoubtService.ResolutionParts | backend/services/doubt_resolver.py:14-31 | the resolution is the opening, then exactly one advice sentence, then the context note |
| DoubtService.ContextNoteQuotes | backend/services/doubt_resolver.py:30-31 | the note is present iff there is a context; it quotes at most its first 100 characters followed by '...' |
| RecommendationEngine.GetRecommendations | backend/services/recommendation_engine.py:81-88 | domain and user are echoed; two entries; an unknown domain gets the general entries |
| RecommendationEngine.KnownDomains | backend/services/recommendation_engine.py:14-81 | each known domain gets its own table entries, a tutorial then a course |
| Auth.Register | backend/routes/auth_routes.py:12-68 | the loop over the required fields and the checks, with the email regex as written, compute the registration outcome |
| Auth.FirstMissing | backend/routes/auth_routes.py:17-20 | the field reported is required and not given; none is reported iff all are given |
| Auth.FirstMissingIsFirst | backend/routes/auth_routes.py:17-20 | the field reported is the first one not given |
| Auth.RegisterReportsFirstMissing | backend/routes/auth_routes.py:17-20 | registration fails with "<field> is required" for the first field missing or empty, in the order email, password, full_name, student_id |
| Auth.RegisterAccepts | backend/routes/auth_routes.py:17-68 | a user is created iff all fields are given, the email passes the regex as `re.match` applies it, the password has at least 6 characters and the email is not registered |
| Auth.RegisterCheckOrder | backend/routes/auth_routes.py:29-35 | the email format is checked before the password length |
| Auth.RegisterEmailCheck | backend/routes/auth_routes.py:29-31 | for an email with no final newline the format check is the whole-string pattern; "a@b.co\n" with a valid password and a new address is registered |
| Auth.IsEmailCorrect | backend/routes/auth_routes.py:30-31 | the recogniser accepts exactly the strings the email pattern describes |
| Auth.EmailShape | backend/routes/auth_routes.py:30 | an accepted email has exactly one '@', not first, and ends with '.' and at least 2 ASCII letters |
| Auth.TrailingNewlineAccepted | backend/routes/auth_routes.py:30 | the regex as written accepts "a@b.co\n", which the whole-string pattern rejects |
| Auth.RegexMatchWithoutNewline | backend/routes/auth_routes.py:30 | without a final newline the regex and the recogniser agree |
| Auth.Login | backend/routes/auth_routes.py:79-93 | 400 when email or password is missing; logged in iff the user exists and the hash matches, with that user's id; every 401 says "Invalid email or password" |
| Auth.LoginHidesWhichFailed | backend/routes/auth_routes.py:88-93 | an unknown user and a wrong password get the same answer |
| Auth.UpdateProfile | backend/routes/auth_routes.py:158-167 | the loop keeps only full_name, course and semester; a body with none of them is rejected with 400 |
| Auth.WhitelistKeeps | backend/routes/auth_routes.py:158-163 | the update data holds exactly the present updatable fields with their values, each once |
| Auth.UpdateProfileRejects | backend/routes/auth_routes.py:158-167 | rejection happens iff none of the three fields is present |
| Auth.ProfileOutcome | backend/routes/auth_routes.py:166-178 | success iff there was update data and the update succeeded; a failed update answers 500 |
| Auth.ChangePassword | backend/routes/auth_routes.py:188-220 | done iff both passwords are given, the new one has at least 6 characters, the user exists, the current password matches and the update succeeds; a short new password answers 400 |
| Database.SplitName | backend/models/database.py:303-305 | first name has no space; no space gives the whole name and an empty last name; otherwise first + ' ' + last is the name |
| Database.NameRoundTrip | backend/models/database.py:291-305 | a name with a space reads back as written; a one-word name gains a trailing space |
| Database.SplitJoinName | backend/models/database.py:291-305 | splitting a joined name whose first part has no space gives the parts back |
| Database.ShapeUser | backend/models/database.py:283-295 | no row gives no user; otherwise fields copied, semester equals year, a missing course becomes '' |
| Database.CreatedUserReadsBack | backend/models/database.py:287-316 | a created user reads back with its email, hash, student id, course and semester, and its full name as the name round trip says |
| Database.BuildUpdate | backend/models/database.py:318-346 | the loop builds the statement of the assignments, or none without data |
| Database.AssignMeaning | backend/models/database.py:327-338 | full_name becomes first_name and last_name clauses rebuilding the name, semester becomes year, any other field its own clause |
| Database.AssignmentsOfEntries | backend/models/database.py:327-338 | the assignments are exactly those of the entries |
| Database.UpdateNeedsData | backend/models/database.py:340-341 | no statement iff the update data is empty |
| Database.QueryPlaceholders | backend/models/database.py:343-344 | the query has one '?' per clause plus one for the id |
| Database.QueryEnd | backend/models/database.py:343-344 | the updated_at clause is last, followed by the id condition |
| Database.UpdatePlaceholders | backend/models/database.py:343-346 | '?' count equals the number of parameters; the user id is the last parameter; updated_at is the last clause |
| Database.DeadlinesQueryShape | backend/models/database.py:374-388 | the upcoming filter follows the selection exactly when upcoming_only is set; the query always ends ordering by due date ascending |
| Voice.ValidateAudioFile | backend/services/voice_service.py:97-116 | a missing file is rejected; valid iff the file exists, its lower-cased extension is wav, mp3 or flac, and its size is at most 10 MiB; a valid result carries size and format |
| Voice.ValidationOrder | backend/services/voice_service.py:100-114 | existence is checked before format, and format before size |
| Voice.LastPieceAfterLastDot | backend/services/voice_service.py:103 | the extension is the text after the last '.', or the whole path without a dot |
| Voice.SizeLimitInclusive | backend/services/voice_service.py:110-114 | exactly 10 MiB passes, one byte more fails |
| Voice.UpperCaseExtension | backend/services/voice_service.py:103-108 | an upper-case extension is accepted and reported in lower case |
| Voice.TranscribeAudio | backend/services/voice_service.py:13-33 | a missing file fails with empty transcription and confidence 0.0; an existing one succeeds and names its file |
| Sorting.SortSortsAndPermutes | frontend/src/components/Deadlines/Deadlines.js:245-253 | sorting by key orders ascending and permutes |
| Sorting.SortStable | frontend/src/components/Deadlines/Deadlines.js:245-253 | items with equal keys keep their order |
| Strings.SplitJoin | frontend/src/components/Deadlines/Deadlines.js:193 | no piece of a one-character split holds the separator, and joining the pieces with it gives the text back |
| Strings.SplitLast | backend/services/voice_service.py:103 | the last piece of a split is the whole text when it has no separator, and otherwise the text after the last separator |
| Strings.Trim | frontend/src/components/Deadlines/Deadlines.js:199 | the result is a slice of the text with only whitespace before and after it; it is empty exactly for blank text, and otherwise starts and ends with a non-space |

## Left out

- Network and model calls (`fetch`, the Gemini client), tokens, Flask routing, JWT and CORS are
  not modelled. The model's replies, database reads and the hash check are inputs.
- The database is not executed. The deadline table lives in memory; `Database` produces the SQL
  text and parameters without running them.
- Unexpected failures that answer 500 from an `except` block are not modelled, nor are `print`
  logs.
- Floating point: confidences and percentages are exact reals, and sentiment weights 1.0/1.5 are
  the integers 2/3.
- The naive Bayes classifier, TF-IDF, cosine similarity and all of `ml_algorithms.py` are not part
  of this model: they are floating-point numerics built on `log` and `sqrt`.
- JavaScript strings are UTF-16 and Python strings are code points. Both are sequences of `char`
  here, and lengths (`slice(0, 200)`, `context[:100]`) count `char`s.
- Python `lower()` is modelled for ASCII and for the two non-ASCII characters whose lower case
  contains ASCII letters. Other characters are left unchanged, which is exact for every keyword
  test in the code.
- RecommendationView.ParseAIRecommendations: the time and reason regexes are function parameters,
  not interpreted.
- Wall-clock dates: `getDaysUntil` and `datetime.now()`/`strptime` become integer inputs (days in
  the frontend, seconds in the backend).
- DeadlineTracker.DeadlineTable.GetUpcomingDeadlines: SQLite gives no order for rows with equal
  due dates. The model keeps them in insertion order.
- DeadlineTracker.DeadlineTable.AddDeadline: `created_at`/`updated_at` timestamps are not
  modelled.
- ProgressView.GenerateAchievements: states the titles, `earned` flags and Power User's
  progress, but not the descriptions and icons.
- ProgressView.PushIf: states that earlier entries are kept and the title, `earned` flag and
  progress of the appended entry, but not its description and icon.
- Chatbot.GetChatStatistics: a missing `domain` key is `None`. A stored null domain is not
  distinguished from a missing one.
- DeadlinesView.VisibleOrder: a priority outside high/medium/low ranks 0, below low. In JavaScript
  the comparator then returns `NaN` and the order is left to the engine. The select options only
  offer the three known priorities.
- Auth.ChangePassword: takes the stored hash as an input, but `get_user_by_id`
  (backend/models/database.py:215-219) does not select `password_hash`. How the routes and the
  database layer connect is not modelled.
- Database.CreatedUserReadsBack: only the second `create_user` (backend/models/database.py:297)
  is modelled. The first one (backend/models/database.py:175) is shadowed by it.
- Database.BuildUpdate: values are text, so a semester sent as a number is passed as text.
- Voice: `process_voice_query` and `get_voice_history` are not modelled (I/O, plus the chatbot
  call). The mock transcription's text and timing are constants.
- Whether the audio file exists and its size are inputs.
- JSX rendering and CSS classes beyond the colour functions, prompt templates, and the pure UI
  files are not modelled.

## Findings

| source | as written | input that shows it | evidently intended | confidence | as-written member | corrected member |
|---|---|---|---|---|---|---|
| backend/routes/auth_routes.py:30 | `re.match` with a pattern ending in `$`, which also matches before a final newline | `"a@b.co\n"` is accepted as an email | the whole string is an address | not executed | Auth.TrailingNewlineAccepted | Auth.IsEmailCorrect |
