# To-Do dashboard: account server and client task pages

This project models two parts of a to-do dashboard application.

The first is the account logic of its Express server (`appointment-scheduler/server.js`). It covers:
- the CORS origin test;
- bearer-token authentication;
- registration, with its validation order and duplicate check;
- login;
- the password-reset request;
- profile read and update.

The MySQL `users` table is a sequence of rows held by a `UserTable` object. Each route becomes a method whose contract is given by a pure outcome function (status, reply, new table). Lemmas then state what the routes promise about those functions.

The second part is the React components of the dashboard:
- the live-chat responder and window;
- the vital-task, my-task and dashboard pages;
- the task-category settings;
- the help page's search;
- the add and edit dialogs;
- the settings page;
- the invitation dialog.

Each component's `useState` variables are the fields of a class. Each event handler is a method that reassigns those fields. Derived lists (`filteredTasks`, `todoTasks`, `filteredFaqs`), the selection effects and the checks made before a callback fires are pure functions. Lemmas relate those functions to the handlers.

Shared modules hold the JavaScript built-ins:
- `Options`: `null`/`undefined` and `a || b` on strings;
- `Text`: `trim`, `toLowerCase`, `includes`, `split` and `join` on strings;
- `Lists`: `filter`, `map`, `find` and `some` on arrays, keyed by an id.

## Model

| member | source | states |
|---|---|---|
| Cors.SomeAdmits | appointment-scheduler/server.js:24-30 | an origin is admitted iff one entry of the allow list admits it: an exact match, or the `.vercel.app` suffix |
| Cors.OriginAllowed | appointment-scheduler/server.js:14-31 | a missing or empty origin is allowed; any other origin is allowed iff it equals FRONTEND_URL or a localhost URL (port 3000 or 3001), or ends in `.vercel.app` |
| Sessions.Sign | appointment-scheduler/server.js:318-322 | the signed token carries exactly the user's id and email, and expires 24 hours after it is issued |
| Sessions.Verify | appointment-scheduler/server.js:191-197 | verification succeeds iff the token decodes and its expiry second has not been reached, and then gives back the signed claims |
| Sessions.SignedTokenLifetime | appointment-scheduler/server.js:318-322 | a signed token verifies with its claims for 86399 seconds after signing and fails from 86400 seconds on |
| Sessions.BearerToken | appointment-scheduler/server.js:185 | no header gives no token, an empty header is passed on as the token '', and otherwise the token is the text between the first space and the next one, absent when there is no space |
| Sessions.Authenticate | appointment-scheduler/server.js:183-199 | no token gives 401, a token that does not verify gives 403, and a verified token gives its claims to the route |
| Sessions.EmptyHeaderIsNotMissing | appointment-scheduler/server.js:184-193 | an empty Authorization header is not a missing token: it is rejected with 403 instead of 401 |
| Users.Hash | appointment-scheduler/server.js:252 | the digest has the route's cost factor, and the password is accepted against its own hash |
| Users.Compare | appointment-scheduler/server.js:312 | `bcrypt.compare`: true exactly when the digest was made from this password |
| Users.ValidEmailMatches | appointment-scheduler/server.js:242-245 | an address with one '@' and something before it, no white space, and a '.' inside its domain that is neither its first nor its last character matches the regular expression |
| Users.MatchIsValidEmail | appointment-scheduler/server.js:242-245 | conversely, every match of the regular expression has that shape |
| Users.ValidEmailIffPattern | appointment-scheduler/server.js:242-245 | the email test is exactly the anchored pattern `^[^\s@]+@[^\s@]+\.[^\s@]+$`, in both directions |
| Users.ValidEmail | appointment-scheduler/server.js:242-245 | the email test as a scan: one `@` with a non-empty local part, no white space or second `@`, and a dot inside the domain |
| Users.EmailPattern | appointment-scheduler/server.js:242 | what `^[^\s@]+@[^\s@]+\.[^\s@]+$` matches: three non-empty runs without white space or `@`, separated by `@` and a dot |
| Users.FormComplete | appointment-scheduler/server.js:238 | first name, last name, username and email are present and not blank once trimmed, and the password is present and non-empty |
| Users.ValidEmailIsTrimmed | appointment-scheduler/server.js:242-245 | an address that passes has no outer white space, so trimming it changes nothing |
| Users.RegistrationError | appointment-scheduler/server.js:238-249 | the three 400 checks in their order: a blank field or empty password, then a malformed email, then a password shorter than 6 UTF-16 code units |
| Text.Utf16Length | appointment-scheduler/server.js:247 | JavaScript's `length` of a string: at least its number of characters and at most twice it, and equal to it iff every character lies in the Basic Multilingual Plane |
| Text.ThreeEmoji | appointment-scheduler/server.js:247 | three emoji are three characters but six UTF-16 code units |
| Text.IsSpace | appointment-scheduler/server.js:242 | `\s`, and what `trim` strips: the ECMAScript WhiteSpace and LineTerminator characters |
| Text.Trim | appointment-scheduler/server.js:238 | `trim`: no longer than the input, and neither starting nor ending with white space |
| Text.TrimIsSlice | appointment-scheduler/server.js:267-270 | the trimmed string is a slice of the input with only white space cut on either side |
| Text.BlankIffAllSpace | appointment-scheduler/server.js:238 | `!s.trim()` holds exactly when every character is white space |
| Text.Lower | appointment-scheduler/server.js:253 | `toLowerCase`: the same length, each character mapped on its own, ASCII capitals to small letters |
| Text.Split | appointment-scheduler/server.js:424 | `split` on one character: at least one piece, none containing the separator |
| Text.JoinSplit | appointment-scheduler/server.js:424-425 | joining the pieces of a split with the same separator gives the original string |
| Users.AstralPasswordAccepted | appointment-scheduler/server.js:238-249 | a password of three emoji, three characters long, passes every check of register |
| Users.DuplicateMessage | appointment-scheduler/server.js:253-262 | the 400 message names the email when the first clashing row has that email, and the username otherwise |
| Users.NewAccount | appointment-scheduler/server.js:264-275 | the inserted row has the first and last names trimmed, a lower-cased trimmed username and email, role 'User', empty location and avatar, and the hashed password |
| Users.RegisterOutcome | appointment-scheduler/server.js:238-282 | with the database up, register answers 201, 400 or 500 with a message; 201 iff the checks pass and no row clashes with the lower-cased or the trimmed values; 201 appends exactly the new row, anything else leaves the table unchanged |
| Users.RegisterReplies | appointment-scheduler/server.js:238-282 | a failed check is a 400 with that check's message; past the checks, a clash with the lower-cased email or username is a 400 with the duplicate message; a 500 says registration failed and a 201 that it succeeded; neither 400 changes the table |
| Users.CounterGapKeepsConsistent | appointment-scheduler/server.js:264-276 | an AUTO_INCREMENT value taken by a refused INSERT keeps ids, emails and usernames unique |
| Users.RegisterKeepsConsistent | appointment-scheduler/server.js:116-129 | no successful registration breaks the uniqueness of ids, usernames and emails |
| Users.RegisterAccepted | appointment-scheduler/server.js:264-278 | a 201 means every check passed, the password having at least 6 UTF-16 code units; the table grows by the new row with the old rows untouched, and no old row shares its email or username |
| Users.RegisterRefusesDuplicate | appointment-scheduler/server.js:253-262 | a form whose lower-cased email or username equals a stored one gives 400 and leaves the table unchanged; the message names the email iff the first clashing row, at or before that one, has that email |
| Users.DuplicateAt | appointment-scheduler/server.js:253-262 | a clashing row at `i` means the first clashing row is at or before `i` and decides between the two messages |
| Users.RegisterTrimClash | appointment-scheduler/server.js:253-270 | under exact comparison, a padded username passes the duplicate check but its trimmed form clashes with a stored username, giving 500 |
| Users.RegisterPaddedUsername | appointment-scheduler/server.js:253-282 | such a registration fails the UNIQUE constraint and ends in 500, with the table unchanged |
| Users.RegisterFresh | appointment-scheduler/server.js:253-278 | a form that passes the checks, has no outer white space and clashes with no row is accepted with 201 |
| Users.LoginRow | appointment-scheduler/server.js:299-309 | the row login uses is the first one whose username or email equals the lower-cased, trimmed identifier |
| Users.Touch | appointment-scheduler/server.js:324-328 | updating `updated_at` changes only that column of the row with that id |
| Users.LoginOutcome | appointment-scheduler/server.js:294-340 | with the database up, login answers 200 or 400; a 400 leaves the table unchanged, and otherwise at most `updated_at` of a row changes |
| Users.LoginKeepsConsistent | appointment-scheduler/server.js:324-328 | a login never breaks the table's uniqueness |
| Users.LoginFailuresAlike | appointment-scheduler/server.js:299-316 | an unknown identifier and a wrong password give the same 400 reply, and neither changes the table |
| Users.LoginSucceeds | appointment-scheduler/server.js:318-340 | a matching password gives 200, a token for {id, email}, the joined name, role and avatar, and no password |
| Users.LoginAfterRegister | appointment-scheduler/server.js:299-316 | right after registering, logging in with the new email and password succeeds with a token for the new id, provided no older row has that email as its username |
| Users.LoginShadowed | appointment-scheduler/server.js:299-316 | an older row whose username equals a newer row's email is found first, so the newer row cannot log in with its email |
| Users.LoginAfterRegisterMissed | appointment-scheduler/server.js:299-316 | a concrete table where a freshly registered user's email login lands on an older row and fails |
| Users.ShadowedByOlderUsername | appointment-scheduler/server.js:253-309 | with one older account whose username is the new email, a fresh form registers with 201, and login with that email and a password not matching the older account gives 400 |
| Users.SetReset | appointment-scheduler/server.js:370-373 | the UPDATE sets the token, an expiry one hour on and `updated_at` of the found row's id, and leaves every other row as it was |
| Users.ForgotOutcome | appointment-scheduler/server.js:353-397 | forgot-password gives 400 on a blank email, 200 with the generic message and no change for an unknown email, and the generic 200 whenever the mail does not fail |
| Users.ForgotSetsToken | appointment-scheduler/server.js:358-397 | for a known email that row alone gets the token and an expiry one hour later, the reply is 500 if the mail fails and 200 otherwise, and the table stays consistent |
| Users.ForgotIndependentOfMail | appointment-scheduler/server.js:370-397 | the stored token is the same whether sending the mail fails (500) or not (200) |
| Users.ProfileReply | appointment-scheduler/server.js:404-415 | GET profile gives 404 iff no row has the token's id, and otherwise 200 with the first such row's id, first and last name joined by a space, email, role, location and avatar |
| Users.SplitName | appointment-scheduler/server.js:424-425 | the first name is the text before the first space and the last name the rest after it, so they join back to the name when it holds a space |
| Users.ApplyProfile | appointment-scheduler/server.js:427-428 | the UPDATE changes only the names, email, role, location and avatar of that id's row; missing role, location and avatar become '' |
| Users.ProfileUpdateOutcome | appointment-scheduler/server.js:423-433 | PUT profile changes only rows with the token's id and keeps the table's length; a missing name gives no reply; the 200 comes iff name and email are given and the update does not clash, i.e. not (some row has the id and another row has the email); then every row with the id holds the split name, the email, role, location and avatar defaulting to '' |
| Users.UpdateOfAbsentId | appointment-scheduler/server.js:426-429 | an update for an id with no row answers 200 and leaves the table as it was, whatever email it sends |
| Users.ProfileRoundTrip | appointment-scheduler/server.js:407-428 | GET after a 200 PUT gives the same name when it contains a space and `name + " "` when it does not, and the email, role, location and avatar as sent, with '' for a missing one |
| Users.ProfileUpdateKeepsConsistent | appointment-scheduler/server.js:427-428 | an accepted profile update never breaks the table's uniqueness |
| Users.AuthReply | appointment-scheduler/server.js:187-194 | a refused request gets 401 without a token, 403 with a bad one |
| Users.UserTable.constructor | appointment-scheduler/server.js:116-129 | the table starts empty and consistent, with the database up or down as given |
| Users.UserTable.Register | appointment-scheduler/server.js:231-283 | with the database down the reply is 503 and nothing changes; otherwise the reply and the new table are those of the register outcome, and the AUTO_INCREMENT counter advances on 201 and on the refused INSERT's 500; consistency is kept |
| Users.UserTable.Login | appointment-scheduler/server.js:285-345 | with the database down the reply is 503 and nothing changes; otherwise the reply and the new table are those of the login outcome at the given instant |
| Users.UserTable.ForgotPassword | appointment-scheduler/server.js:347-399 | with the database down the reply is 503 and nothing changes; otherwise the reply and the new table are those of the forgot-password outcome for the given token, instant and mail result |
| Users.UserTable.GetProfile | appointment-scheduler/server.js:401-416 | a refused request gets the 401/403 reply, a database that is down gives 503, and otherwise the reply is the profile reply for the token's id |
| Users.UserTable.UpdateProfile | appointment-scheduler/server.js:418-434 | the reply and the new table are those of the profile-update outcome, or the refusal with no change |
| LiveChat.NamedTopic | src/components/LiveChatModal.js:47-59 | the topic a message names and its reply: password iff it mentions password or reset; tasks iff not that and it mentions task; billing iff neither and it mentions billing or invoice; none otherwise |
| LiveChat.BotResponse | src/components/LiveChatModal.js:28-86 | the reply and new topic as the code runs them, the closing fallback test overwriting the switch; the topic stays within null, 'password', 'tasks', 'billing' whenever the current one does, and is either kept or one of those |
| LiveChat.ThanksWins | src/components/LiveChatModal.js:29-35 | a message with "thanks" or "thank you", in any case, gets the thank-you reply and clears the topic, whatever the topic was |
| LiveChat.YesKeepsTopic | src/components/LiveChatModal.js:39-41 | a "yes" reaching its test keeps the current topic |
| LiveChat.NoClearsTopic | src/components/LiveChatModal.js:42-44 | a "no" reaching its test clears the topic |
| LiveChat.SubstringSurprises | src/components/LiveChatModal.js:36-44 | the tests are substring tests: "this" gets the greeting and "know" clears the topic |
| LiveChat.HelloClearsTopic | src/components/LiveChatModal.js:33-38 | a message with "hello" or "hi" and without "thanks" or "thank you" gets the greeting and clears the topic, whatever the topic was |
| LiveChat.Mentions | src/components/LiveChatModal.js:33-36 | the lower-cased message includes either of two words, the shape of each keyword test |
| LiveChat.NoKeywordReply | src/components/LiveChatModal.js:61-83 | without keywords: no topic, tasks and password get the fallback and clear the topic, as the closing test overwrites their follow-ups; billing keeps the topic with an undefined reply |
| LiveChat.FollowUpsNeverShown | src/components/LiveChatModal.js:61-83 | the follow-up texts of the tasks and password topics are never the reply, whatever the message and topic |
| LiveChat.KeywordSetsTopic | src/components/LiveChatModal.js:47-59 | a topic keyword answers with that topic's text and sets the topic it names, replacing the current one |
| LiveChat.ChatSession.constructor | src/components/LiveChatModal.js:89-92 | the window starts with the welcome message, no topic, an empty draft and no typing |
| LiveChat.ChatSession.Open | src/components/LiveChatModal.js:103-108 | opening resets the conversation to the welcome message and clears the topic |
| LiveChat.ChatSession.Type | src/components/LiveChatModal.js:196 | typing replaces the draft only |
| LiveChat.ChatSession.Send | src/components/LiveChatModal.js:110-120 | a blank draft changes nothing; otherwise exactly one user message is appended, the draft is cleared, typing starts, and the topic and pending reply are those of the responder |
| LiveChat.ChatSession.Deliver | src/components/LiveChatModal.js:121-125 | a fired timer appends its queued reply as a bot message with id `now + 1`, removes it from the queue, and stops the typing indicator; any queued reply may fire first, as the delays are random |
| VitalTasks.FilteredTasks | src/components/VitalTask.js:101-104 | keeps, in order, exactly the tasks whose title or description contains the term ignoring case, each as often as in the list; an empty term keeps all |
| VitalTasks.Reselect | src/components/VitalTask.js:106-112 | the selection effect keeps a selection that is still shown, and otherwise moves to the first shown task or none |
| VitalTasks.ReselectIdempotent | src/components/VitalTask.js:106-112 | running the effect a second time changes nothing |
| VitalTasks.ToggleItems | src/components/VitalTask.js:134-139 | flips `completed` of exactly the checklist items with that id and keeps the list's length and order |
| VitalTasks.Toggled | src/components/VitalTask.js:131-143 | only the tasks with that id change, and in them only the named item's `completed` |
| VitalTasks.ToggleItemsTwice | src/components/VitalTask.js:134-139 | toggling an item twice restores the checklist |
| VitalTasks.ToggleTwice | src/components/VitalTask.js:132-144 | toggling the same item twice restores the task list |
| VitalTasks.ToggleFollowsSelection | src/components/VitalTask.js:145-147 | after a toggle of the selected task, the selection equals the task's new version in the list |
| VitalTasks.VitalTaskPage.constructor | src/components/VitalTask.js:97-99 | the page starts on the given tasks, with no selection and the edit dialog closed |
| VitalTasks.VitalTaskPage.SyncSelection | src/components/VitalTask.js:106-112 | the selection becomes the effect's result for the current search |
| VitalTasks.VitalTaskPage.DeleteTask | src/components/VitalTask.js:114-122 | a confirmed delete removes exactly the tasks with that id, keeping every other task as often as before and in order, and a deleted selection moves to the first remaining task or none; unconfirmed changes nothing |
| VitalTasks.VitalTaskPage.UpdateTask | src/components/VitalTask.js:124-129 | replaces the tasks with the updated id, keeping length and order, selects the updated task and closes the dialog |
| VitalTasks.VitalTaskPage.ToggleChecklist | src/components/VitalTask.js:131-148 | the list is the toggled list, and a selected task with that id is replaced by its toggled version |
| VitalTasks.ToggledSelection | src/components/VitalTask.js:145-147 | any other selection is kept; a selected task with that id becomes the first task of the new list with that id, or none when the list has none |
| MyTasks.PriorityColor | src/components/MyTask.js:25-29 | 'Extreme' is #ff5757, 'Moderate' #2196f3 and anything else #4caf50 |
| MyTasks.FilteredTasks | src/components/MyTask.js:39-42 | keeps, in order, exactly the tasks whose title or short description contains the term ignoring case, each as often as in the list |
| MyTasks.Reselect | src/components/MyTask.js:44-50 | a selection not shown moves to the first shown task or none, no selection picks the first shown task, and otherwise nothing changes |
| MyTasks.ReselectKeepsVisible | src/components/MyTask.js:44-50 | a selected task still shown stays selected |
| MyTasks.ReselectIdempotent | src/components/MyTask.js:44-50 | running the effect a second time changes nothing |
| MyTasks.MyTaskPage.constructor | src/components/MyTask.js:33-37 | the page starts on the given tasks, with no selection, no menu task and the dialog closed |
| MyTasks.MyTaskPage.SyncSelection | src/components/MyTask.js:44-50 | the selection becomes the effect's result for the current search |
| MyTasks.MyTaskPage.OpenEditModal | src/components/MyTask.js:52-56 | selects the task, opens the dialog and closes the menu |
| MyTasks.MyTaskPage.DeleteTask | src/components/MyTask.js:58-67 | a confirmed delete removes exactly the tasks with that id, keeping every other task as often as before, and a deleted selection moves to the first remaining task or none; unconfirmed leaves the tasks alone; the menu closes either way |
| MyTasks.MyTaskPage.UpdateTask | src/components/MyTask.js:69-73 | replaces the tasks with that id, keeping length and order, and selects the updated task; the dialog and menu are left as they were |
| Dashboard.StatusColor | src/components/Dashboard.js:22-27 | the three named statuses have their colours and any other status is #888 |
| Dashboard.TodoTasks | src/components/Dashboard.js:41 | a task is in the to-do list iff it is in the list and its status is not 'Completed', as often as in the list |
| Dashboard.CompletedTasks | src/components/Dashboard.js:42 | a task is in the completed list iff it is in the list and its status is 'Completed', as often as in the list |
| Dashboard.Partition | src/components/Dashboard.js:41-42 | every task is in exactly one of the two lists, their lengths sum to the total, and both keep the list's order |
| Dashboard.FilteredTodoTasks | src/components/Dashboard.js:43-46 | the order-preserving part of the to-do list whose title or description contains the term ignoring case, each open matching task as often as in the list; an empty term keeps the whole list |
| Dashboard.Created | src/components/Dashboard.js:48 | the added task takes the instant as its id and the dialog's fields unchanged |
| Dashboard.Edited | src/components/Dashboard.js:58 | an edit changes only the named field of the editing copy |
| Dashboard.EditKeepsIdentity | src/components/Dashboard.js:52-58 | edits keep the copy's id, so saving replaces the task it was taken from |
| Dashboard.DashboardPage.constructor | src/components/Dashboard.js:31-36 | the page starts on the given tasks, with three members, both dialogs closed and no editing copy |
| Dashboard.DashboardPage.AddTask | src/components/Dashboard.js:48 | the new task goes first, followed by the previous list unchanged, and the dialog closes |
| Dashboard.DashboardPage.Invite | src/components/Dashboard.js:49 | the member count grows by exactly one and the dialog closes |
| Dashboard.DashboardPage.DeleteTask | src/components/Dashboard.js:50 | a confirmed delete removes exactly the tasks with that id, keeping every other task as often as before and in order; otherwise nothing changes |
| Dashboard.DashboardPage.StartEditing | src/components/Dashboard.js:52-54 | the editing copy is a copy of the task; the tasks, the member count and both dialog flags are unchanged |
| Dashboard.DashboardPage.CancelEditing | src/components/Dashboard.js:56 | drops the editing copy and leaves the tasks, the member count and both dialog flags alone |
| Dashboard.DashboardPage.EditChange | src/components/Dashboard.js:58 | changes only the named field of the editing copy; tasks, member count and both dialog flags are unchanged |
| Dashboard.DashboardPage.SaveEditing | src/components/Dashboard.js:57 | replaces the tasks with the copy's id, keeping length and order, and clears the editing state; member count and both dialog flags are unchanged |
| TaskCategories.KindOf | src/components/TaskCategories.js:41-45 | only 'Status' and 'Priority' name a list |
| TaskCategories.Upsert | src/components/TaskCategories.js:47-52 | an entry with a truthy id replaces the entries with that id; one without is appended with the instant as its id |
| TaskCategories.RenameInPlace | src/components/TaskCategories.js:47-48 | a rename keeps length, order and every other entry, and the renamed entry is present iff the id was |
| TaskCategories.AddAppends | src/components/TaskCategories.js:49-51 | an addition puts exactly one entry at the end, with an id no other entry has when the instant is new |
| TaskCategories.CategoriesPage.constructor | src/components/TaskCategories.js:20-26 | the page starts on the given lists, with the dialog and inline form closed and empty |
| TaskCategories.CategoriesPage.OpenModal | src/components/TaskCategories.js:28-32 | opens the dialog on the entry and list type, changing nothing else |
| TaskCategories.CategoriesPage.CloseModal | src/components/TaskCategories.js:34-38 | closed, no current entry, empty type; the lists are unchanged |
| TaskCategories.CategoriesPage.Save | src/components/TaskCategories.js:40-54 | only the list the type names is written, then the dialog closes; a type naming no list changes nothing |
| TaskCategories.CategoriesPage.Delete | src/components/TaskCategories.js:56-64 | a confirmed delete removes the entries with that id from only the named list |
| TaskCategories.CategoriesPage.TypeNewCategory | src/components/TaskCategories.js:147 | typing replaces the inline form's name only |
| TaskCategories.CategoriesPage.CreateCategory | src/components/TaskCategories.js:66-73 | a blank name is ignored; otherwise the untrimmed name is appended to the statuses only, and the form is cleared and hidden |
| CategoryEditModal.ModalTitle | src/components/CategoryEditModal.js:20 | "Edit <type>" with an entry and "Add <type>" without |
| CategoryEditModal.DraftOf | src/components/CategoryEditModal.js:17 | the entry with only its name replaced by the untrimmed text, keeping its id |
| CategoryEditModal.SaveFromDialog | src/components/CategoryEditModal.js:15-18 | saving from the dialog renames an entry with a non-zero id in place, and appends when adding |
| CategoryEditModal.RenameOfIdZeroAppends | src/components/CategoryEditModal.js:17 | an entry with id 0 is falsy as an id, so renaming it appends a copy |
| CategoryEditModal.CategoryEditForm.constructor | src/components/CategoryEditModal.js:5 | the name starts empty |
| CategoryEditModal.CategoryEditForm.Load | src/components/CategoryEditModal.js:7-13 | loads the entry's name, or '' when adding |
| CategoryEditModal.CategoryEditForm.Type | src/components/CategoryEditModal.js:43 | typing replaces the name |
| CategoryEditModal.CategoryEditForm.Save | src/components/CategoryEditModal.js:15-18 | a blank name saves nothing; otherwise the draft of the entry and the name is saved |
| Help.Narrowed | src/components/Help.js:61-65 | a category keeps its name and, in order, exactly its questions matching the term, each as often as before |
| Help.NarrowedAll | src/components/Help.js:61-65 | every category is narrowed, in order |
| Help.FilteredFaqs | src/components/Help.js:57-67 | a blank search gives the questions unchanged; otherwise the narrowed categories, in order and each as often as before, with the empty ones dropped |
| Help.FilteredFromSource | src/components/Help.js:61-66 | every shown question is a matching question of a category of the same name |
| Help.FilteredKeepsMatches | src/components/Help.js:61-66 | every matching question is shown under its category's name |
| Help.AccordionChange | src/components/Help.js:45-47 | expanding opens that panel, and collapsing leaves none open |
| Help.CollapseAfterExpand | src/components/Help.js:45-47 | collapsing any panel closes whatever was open, and expanding another replaces it |
| EditVitalTaskModal.Edited | src/components/EditVitalTaskModal.js:42 | the task with the three texts trimmed, the chosen priority and the preview as image; id, status, checklist and date unchanged |
| EditVitalTaskModal.UntouchedSubmitIsIdentity | src/components/EditVitalTaskModal.js:14-42 | loading a task with trimmed texts and then submitting gives that task back |
| EditVitalTaskModal.EditVitalTaskForm.constructor | src/components/EditVitalTaskModal.js:6-12 | every field is empty and the priority is 'Moderate' |
| EditVitalTaskModal.EditVitalTaskForm.Load | src/components/EditVitalTaskModal.js:14-23 | copies the fields from the task, with 'Moderate' and '' as defaults, and clears the URL |
| EditVitalTaskModal.EditVitalTaskForm.TypeTitle | src/components/EditVitalTaskModal.js:60 | typing replaces the title and clears a shown error |
| EditVitalTaskModal.EditVitalTaskForm.FileChange | src/components/EditVitalTaskModal.js:25-32 | a chosen file becomes the preview and clears the URL; no file changes nothing |
| EditVitalTaskModal.EditVitalTaskForm.UrlChange | src/components/EditVitalTaskModal.js:34-38 | the URL and the preview both become the pasted text |
| EditVitalTaskModal.EditVitalTaskForm.Submit | src/components/EditVitalTaskModal.js:40-44 | a blank title sets the error and emits nothing; otherwise the edited task is emitted |
| AddTaskModal.IsoDate | src/components/AddTaskModal.js:40 | the date part of an ISO timestamp, everything before the first 'T' |
| AddTaskModal.Emitted | src/components/AddTaskModal.js:36-43 | trimmed title and description, status "Not Started", the chosen date or today's, and the preview or the default image |
| AddTaskModal.EmittedTitleFilled | src/components/AddTaskModal.js:31-37 | an emitted task's title is non-empty and already trimmed |
| AddTaskModal.AddTaskForm.constructor | src/components/AddTaskModal.js:16-21 | the form starts reset: empty fields and priority 'Moderate' |
| AddTaskModal.AddTaskForm.TypeTitle | src/components/AddTaskModal.js:67 | typing replaces the title and clears a shown error |
| AddTaskModal.AddTaskForm.ImageChange | src/components/AddTaskModal.js:23-28 | a chosen file becomes the preview; no file changes nothing |
| AddTaskModal.AddTaskForm.Close | src/components/AddTaskModal.js:47-55 | title, date, description, preview and error become '' and the priority 'Moderate' |
| AddTaskModal.AddTaskForm.Submit | src/components/AddTaskModal.js:30-45 | a blank title sets the error and emits nothing; otherwise the emitted task goes out and the form is reset |
| EditMyTaskModal.Loaded | src/components/EditMyTaskModal.js:21-30 | the four form fields from the task, missing ones as '' |
| EditMyTaskModal.WithFieldOnly | src/components/EditMyTaskModal.js:32-35 | a change updates only the named form field |
| EditMyTaskModal.Merged | src/components/EditMyTaskModal.js:37-41 | exactly the title, objective, description and deadline come from the form; all other fields are unchanged |
| EditMyTaskModal.UntouchedSubmitIsIdentity | src/components/EditMyTaskModal.js:21-41 | with an untouched form, submit gives the original task back when the four fields were present |
| EditMyTaskModal.UntouchedSubmitFillsMissing | src/components/EditMyTaskModal.js:21-41 | with an untouched form, a missing deadline comes back as '' |
| EditMyTaskModal.EditMyTaskForm.constructor | src/components/EditMyTaskModal.js:14-19 | the four fields start empty |
| EditMyTaskModal.EditMyTaskForm.Load | src/components/EditMyTaskModal.js:21-30 | a task loads its fields; no task leaves the form as it is |
| EditMyTaskModal.EditMyTaskForm.Change | src/components/EditMyTaskModal.js:32-35 | updates only the named field |
| EditMyTaskModal.EditMyTaskForm.Submit | src/components/EditMyTaskModal.js:37-43 | emits the task merged with the form |
| Settings.PasswordCheck | src/components/Settings.js:54-62 | succeeds iff the new password equals its confirmation and neither it nor the current one is empty; a mismatch is reported first |
| Settings.CheckOrder | src/components/Settings.js:55-62 | a mismatch wins over a missing current password, and two empty new-password fields are caught by the emptiness test |
| Settings.SettingsPage.constructor | src/components/Settings.js:12-28 | the three state objects start with their initial keys and values |
| Settings.SettingsPage.AccountChange | src/components/Settings.js:30-33 | only the named account key changes |
| Settings.SettingsPage.PasswordChange | src/components/Settings.js:35-38 | only the named password key changes |
| Settings.SettingsPage.NotificationChange | src/components/Settings.js:45-47 | only the named flag changes, to the switch's value |
| Settings.SettingsPage.UpdatePassword | src/components/Settings.js:54-66 | the toast is the check's result; a failure leaves the form, and a success clears all three fields |
| InviteModal.LooksLikeEmailIffPattern | src/components/InviteModal.js:30 | the dialog's test holds iff `\S+@\S+\.\S+` matches somewhere in the text |
| InviteModal.SurroundedStillLooksLikeEmail | src/components/InviteModal.js:30 | the pattern is unanchored: text around an acceptable address keeps it acceptable |
| InviteModal.NoAtRejected | src/components/InviteModal.js:30 | an address without '@' is rejected |
| InviteModal.InviteForm.constructor | src/components/InviteModal.js:26-27 | address and error start empty |
| InviteModal.InviteForm.Type | src/components/InviteModal.js:65-68 | typing replaces the address and clears a shown error |
| InviteModal.InviteForm.Close | src/components/InviteModal.js:38-42 | address and error become '' |
| InviteModal.InviteForm.SendInvite | src/components/InviteModal.js:29-36 | an empty or malformed address shows the error and sends nothing; otherwise the address, untrimmed, is sent and the form is cleared |

## Left out

- Database connection, SSL, environment checks, demo-user seeding, `/health`, logging and `app.listen` (appointment-scheduler/server.js:50-162, 201-229, 436-448): these are start-up and I/O plumbing.
- bcrypt, jsonwebtoken and crypto are foreign libraries. Hashing is an injective function. A token is a record of claims, issue time and expiry that only `Sign` makes. The random reset token is a parameter.
- Users.Compare: bcrypt reads at most 72 bytes of the password, so two passwords sharing their first 72 UTF-8 bytes compare equal; this truncation is not modelled, and a password Users.LoginFailuresAlike treats as wrong may be accepted by bcrypt.
- Users.UserTable.ForgotPassword: the reset token is taken as a parameter and required to be 64 hexadecimal characters, the shape `crypto.randomBytes(32).toString('hex')` gives it.
- Nodemailer and the mail it sends are left out. Whether sending throws is a parameter.
- Users.ForgotOutcome: nodemailer's factory is `createTransport`, so the `createTransporter` call at appointment-scheduler/server.js:166 would throw and be caught, leaving no transporter; read that way the mail is never sent and the 500 for a failed mail is never reached. The model keeps both mail outcomes, so it covers more runs than the code as written allows.
- The Google OAuth client is left out because the routes never use it.
- SQL is modelled as lookups over the row sequence, with exact string comparison; concurrent requests are not modelled. Users.LoginRow, Users.LoginShadowed, Users.LoginAfterRegisterMissed, Users.DuplicateMessage: the login and register SELECTs have no `ORDER BY`, and the model takes "the first row" to be the earliest inserted one, i.e. the lowest id; InnoDB's primary-key-order scans happen to return that order, but SQL does not promise it.
- Users.RegisterOutcome, Users.RegisterTrimClash, Users.ForgotOutcome, Users.ProfileUpdateOutcome, Users.LoginRow: the `utf8mb4_unicode_ci` collation of the key columns is not modelled; every lookup and every UNIQUE key compares strings exactly. That collation is case-insensitive, accent-insensitive ("jose" equals "josé") and PAD SPACE (trailing spaces are ignored by `=`). So the program finds rows the model misses: register's duplicate query matches a stored "jose" for a typed "josé", a stored "b" for a typed "b " (400 "This username is already taken." where Users.RegisterOutcome and Users.RegisterTrimClash give 500), and a stored "A@B.C" written by PUT profile for a typed "a@b.c" (400 where the model gives 201); forgot-password's `WHERE email = ?` and Users.LoginRow miss such as-sent rows in the model as well. PUT profile stores and compares the email as sent: "A@B.C" beside a stored "a@b.c" is refused by the UNIQUE key (500) in the program and accepted (200) here.
- Users.ProfileReply, Users.ProfileUpdateOutcome: the 500 body also carries `error: error.message`; the model's reply has the message only.
- Users.SetReset: the expiry is stored in milliseconds, while the `resetPasswordExpires` DATETIME column keeps whole seconds; that rounding is not modelled.
- Users.RegisterOutcome, Users.LoginOutcome, Users.ProfileUpdateOutcome, Users.ProfileReply, Users.ForgotOutcome: database errors other than the UNIQUE violations the model derives are not modelled. The catch-all 500 of register, login and PUT profile is reached only through those; that of GET profile (appointment-scheduler/server.js:412-414) is never reached, and that of forgot-password (appointment-scheduler/server.js:394-397) only through a failed mail.
- Users.ProfileUpdateOutcome: a request without `name` makes the route throw before replying; this is modelled as no reply and no change.
- The server has no `/reset-password` route, so consuming a reset token is not modelled.
- Login.js, Register.js, ForgotPassword.js, ResetPassword.js, ProfileModal.js, DashboardLayout.js and App.js are fetch, localStorage and navigation wrappers. They are not part of this model.
- JSX rendering, styling, themes, menus' anchor elements, CalendarPopover, AuthLayout and PageHeader are presentation only.
- Settings: the theme switch and `handleSaveChanges` only show a toast or call the theme context, so they are left out.
- Help: `handleSubmitTicket` (a mailto navigation) and `handleStartLiveChat` (opening the chat window) are left out as navigation and rendering.
- `window.confirm` is a boolean parameter. `Date.now()`, `new Date().toISOString()` and `URL.createObjectURL` are parameters too.
- The chat's typing delay (`setTimeout` with `Math.random`) is not modelled. LiveChat.ChatSession.Deliver stands for one timer firing, at an instant given as a parameter.
- The initial task lists and the FAQ data are constructor or function parameters, not the literal arrays. The settings' initial objects and the initial categories are kept as constants or parameters.
- MyTasks and VitalTasks: the menu's `handleMenuClick`/`handleMenuClose` only set the menu anchor. The menu task is cleared where the model's handlers close the menu.
- EditVitalTaskModal.EditVitalTaskForm.Submit, EditMyTaskModal.EditMyTaskForm.Submit: a submit with no task to edit is not modelled; the task is a parameter.
- Dashboard.DashboardPage.EditChange: with no editing copy the source sets it to the one-field object `{[name]: value}`, which is not a task; the model leaves the editing copy unset.
- Dashboard.DashboardPage.SaveEditing: with no editing copy the source throws on a non-empty list, reading `id` of null, before any state is set, and on an empty list only clears the already empty copy; the model leaves the state unchanged in both cases.
- `toLowerCase` is modelled on ASCII letters only; Unicode case mapping is not modelled. `trim` and `\s` cover the ECMAScript WhiteSpace and LineTerminator characters.
- VitalTask.js's `getPriorityColor` is identical to MyTask.js's and is modelled once, as MyTasks.PriorityColor.
