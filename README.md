# eTutoring chat relay and admin pages — a Dafny model

This project models the logic of a small e-tutoring system. It has two parts:

- **A socket.io chat relay.** It keeps a registry of who is online and broadcasts that registry whenever it changes. It routes private messages by connection identifier.
- **A React admin front end.** This part covers:
  - the chat widget that talks to the relay;
  - the list pages for students, meetings, documents, users and tutors, with their search, pagination, selection and delete handlers;
  - the forum's post and comment forms;
  - the meeting create and update forms, with their time checks;
  - the layout's role-dependent menu and activity-log notifications.

How the source becomes Dafny:

- **Pure helpers become functions.** Search filters, `paginate`, `Math.ceil` page counts, update-by-id and delete-by-id are all functions.
- **State becomes a class.** Each piece of state that a handler updates in place is a class: the relay's `onlineUsers` object, a page's React state variables, or a form's `formData`. Each handler is a method with a `modifies` frame, and its `ensures` gives the new state as a function of the old one.
- **Invariants.** Preserved invariants (`Valid()`) and lemmas state what the source promises about those functions.
- **Environment inputs become parameters.** These are:
  - `window.confirm` (`confirmed`);
  - whether an awaited service call succeeded (`callOk`), and the record it returned;
  - the current time (`now`, in minutes);
  - the files chosen in a file input.
- **Outgoing calls are recorded.** Every service call or socket emit a handler makes is appended to a `requests`, `emitted` or `outbox` sequence. Contracts on those sequences state which calls happen and when.

Modules:

- `Wrappers`: `Option`.
- `Lists`:
  - `filter`;
  - the `[...new Set(xs)]` de-duplication;
  - removal of listed elements;
  - the `Array.isArray(xs) ? … : []` guard.
- `Paging`: `slice` with JavaScript's index rules, `paginate`, the page count, row numbers and the pager rule.
- `Text`: ASCII case folding, `includes`, `trim`, and `split('/').pop()`.
- `People`: the name-or-e-mail search shared by the Students, Users and Tutors pages.
- `Files`: the first file of a file input.
- `ChatServer`: `project_chat_nodejs/server.js`.
- `ChatClient`: `react/src/components/Chat.js`.
- `Student`, `Meeting`, `Document`, `User`, `Tutor`, `Forum`, `Admin`: the pages of the same names.
- `MeetingForm`, `MeetingInsert`, `MeetingUpdate`: the two meeting forms and what they share.

Behaviour the model fixes explicitly:

- **Registry key order.** The relay's registry keeps JavaScript's key order: `names` lists the keys in insertion order, beside the map `reg`.
- **Disconnect broadcast.** socket.io removes a closing socket from its rooms before the `disconnect` handler runs. The registry broadcast after a disconnect therefore goes to the connections still open.
- **Optional fields.** A missing field tested with `?.` never matches a search.
- **Non-array state.** A state that is not an array (`ListState.NotArray`) yields no rows. Most handlers apply `filter`, `map` or spreading to it inside their `try`, where the throw is caught, so they leave such a state unchanged. The status handler of the meeting list is the exception: its `prevMeetings.map` runs in a React updater outside the `try` (react/src/pages/Meeting.js:64-68). That case cannot arise, because a status select is rendered only on a row, and a non-array state has no rows. The model keeps the state unchanged there too.
- **Search keeps the page.** Typing in a search box never resets `currentPage`, and the pager is shown only when there are more than five matches. So a search made from page 2 or later that leaves five matches or fewer shows an empty table with no pager (`Paging.StrandedPage`).
- **Unparseable times.** A time that does not parse is `None`. Every comparison with it is false, as with JavaScript's invalid `Date`.

## Model

| member | source | states |
|---|---|---|
| ChatServer.Server.constructor | project_chat_nodejs/server.js:19 | the relay starts with no connection, an empty registry and nothing sent |
| ChatServer.Server.Connect | project_chat_nodejs/server.js:21 | a new connection joins the open connections, which stay duplicate-free |
| ChatServer.Snapshot | project_chat_nodejs/server.js:25-28 | one `{socketId, username}` row per listed name, each row's connection being the one that name is registered to |
| ChatServer.SnapshotListsRegistry | project_chat_nodejs/server.js:25-28 | the payload lists every registered name exactly once, in insertion order, and has as many rows as the registry has keys |
| ChatServer.Upsert | project_chat_nodejs/server.js:23 | the name ends up bound to the connection; every other name keeps its binding or its absence; a known name keeps the key order, a new one is appended |
| ChatServer.UpsertSpec | project_chat_nodejs/server.js:23 | registering binds the name to the connection and changes no other binding; a known name keeps its place and adds no row, a new one is added last |
| ChatServer.FirstBoundTo | project_chat_nodejs/server.js:42-44 | the position of the first name in key order bound to the connection, every earlier name being bound elsewhere; the end when there is none |
| ChatServer.Gone | project_chat_nodejs/server.js:42-44 | the search finds at most one name, a listed name bound to that connection, and none exactly when no listed name is bound to it |
| ChatServer.Unbind | project_chat_nodejs/server.js:45 | the corrected deletion: exactly the found name leaves the registry; every other name keeps its connection, including a second name bound to the same connection; nothing changes when nothing was found |
| ChatServer.UnbindAsWritten | project_chat_nodejs/server.js:45 | the deletion as written: the found name leaves the registry unless it is the empty string; the others keep their connections; nothing changes when nothing or "" was found |
| ChatServer.BoundIsListed | project_chat_nodejs/server.js:42-44 | on a well-formed registry, the search finds nothing exactly when no name at all is bound to the connection |
| ChatServer.UnbindKeepsDirectory | project_chat_nodejs/server.js:45 | after the corrected deletion the remaining names keep their order (the old list without the deleted name) and still list exactly the registry's keys |
| ChatServer.UnbindShrinks | project_chat_nodejs/server.js:45 | under the corrected deletion the registry loses one key when a name was bound to the connection and none otherwise |
| ChatServer.UnbindTwice | project_chat_nodejs/server.js:41-45 | with at most one name bound to the connection, a second corrected deletion changes nothing |
| ChatServer.UnbindAsWrittenTwice | project_chat_nodejs/server.js:41-45 | with at most one name bound to the connection, a second disconnect under the code as written changes nothing, whether the first deleted a name or kept a found `""` |
| ChatServer.SecondNameOutlivesDisconnect | project_chat_nodejs/server.js:42-45 | a connection that registered two names loses only the first on disconnect, under the code as written and the corrected deletion alike |
| ChatServer.UnbindAsWrittenAgrees | project_chat_nodejs/server.js:45 | the written and the corrected deletion agree unless the found name is the empty string |
| ChatServer.EmptyNameOutlivesDisconnect | project_chat_nodejs/server.js:45 | a user registered under "" stays in the registry after its connection closes; the corrected deletion removes it |
| ChatServer.Fanout | project_chat_nodejs/server.js:30 | `io.emit` makes one delivery of the event per open connection, in connection order |
| ChatServer.FanoutExactlyOnce | project_chat_nodejs/server.js:30 | a broadcast reaches each open connection exactly once and no other connection |
| ChatServer.Route | project_chat_nodejs/server.js:33-38 | a private message is delivered once, to the receiver only, with the sender's connection id, and only when the receiver is open |
| ChatServer.Server.UserConnected | project_chat_nodejs/server.js:22-31 | the registry becomes the upsert of the name; the registry after the change is broadcast to every open connection, the sender included; the invariant is kept |
| ChatServer.Server.SendMessage | project_chat_nodejs/server.js:33-39 | only the outbox changes, by exactly the routed message; the registry is untouched and the invariant is kept |
| ChatServer.Server.Disconnect | project_chat_nodejs/server.js:41-53 | the connection closes; the first name bound to it is deleted as the code is written, so a name "" stays; the registry is then broadcast to the connections still open, even when nothing was deleted; the invariant is kept |
| ChatServer.ReconnectScenario | project_chat_nodejs/server.js:22-53 | a user who reconnects is listed once, at the new connection, and a message to the old connection is dropped |
| ChatClient.AppendMessage | react/src/components/Chat.js:39-45 | the conversation map gains the sender's key when absent and no other key |
| ChatClient.AppendMessageSpec | react/src/components/Chat.js:39-45 | the message is added at the end of that peer's conversation (an empty one when absent); every other conversation is unchanged |
| ChatClient.Bump | react/src/components/Chat.js:47-52 | the count map gains the sender's key when absent and no other key |
| ChatClient.BumpSpec | react/src/components/Chat.js:47-52 | that peer's count rises by exactly one, from 0 when absent; every other count is unchanged |
| ChatClient.VisiblePeers | react/src/components/Chat.js:55-58 | the online list is the payload's rows whose username is not the user's own |
| ChatClient.VisiblePeersOfRegistry | react/src/components/Chat.js:55-58 | fed with the relay's broadcast, the widget lists every other registered user exactly once, in registration order, never the user itself, each with its registered connection |
| ChatClient.UsernamesOfVisiblePeers | react/src/components/Chat.js:56 | filtering the rows filters their usernames the same way, keeping order |
| ChatClient.UsernamesFilterDistinct | react/src/components/Chat.js:56 | filtering a payload with distinct usernames keeps them distinct |
| ChatClient.ReceiveKeepsUnreadIncoming | react/src/components/Chat.js:38-52 | after a received message, every badge still counts only messages that are in the conversation and came from that peer |
| ChatClient.SendKeepsUnreadIncoming | react/src/components/Chat.js:69-75 | the user's own message, sent into the open conversation whose count is 0, keeps every badge honest |
| ChatClient.CanSendIff | react/src/components/Chat.js:67 | a message goes out exactly when the input holds a character that is not white space and a conversation is open |
| ChatClient.ChatWidget.constructor | react/src/components/Chat.js:11-17 | the widget mounts closed, with no messages, input, online users, conversation or badges |
| ChatClient.ChatWidget.ToggleModal | react/src/components/Chat.js:30-35 | the modal flips, and `user_connected` with the user's name is emitted only when it goes from closed to open |
| ChatClient.ChatWidget.OnReceiveMessage | react/src/components/Chat.js:38-52 | the message goes at the end of the sender's conversation; the sender's count rises by one exactly when the sender is not the open conversation; the invariant is kept |
| ChatClient.ChatWidget.OnOnlineUsers | react/src/components/Chat.js:55-58 | the online list becomes the payload without the user's own rows |
| ChatClient.ChatWidget.SetInput | react/src/components/Chat.js:194 | the input box holds what was typed |
| ChatClient.ChatWidget.SendMessage | react/src/components/Chat.js:66-78 | a non-blank input with an open conversation is emitted once, untrimmed, recorded as the user's own message, and the box is cleared; otherwise nothing changes |
| ChatClient.ChatWidget.StartPrivateChat | react/src/components/Chat.js:80-87 | the peer becomes both the open and the highlighted conversation and its count alone becomes 0 |
| Paging.SliceWindow | react/src/pages/Meeting.js:11 | a slice from a non-negative start holds at most the window's length, is empty past the end, and is otherwise the elements from the start up to the window's end or the list's end |
| Paging.Paginate | react/src/pages/Meeting.js:9-12 | a page never holds more than `perPage` rows, and every row on it is a row of the list |
| Paging.PageCount | react/src/pages/Meeting.js:44 | `Math.ceil(n / perPage)`: the fewest pages that hold n rows |
| Paging.PageWindow | react/src/pages/Meeting.js:9-12 | a page starts at `(p-1)*perPage`, holds at most `perPage` rows, and is empty at or past the end |
| Paging.RowNumberIsPosition | react/src/pages/Meeting.js:152 | the `#` of a row is its 1-based position in the whole filtered list |
| Paging.ShowPagerIff | react/src/pages/Meeting.js:219 | the pager is shown exactly when there are more rows than fit on one page |
| Paging.PagesPrefix | react/src/pages/Meeting.js:9-12 | pages 1 to k together are the first k pages' worth of rows, in order |
| Paging.PagesCoverAll | react/src/pages/Meeting.js:43-44 | walking pages 1 to the page count shows every row once, in order |
| Paging.Navigate | react/src/pages/Meeting.js:221-235 | from a page between 1 and the page count, every pager click that can happen lands on such a page; Prev and Next move by at most one |
| Paging.PrevNextUndo | react/src/pages/Meeting.js:222-234 | where each button is enabled, Next undoes Prev and Prev undoes Next |
| Paging.StrandedPage | react/src/pages/Meeting.js:123 | the search box keeps the page: from page 2 or later, a search that leaves at most one page of matches shows an empty table and no pager |
| Text.LowerSpec | react/src/pages/Student.js:100 | `toLowerCase` leaves no upper-case letter, touches nothing else, and is idempotent |
| Text.UpperSpec | react/src/pages/Admin.js:24 | `toUpperCase` leaves no lower-case letter, touches nothing else, and is idempotent |
| Text.ContainsIff | react/src/pages/Student.js:100 | `includes` holds exactly when the needle occurs at some position |
| Text.MatchesIgnoresCase | react/src/pages/Student.js:100-101 | the case-insensitive match does not depend on the letter case of the field or the term |
| Text.TrimStart | react/src/components/Chat.js:67 | trimming the front drops exactly a white-space prefix and stops at a non-space |
| Text.TrimEnd | react/src/components/Chat.js:67 | trimming the end drops exactly a white-space suffix and stops at a non-space |
| Text.BlankIff | react/src/pages/Forum.js:29 | a string trims to "" exactly when all its characters are white space |
| Text.Basename | react/src/pages/Document.js:147 | `split('/').pop()` is the part after the last '/': a suffix of the path with no '/', preceded by a '/' when shorter than the path |
| Text.BasenameOfJoin | react/src/pages/Document.js:147 | the displayed name of `dir/name` is `name` |
| Text.BasenameOfPlainName | react/src/pages/Document.js:147 | a path without '/' is shown whole |
| People.SearchPeople | react/src/pages/Student.js:99-102 | the search keeps exactly the rows whose name or e-mail contains the term, ignoring case, in list order |
| People.EmptySearchKeepsNamed | react/src/pages/User.js:28-31 | an empty search lists every row that has a name or an e-mail, and no other row |
| People.SearchNarrows | react/src/pages/Student.js:99-102 | typing more never brings a row back |
| People.SearchIgnoresCase | react/src/pages/Student.js:99-102 | searching for the upper- or lower-cased term gives the same rows |
| Lists.Dedup | react/src/pages/Student.js:57 | `[...new Set(xs)]` keeps every element and only those |
| Lists.DedupDistinct | react/src/pages/Student.js:57 | the de-duplicated list has no repeats |
| Lists.DedupAppend | react/src/pages/Student.js:57 | de-duplicating a duplicate-free list followed by more items keeps the list and appends the new items once each, in order |
| Lists.FilterState | react/src/pages/Meeting.js:38-41 | a state that is not an array yields no rows; an array yields its matching rows |
| Student.StudentRows | react/src/pages/Student.js:105 | at most 5 rows, each a fetched student who matches the search |
| Student.StudentRowsArePages | react/src/pages/Student.js:105-106 | the page's slice is the `paginate` window, at most 5 rows; the pager shows exactly when there are more than 5 matches |
| Student.StudentRowNumber | react/src/pages/Student.js:196 | the `#` of a row is its position among the matching students |
| Student.Toggle | react/src/pages/Student.js:42-48 | a selected id is unselected, every copy, and an unselected one is appended; no other id changes |
| Student.ToggleTwice | react/src/pages/Student.js:42-48 | toggling twice restores who is selected, and restores the exact list for an id that was not selected |
| Student.ToggleKeepsDistinct | react/src/pages/Student.js:42-48 | the selection stays duplicate-free |
| Student.SelectAll | react/src/pages/Student.js:51-59 | with the whole page selected, the page's ids are removed; otherwise the selection becomes the union of itself and the page |
| Student.SelectAllAppendsNew | react/src/pages/Student.js:57 | when some row is unselected, the old selection is kept as it is and the page's unselected ids follow, once each, in page order |
| Student.SelectAllEmptyPage | react/src/pages/Student.js:53-56 | select-all on an empty page changes nothing |
| Student.SelectAllTwice | react/src/pages/Student.js:51-59 | pressing select-all twice on a page with nothing selected restores the selection |
| Student.SelectAllKeepsDistinct | react/src/pages/Student.js:51-59 | the selection stays duplicate-free |
| Student.TutorColour | react/src/pages/Student.js:65 | the colour is white exactly for the "0" choice |
| Student.StudentPage.constructor | react/src/pages/Student.js:23 | the page mounts on page 1 with nothing selected and no tutor choices |
| Student.StudentPage.HandleStudentSelect | react/src/pages/Student.js:42-48 | the selection becomes the toggle of the id; the invariant is kept |
| Student.StudentPage.HandleSelectAll | react/src/pages/Student.js:51-59 | the selection becomes select-all of the current page's ids; the invariant is kept |
| Student.StudentPage.HandleTutorSelect | react/src/pages/Student.js:62-76 | only that student's tutor and colour change, and the assignment is sent |
| Student.StudentPage.HandleBulkAssignTutor | react/src/pages/Student.js:79-96 | with no tutor chosen it only warns; otherwise it sends the selection, which is cleared exactly when the call succeeds |
| Student.StudentPage.SetSearchTerm | react/src/pages/Student.js:122 | the search takes the typed text and the page number stays |
| Student.StudentPage.SetSelectedTutor | react/src/pages/Student.js:136 | the tutor of the bulk assignment is the one chosen |
| Student.StudentPage.ClickPager | react/src/pages/Student.js:229-245 | the page becomes where the click leads, over the page count of the current matches |
| Meeting.FilteredMeetings | react/src/pages/Meeting.js:38-41 | the matches by name or type, case-insensitively; none when the state is not an array |
| Meeting.FilteredMeetingsIdempotent | react/src/pages/Meeting.js:38-41 | filtering the results again changes nothing |
| Meeting.MeetingRows | react/src/pages/Meeting.js:43 | at most 5 rows, each a listed meeting that matches the search; none when the state is not an array |
| Meeting.MeetingRowsMatch | react/src/pages/Meeting.js:43-44 | a page holds at most 5 listed, matching meetings; the pages cover the matches in order; the pager rule |
| Meeting.MeetingRowNumber | react/src/pages/Meeting.js:152 | the `#` of a row is its position among the matches |
| Meeting.SetStatus | react/src/pages/Meeting.js:64-68 | the list keeps its length |
| Meeting.SetStatusSpec | react/src/pages/Meeting.js:64-68 | only the status of meetings with that id changes; order, other fields and other meetings are unchanged |
| Meeting.SetStatusLastWins | react/src/pages/Meeting.js:64-68 | two status changes amount to the second |
| Meeting.SetStatusSame | react/src/pages/Meeting.js:64-68 | setting the status a meeting already has changes nothing |
| Meeting.RemoveMeeting | react/src/pages/Meeting.js:53 | exactly the meetings with that id are removed |
| Meeting.RemoveMeetingSpec | react/src/pages/Meeting.js:53 | removing an absent id changes nothing, and removing twice is removing once |
| Meeting.DeleteIsDenyList | react/src/pages/Meeting.js:198 | Delete is withheld from students and tutors only: staff, administrators and every other role, the guest included, are offered it |
| Meeting.MeetingPage.constructor | react/src/pages/Meeting.js:19 | the page mounts on page 1 with an empty search |
| Meeting.MeetingPage.HandleDelete | react/src/pages/Meeting.js:46-57 | the call is made only after confirmation, and the meetings are removed only when it succeeds |
| Meeting.MeetingPage.HandleStatusChange | react/src/pages/Meeting.js:59-73 | the call is always made, and the list is updated only when it succeeds |
| Meeting.MeetingPage.SetSearchTerm | react/src/pages/Meeting.js:123 | the search takes the typed text and the page number stays |
| Meeting.MeetingPage.ClickPager | react/src/pages/Meeting.js:219-237 | the page becomes where the click leads, over the page count of the current matches |
| Document.FilteredDocuments | react/src/pages/Document.js:95-97 | matches on the file path only, case-insensitively; none when the state is not an array |
| Document.DocumentRows | react/src/pages/Document.js:99 | at most 5 rows, each a listed document whose path matches the search; none when the state is not an array |
| Document.DocumentRowsSpec | react/src/pages/Document.js:99-100 | at most 5 rows per page, the `#` is the position among the matches, and the pages cover the matches in order |
| Document.UploadedIsLastResult | react/src/pages/Document.js:48 | an uploaded document appears last among the matches when its path matches |
| Document.SetComment | react/src/pages/Document.js:73-75 | the list keeps its length |
| Document.SetCommentSpec | react/src/pages/Document.js:73-75 | only the documents with the selected id get the new comment; everything else is unchanged |
| Document.RemoveDoc | react/src/pages/Document.js:89 | exactly the documents with that id are removed |
| Document.RemoveDocKeepsOrder | react/src/pages/Document.js:89 | deleting keeps the others in order |
| Document.DocumentPage.constructor | react/src/pages/Document.js:22 | the page mounts on page 1 with every dialog closed |
| Document.DocumentPage.HandleFileChange | react/src/pages/Document.js:32-34 | only the first chosen file is kept, and none when the choice is cancelled |
| Document.DocumentPage.HandleUpload | react/src/pages/Document.js:36-57 | with no file it makes no call; otherwise the file is sent and, on success, the server's document is appended and the dialog closed and emptied |
| Document.DocumentPage.HandleShowCommentModal | react/src/pages/Document.js:59-63 | the dialog opens on the document with its comment, or "" |
| Document.DocumentPage.HandleUpdateComment | react/src/pages/Document.js:65-81 | no document selected: nothing happens; otherwise the comment is sent and stored on success |
| Document.DocumentPage.HandleDelete | react/src/pages/Document.js:84-93 | the call is made only after confirmation, and the list changes only when it succeeds |
| Document.DocumentPage.SetSearchTerm | react/src/pages/Document.js:115 | the search takes the typed text and the page number stays |
| Document.DocumentPage.ClickPager | react/src/pages/Document.js:176-194 | the page becomes where the click leads, over the page count of the current matches |
| Document.DocumentPage.SetShowModal | react/src/pages/Document.js:196-207 | the upload dialog opens or closes; the chosen file stays |
| Document.DocumentPage.TypeComment | react/src/pages/Document.js:223 | the comment box holds what was typed |
| Document.DocumentPage.CloseCommentModal | react/src/pages/Document.js:212-228 | the comment dialog closes; the selected document and the typed comment stay |
| User.UserRows | react/src/pages/User.js:33 | at most 5 rows, each a listed user who matches the search; none when the state is not an array |
| User.UserRowsSpec | react/src/pages/User.js:33-34 | at most 5 rows, none past the end, and the pager rule |
| User.RemoveUser | react/src/pages/User.js:43 | exactly the users with that id are removed |
| User.RemoveUserSearch | react/src/pages/User.js:43 | deleting only drops that user from the search results |
| User.UserPage.constructor | react/src/pages/User.js:18 | the page mounts on page 1 with an empty search |
| User.UserPage.HandleDelete | react/src/pages/User.js:36-47 | the call is made only after confirmation, and the list changes only when it succeeds |
| User.UserPage.SetSearchTerm | react/src/pages/User.js:59 | the search takes the typed text and the page number stays |
| User.UserPage.ClickPager | react/src/pages/User.js:126-144 | the page becomes where the click leads, over the page count of the current matches |
| Tutor.TutorRows | react/src/pages/Tutor.js:46 | at most 5 rows, each a fetched tutor who matches the search |
| Tutor.TutorPageCount | react/src/pages/Tutor.js:47 | the fewest pages that hold the matching tutors |
| Tutor.TutorRowsSpec | react/src/pages/Tutor.js:46-47 | at most 5 rows; the `#` of a row is its position among the matches; the pages cover the matches in order |
| Tutor.TutorPage.constructor | react/src/pages/Tutor.js:12-27 | the page mounts with the fetched tutors, on page 1, with an empty search and the details dialog closed and empty |
| Tutor.TutorPage.SetSearchTerm | react/src/pages/Tutor.js:58 | the search takes the typed text and the page number stays |
| Tutor.TutorPage.ClickPager | react/src/pages/Tutor.js:100-112 | the page becomes where the click leads, over the page count of the current matches |
| Tutor.TutorPage.HandleShowDetails | react/src/pages/Tutor.js:30-39 | the dialog opens on the tutor either way; it lists the students returned for that tutor, and when the call throws it keeps the previous tutor's students |
| Tutor.TutorPage.CloseModal | react/src/pages/Tutor.js:115 | the dialog closes; the tutor and its students stay loaded |
| Forum.CanPostIff | react/src/pages/Forum.js:29 | a post is attempted exactly when the title has text and either the body has text or an image is chosen |
| Forum.RemovePost | react/src/pages/Forum.js:64 | exactly the posts with that id are removed |
| Forum.RemoveNewPost | react/src/pages/Forum.js:34 | deleting a just-prepended post with a new id gives back the earlier list |
| Forum.ForumPage.constructor | react/src/pages/Forum.js:8-12 | the form starts empty |
| Forum.ForumPage.HandlePostSubmit | react/src/pages/Forum.js:28-47 | the guard decides the attempt; after confirmation the post is sent; on success the new post goes first and title, body and preview are cleared, but the image is not |
| Forum.ForumPage.ClearForm | react/src/pages/Forum.js:37-39 | title, body and preview are cleared |
| Forum.ForumPage.HandleImageChange | react/src/pages/Forum.js:49-55 | a chosen file becomes the image and preview; a cancelled choice changes nothing |
| Forum.ForumPage.HandleDelete | react/src/pages/Forum.js:57-69 | after confirmation the call is made, and the post is removed only when the answer's status is truthy |
| Forum.ForumPage.SetTitle | react/src/pages/Forum.js:94 | the title holds what was typed |
| Forum.ForumPage.SetNewPost | react/src/pages/Forum.js:104 | the body holds what was typed |
| Forum.PostCard.constructor | react/src/pages/Forum.js:139-144 | a card mounts with an empty comment box and no attachment |
| Forum.PostCard.HandleFileChange | react/src/pages/Forum.js:161-165 | all chosen files are kept; the badge is shown exactly when one was chosen, and reads 1 and not the count |
| Forum.PostCard.HandleCommentSubmit | react/src/pages/Forum.js:167-178 | the text is sent with the first file only; on success the new comment goes first and the box, files and badge are cleared |
| Forum.PostCard.SetComment | react/src/pages/Forum.js:269 | the comment box holds what was typed; the badge still matches the files |
| MeetingForm.ChangesTouchOneField | react/src/pages/meeting/MeetingInsert.js:56-64 | each change handler leaves every other field as it was |
| MeetingForm.CheckTimes | react/src/pages/meeting/MeetingInsert.js:71-88 | a pass means the start, when it parses, is not in the past and the end, when both parse, is after the start; each failure names the comparison that failed |
| MeetingForm.CheckTimesSpec | react/src/pages/meeting/MeetingInsert.js:74-88 | for times that parse, the form passes exactly when start >= now and end > start; a past start is reported first |
| MeetingForm.UnparsedTimesPass | react/src/pages/meeting/MeetingInsert.js:71-88 | a time that does not parse fails no check |
| MeetingInsert.InitialFormIsCleared | react/src/pages/meeting/MeetingInsert.js:15-22 | the fresh form differs from the cleared one only by a tutor's own id |
| MeetingInsert.FindOption | react/src/pages/meeting/MeetingInsert.js:178 | `find` returns the first option with that value, or nothing when no option has it |
| MeetingInsert.FindListedOption | react/src/pages/meeting/MeetingInsert.js:178 | with distinct option values, looking up a listed option's value finds that option |
| MeetingInsert.Shown | react/src/pages/meeting/MeetingInsert.js:178 | one shown entry per id in the form |
| MeetingInsert.ShownAfterSelection | react/src/pages/meeting/MeetingInsert.js:176-179 | a multi-select shows back exactly the options just chosen, in the order chosen |
| MeetingInsert.InsertPage.constructor | react/src/pages/meeting/MeetingInsert.js:15-22 | the page mounts with the initial form |
| MeetingInsert.InsertPage.HandleTextChange | react/src/pages/meeting/MeetingInsert.js:56-59 | only the named field changes |
| MeetingInsert.InsertPage.HandleTimeChange | react/src/pages/meeting/MeetingInsert.js:56-59 | only the named field changes |
| MeetingInsert.InsertPage.HandleMultiSelectChange | react/src/pages/meeting/MeetingInsert.js:61-64 | only the named list changes, to the chosen ids |
| MeetingInsert.InsertPage.HandleSubmit | react/src/pages/meeting/MeetingInsert.js:67-112 | the create call is made exactly when both checks pass; the form is cleared, with no tutor whatever the role, only after a successful call |
| MeetingUpdate.ChosenOptions | react/src/pages/meeting/MeetingUpdate.js:194 | a multi-select shows as chosen exactly the options whose value the form lists |
| MeetingUpdate.LoadedChoices | react/src/pages/meeting/MeetingUpdate.js:42-43 | right after loading, the chosen options are exactly those of the meeting's participants |
| MeetingUpdate.ChosenAfterSelection | react/src/pages/meeting/MeetingUpdate.js:87-90 | after a selection the multi-select shows exactly the chosen options |
| MeetingUpdate.InitialFormMatchesInsert | react/src/pages/meeting/MeetingUpdate.js:18-26 | the update form starts as the create form does, the tutor's own id included, plus an empty status |
| MeetingUpdate.UpdatePage.constructor | react/src/pages/meeting/MeetingUpdate.js:18-26 | the page mounts with the initial form for its meeting id |
| MeetingUpdate.UpdatePage.Load | react/src/pages/meeting/MeetingUpdate.js:31-52 | a stored meeting replaces the form; a failed fetch leaves it |
| MeetingUpdate.UpdatePage.HandleTextChange | react/src/pages/meeting/MeetingUpdate.js:82-85 | only the named field changes |
| MeetingUpdate.UpdatePage.HandleTimeChange | react/src/pages/meeting/MeetingUpdate.js:82-85 | only the named field changes |
| MeetingUpdate.UpdatePage.HandleMultiSelectChange | react/src/pages/meeting/MeetingUpdate.js:87-90 | only the named list changes, to the chosen ids |
| MeetingUpdate.UpdatePage.HandleSubmit | react/src/pages/meeting/MeetingUpdate.js:92-128 | the update call is made exactly when both checks pass, and the form is never reset |
| Admin.Menu | react/src/pages/Admin.js:51-93 | everyone sees Dashboard, Forum and Documents; Meetings and Tutors exactly for tutor, staff and admin; Students for student, staff and admin; Users for staff and admin |
| Admin.MenuByRole | react/src/pages/Admin.js:51-93 | the whole menu, in display order, for each kind of role |
| Admin.GuestMenu | react/src/pages/Admin.js:10-13 | without a stored user the menu has only the three common entries |
| Admin.MeetingDeleteFromMenu | react/src/pages/Admin.js:61 | of those who reach the meeting list, exactly staff and administrators can delete there |
| Admin.Heading | react/src/pages/Admin.js:24 | the heading is the table, the action, the time and four separator characters |
| Admin.HeadingRoundTrip | react/src/pages/Admin.js:24 | when the table and action have no spaces, the heading reads back as upper-cased table, upper-cased action and time |
| Admin.NotificationsRoundTrip | react/src/pages/Admin.js:23-26 | one notification per log row; each heading reads back as the row's upper-cased table, upper-cased action and time, and the detail is the row's message |
| Admin.Layout.constructor | react/src/pages/Admin.js:15 | no notifications at first |
| Admin.Layout.Poll | react/src/pages/Admin.js:22-29 | an array replaces the notifications; anything else leaves them |

## Left out

- Network and storage layers are not part of this model. This covers the REST service modules, `localStorage`, `Login.js`, `Dashboard.js` and `TrackPageView.js`. Their results enter as parameters: `callOk`, the created record, the fetched lists and the stored user.
- The server's HTTP plumbing is not modelled: Express, CORS and `listen`. The socket.io transport is reduced to open connections (a sequence, in connect order, which fixes the broadcast order) and an outbox of deliveries.
- The event loop, React effects (subscription, refetch after a change) and the one-second `setInterval` poll of the activity log are left out. Handlers run as sequential method calls, and each poll is one `Admin.Layout.Poll`.
- The random guest name `"Socket" + Math.floor(Math.random() * 1000)` in the chat widget is not modelled. The widget's name is a constructor argument.
- Media is not modelled: `Recorder.js`, the recording buttons of the meeting list, and object URLs. The image preview address is a parameter.
- Rendering is not modelled: JSX, toasts, modals (except the open/closed flags the handlers set), `window.confirm` (a boolean), `Message.js` and routing. The tutor multi-select shown only to administrators is also left out.
- Text.Lower, Text.Upper: case folding covers ASCII letters only, not Unicode `toLowerCase`/`toUpperCase`.
- MeetingForm.CheckTimesSpec: `datetime-local` parsing is not modelled. Times are whole minutes, and `None` is a value that does not parse.
- The `Intl` date formatting of the last-login line is not modelled. The log time is an opaque string.
- `UserInsert.js`, `UserUpdate.js` and `UserChangePass.js` are not part of this model.
- The relay's payloads are always strings, not arbitrary JSON values.
- ChatServer.Upsert: the registry is a plain object, so `onlineUsers["__proto__"] = id` goes to the prototype setter and creates no key. The model adds `__proto__` like any other name.
- JavaScript orders integer-like object keys numerically. The model keeps plain insertion order for the registry's keys.
- The forum card's comment dialog, and the comment fetch that opening it triggers, are not modelled. The card starts with the comments it is given.
- Forum.ForumPage.HandleDelete: the PostCard's own delete button only forwards to the page handler and is not modelled separately.
- The browser's own form validation is not modelled. The `required` fields of the meeting insert and update forms (name, type, start and end) block the submit before `handleSubmit` runs, so the model's `HandleSubmit` also accepts forms that the browser would stop.
- Student.StudentPage.HandleTutorSelect: `parseInt(tutorId)` in the request is not modelled. The request carries the chosen string.

## Findings

| source | as written | input that shows it | evidently intended | confidence | as-written member | corrected member |
|---|---|---|---|---|---|---|
| project_chat_nodejs/server.js:45 | `if (username) delete onlineUsers[username]` skips the deletion when the found name is the empty string, which is falsy | a client sends `user_connected("")` and then disconnects: `""` stays in the registry with a closed connection and keeps being broadcast | delete whenever a name was found (`username !== undefined`) | not executed | ChatServer.EmptyNameOutlivesDisconnect | ChatServer.Unbind |
