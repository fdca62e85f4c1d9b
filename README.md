# Contact list: a verified model of its state transitions

The repository is a single React component, `ContactListApp`
(`src/Component/contactList.js`). It lists contacts fetched from a REST
collection and lets the user add, edit and delete them. Each change is
issued as a remote call, and the local list is reconciled with the server's
answer only when that call succeeds. The component keeps three state slots:

- `contacts`: the ordered contact store.
- `newContact`: the draft of a contact that has no identifier yet.
- `editingContact`: null, or a working copy of the contact being edited.

This project models those three slots and every handler that sets them.
Each handler becomes a transition over the slots, and the properties the
component relies on are proved about those transitions.

- `contacts.dfy`, module `Contacts`: the values.
  - `Contact` has an integer `Id`.
  - `Draft` has no identifier.
  - `Field` is one of the three inputs (name, email, phone).
  - `Response<T>` is a remote call's outcome: `Success(data)` or `Failure`.
  - `With` on a contact or a draft is the object spread `{ ...x, [f]: v }`.
- `store.dfy`, module `ContactStore`: the list operations a successful remote call applies.
  - `Append` is `[...contacts, c]`.
  - `ReplaceById` is the identifier `map`.
  - `RemoveById` is the identifier `filter`.
  - The lemmas cover contents, order, misses, idempotence and the effect on identifier uniqueness.
- `app.dfy`, module `ContactApp`: the reducer.
  - `AppState` holds the three slots, and `Session` (`Idle | Editing(copy)`) stands for `editingContact`.
  - There is one function per handler. `addContact` is two events: the click, which clears the draft, and the POST's answer, which appends.
  - `Step` and `Run` apply a sequence of events.
  - Two invariants are proved over whole runs: the store changes only on a confirmed remote call, and an honest server keeps identifiers unique.
- `component.dfy`, module `ContactListComponent`: the component as an object.
  - Its three fields are the state slots, and its methods are the handlers.
  - Each method sets the slots to the matching reducer transition's result and states every slot's new value.
- `view.dfy`, module `ContactView`: which handlers the rendered list lets the user reach.
  - As written, line 66 picks the editor row by object reference; `Screen` tracks that reference as one bit.
  - `Shown` is the corrected view, which picks the editor row by identifier (see "## Findings").
- `scenarios.dfy`, module `ContactScenarios`: short runs of the component, written as lemmas.
  - An edit stays local until confirmed.
  - A failed add still clears the draft.
  - A new edit discards the old one.
  - A replayed load gives the same store.
  - An update that settles after the edited contact's delete has settled changes nothing in the store.

Remote calls are not performed. The outcome of each call is an input of the
transition that applies it. Events are applied one at a time, each to the
current state.

Three facts about the code that the model keeps:

- `map` (line 37) and `filter` (line 46) act on every entry with the
  identifier, not only the first. `ReplaceUnique` and `RemoveUnique` give
  the single-entry case when identifiers are unique.
- The update matches `editingContact.id` (line 37), not the response's
  identifier.
- The code never checks that identifiers are unique. `Honest` states what
  the server must return for that to hold, and `RunKeepsUniqueIds` proves
  that it then does.

## Model

| member | source | states |
|---|---|---|
| `Contacts.Draft.With` | src/Component/contactList.js:18-21 | the named draft field takes the typed value and every other draft field is unchanged |
| `Contacts.Contact.With` | src/Component/contactList.js:72-84 | the named working-copy field takes the typed value; the identifier and the other fields are unchanged |
| `ContactStore.Append` | src/Component/contactList.js:26 | the store grows by exactly one entry, the old store is a prefix, the new contact is last, and it is added exactly once (multiset) |
| `ContactStore.ReplaceById` | src/Component/contactList.js:37 | length is preserved; every position whose identifier matches becomes the new contact, every other position is unchanged |
| `ContactStore.ReplaceMiss` | src/Component/contactList.js:37 | if no entry has the identifier, the store is unchanged (no insert on a miss) |
| `ContactStore.ReplaceUnique` | src/Component/contactList.js:37 | with unique identifiers, a replace changes the single matching position and nothing else |
| `ContactStore.ReplaceKeepsUnique` | src/Component/contactList.js:37 | a replacement that keeps the identifier, or takes a fresh one, keeps identifiers unique |
| `ContactStore.RemoveById` | src/Component/contactList.js:46 | no remaining entry has the deleted identifier, and the store never grows |
| `ContactStore.RemoveCounts` | src/Component/contactList.js:46 | each entry with another identifier is kept as many times as before; entries with the deleted identifier are kept zero times |
| `ContactStore.RemoveMembers` | src/Component/contactList.js:46 | an entry remains if and only if it was present and has another identifier |
| `ContactStore.RemoveConcat` | src/Component/contactList.js:46 | deleting from a concatenation equals concatenating the deletions |
| `ContactStore.RemoveIsSubsequence` | src/Component/contactList.js:46 | the remaining entries keep their original relative order |
| `ContactStore.RemoveIsTheFilter` | src/Component/contactList.js:46 | only one order-keeping selection drops every match and keeps every other entry, and it equals the delete |
| `ContactStore.RemoveMiss` | src/Component/contactList.js:46 | deleting an absent identifier leaves the store unchanged |
| `ContactStore.RemoveTwice` | src/Component/contactList.js:46 | deleting the same identifier twice gives the same result as deleting it once |
| `ContactStore.RemoveUnique` | src/Component/contactList.js:46 | deleting an identifier that only position k carries removes exactly that entry |
| `ContactStore.RemoveKeepsUnique` | src/Component/contactList.js:46 | a delete keeps identifiers unique |
| `ContactStore.AppendKeepsUnique` | src/Component/contactList.js:26 | an append keeps identifiers unique if and only if the created identifier is new to the store |
| `ContactApp.Init` | src/Component/contactList.js:6-8 | the store starts empty, every draft field is empty, and no contact is being edited |
| `ContactApp.Loaded` | src/Component/contactList.js:10-15 | a successful fetch replaces the store with the server's list as given; a failure changes nothing; the draft and the session are never touched |
| `ContactApp.DraftChanged` | src/Component/contactList.js:18-21 | exactly the named draft field changes; the store and the session are unchanged |
| `ContactApp.AddRequested` | src/Component/contactList.js:23-31 | a click on Add empties every draft field before any answer arrives; the store and the session are unchanged |
| `ContactApp.Added` | src/Component/contactList.js:26-27 | on success the created contact is appended once at the end; on failure nothing changes; the draft and the session are never touched |
| `ContactApp.Updated` | src/Component/contactList.js:33-41 | on success length is preserved, every entry with the working copy's identifier becomes the server's contact, all others are unchanged, and the session ends; on failure store, session and draft are unchanged |
| `ContactApp.Deleted` | src/Component/contactList.js:43-48 | on success every entry with the identifier is removed; on failure nothing changes; the draft and the session are never touched |
| `ContactApp.StartedEditing` | src/Component/contactList.js:50-52 | the session becomes exactly the given contact, replacing any earlier copy without merging; the store and the draft are unchanged |
| `ContactApp.CancelledEditing` | src/Component/contactList.js:54-56 | the session ends; the store and the draft are unchanged |
| `ContactApp.CopyChanged` | src/Component/contactList.js:72-84 | only the named field of the working copy changes; its identifier, the store and the draft are unchanged |
| `ContactApp.Step` | src/Component/contactList.js:10-84 | the store changes only on a successful remote call; the draft only by typing into it or clicking Add; the edit session only by Edit, Cancel, a working-copy keystroke or a successful update |
| `ContactApp.UnconfirmedRunKeepsStore` | src/Component/contactList.js:10-56 | any run of typing, editing, cancelling and failed calls leaves the store unchanged |
| `ContactApp.StepKeepsUniqueIds` | src/Component/contactList.js:10-56 | every handler keeps identifiers unique when the server's answers are honest |
| `ContactApp.RunKeepsUniqueIds` | src/Component/contactList.js:10-56 | identifier uniqueness holds through any run of events that the server answers honestly |
| `ContactApp.MountedStoreIsUnique` | src/Component/contactList.js:6-15 | from mount, with an empty store, every reachable store has unique identifiers when the server is honest |
| `ContactListComponent.ContactListApp.constructor` | src/Component/contactList.js:6-8 | mount starts with an empty store, an empty draft and no edit session |
| `ContactListComponent.ContactListApp.FetchSettled` | src/Component/contactList.js:10-15 | the store becomes the fetched list on success and is kept on failure; the other slots are unchanged |
| `ContactListComponent.ContactListApp.HandleInputChange` | src/Component/contactList.js:18-21 | the draft gets one field overwritten; the other slots are unchanged |
| `ContactListComponent.ContactListApp.AddContact` | src/Component/contactList.js:23-31 | the click clears the draft; the store and the session are unchanged |
| `ContactListComponent.ContactListApp.AddSettled` | src/Component/contactList.js:26-27 | the store is appended to on success and kept on failure; the draft and the session are unchanged |
| `ContactListComponent.ContactListApp.UpdateContact` | src/Component/contactList.js:33-41 | on success the store is replaced by identifier and the session ends; on failure both are kept |
| `ContactListComponent.ContactListApp.DeleteContact` | src/Component/contactList.js:43-48 | the store is filtered by identifier on success and kept on failure |
| `ContactListComponent.ContactListApp.StartEditing` | src/Component/contactList.js:50-52 | the session becomes the given contact |
| `ContactListComponent.ContactListApp.CancelEditing` | src/Component/contactList.js:54-56 | the session becomes null |
| `ContactListComponent.ContactListApp.EditWorkingCopy` | src/Component/contactList.js:72-84 | the working copy gets one field overwritten; the other slots are unchanged |
| `ContactView.ViewStep` | src/Component/contactList.js:63-101 | as written, the handlers' new state plus whether a row still holds the `editingContact` object; while the editor is open, the working copy is a stored contact |
| `ContactView.KeystrokeClosesEditor` | src/Component/contactList.js:66-87 | as written, after one working-copy keystroke neither Update, Cancel nor another keystroke is shown |
| `ContactView.AsWrittenUpdateSendsStoredCopy` | src/Component/contactList.js:66-87 | as written, any update the view can issue sends a working copy that is a stored contact, unchanged |
| `ContactView.AsWrittenEditIsLost` | src/Component/contactList.js:66-87 | as written, with store `[A]`, Edit A then typing "B" leaves the copy at "B" and the Update button gone |
| `ContactView.ShownIsEnabled` | src/Component/contactList.js:63-101 | every event the corrected view shows can be handled |
| `ContactView.KeystrokeKeepsEditor` | src/Component/contactList.js:66-87 | corrected, a keystroke in the working copy keeps Update, Cancel and the inputs shown |
| `ContactView.TypedEditIsCommitted` | src/Component/contactList.js:33-87 | corrected, Edit, one keystroke and an update echoed by the server leave the stored entry with the typed value, and the session ends |
| `ContactScenarios.InitialLoad` | src/Component/contactList.js:6-15 | the store starts empty and becomes the server's list on success, or stays empty on failure |
| `ContactScenarios.LoadReplay` | src/Component/contactList.js:13 | applying the same fetched list twice gives the same state as applying it once, whatever the store held before |
| `ContactScenarios.EditIsLocalUntilUpdate` | src/Component/contactList.js:33-84 | in the corrected view, renaming "A" to "B" in the working copy leaves the store showing "A"; a confirmed update gives the store `[B]` and ends the session |
| `ContactScenarios.FailedAddLosesDraft` | src/Component/contactList.js:25-30 | clicking Add with the draft `{X, y@z, 1}`, then a failed POST, leaves the draft empty and the store unchanged |
| `ContactScenarios.NewEditDiscardsOld` | src/Component/contactList.js:50-52 | starting to edit Y while editing X drops X's unsaved copy |
| `ContactScenarios.UpdateAfterDelete` | src/Component/contactList.js:33-48 | applied one event at a time, an update settling after the edited contact's delete has settled changes nothing in the store and ends the session |
| `ContactScenarios.FailedUpdateKeepsSession` | src/Component/contactList.js:35-40 | a failed update leaves the whole state, including the working copy, unchanged |

## Findings

| source | as written | input that shows it | evidently intended | confidence | as-written member | corrected member |
|---|---|---|---|---|---|---|
| src/Component/contactList.js:66 | `editingContact === contact` compares object references. Each working-copy keystroke (lines 72-84) replaces `editingContact` by a new object, so no row matches and the editor with its Update and Cancel buttons (lines 86-87) is removed | store `[A]`; click Edit on A; type "B" into the name | the editor stays open while the copy is edited, for example by comparing identifiers, so that Update sends the edited copy | not executed; high | `ContactView.AsWrittenEditIsLost` | `ContactView.KeystrokeKeepsEditor` |

Through the view as written, Update can be clicked only before any
keystroke, so it sends an unchanged copy (`AsWrittenUpdateSendsStoredCopy`).
The corrected view is `Shown`, and the runs in `EditIsLocalUntilUpdate` and
`TypedEditIsCommitted` go through it.

## Left out

- HTTP transport (lines 12, 25, 35, 45): the GET, POST, PUT and DELETE calls, their URLs and request bodies are foreign I/O. Each call's outcome is an input to a transition, as a `Response` value.
- Error logging (`console.error`, lines 14, 27, 40, 47) is a side effect with no state. The failure path is modelled as "no state change".
- Asynchrony: each `.then` callback captures `contacts` and `editingContact` when the call is issued, so overlapping requests race and the last writer wins. The model applies each outcome to the current state, one event at a time. For example, if Update is clicked before a DELETE of the same contact settles, the PUT's callback maps the store captured at the click and brings the deleted contact back. `UpdateAfterDelete` holds only in the sequential model.
- ContactApp.Enabled: it demands only what the handlers need, an edit session for `updateContact` and the working-copy inputs, which dereference `editingContact`. It admits runs the view as written cannot produce: there, a keystroke closes the editor, so a working-copy keystroke happens at most once per session and an update only before any keystroke. `ContactView.ShownAsWritten` states those limits, and `ContactView.Shown` states the corrected ones. The run-level invariants in `ContactApp` hold for every enabled run, and so for these too.
- ContactView.ShownAsWritten: it does not hide Edit and Delete on the row that shows the editor, since which row that is depends on object identity, which values do not carry.
- `handleInputChange` writes whichever field the input's `name` attribute names. The only inputs are name, email and phone, so the field is an enumeration of those three.
- Rendering (lines 58-132): markup and layout. Line 66's choice of the editor row is modelled only as the set of events the view offers (`ContactView`).
- Extra fields in server responses are passed through by the source. A contact here has just its four named fields.
- Styling, the React and axios imports, and the module export.
