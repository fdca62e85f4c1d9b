/** The component's state as one value and every handler as a transition of
    it: the reducer view of `ContactListApp` (src/Component/contactList.js).
    A remote call's outcome is an input of the transition that applies it. */
module ContactApp {
  import opened Contacts
  import opened ContactStore

  /** `editingContact`: null, or the working copy of the contact being edited. */
  datatype Session = Idle | Editing(copy: Contact)

  /** The three state slots: `contacts`, `newContact`, `editingContact`. */
  datatype AppState = AppState(contacts: seq<Contact>, draft: Draft, session: Session)

  /** The state at mount (the three `useState` initial values): an empty
      store, a draft whose every field is empty, no edit session. */
  function Init(): (st: AppState)
    ensures st.contacts == [] && st.session == Idle
    ensures forall f :: st.draft.Get(f) == ""
  {
    AppState([], EmptyDraft, Idle)
  }

  /** The initial fetch settles: on success the server's list replaces the
      store as it is; on failure nothing changes. */
  function Loaded(st: AppState, r: Response<seq<Contact>>): (st': AppState)
    ensures r.Success? ==> st'.contacts == r.data
    ensures st'.draft == st.draft && st'.session == st.session
    ensures r.Failure? ==> st' == st
  {
    match r
    case Success(list) => st.(contacts := list)
    case Failure => st
  }

  /** `handleInputChange`: one field of the draft takes the typed value. */
  function DraftChanged(st: AppState, f: Field, v: string): (st': AppState)
    ensures st'.draft.Get(f) == v
    ensures forall g :: g != f ==> st'.draft.Get(g) == st.draft.Get(g)
    ensures st'.contacts == st.contacts && st'.session == st.session
  {
    st.(draft := st.draft.With(f, v))
  }

  /** `addContact` when clicked: the POST is issued and the draft is cleared
      at once, before and whatever the server answers. */
  function AddRequested(st: AppState): (st': AppState)
    ensures forall f :: st'.draft.Get(f) == ""
    ensures st'.contacts == st.contacts && st'.session == st.session
  {
    st.(draft := EmptyDraft)
  }

  /** The POST of `addContact` settles: a created contact is appended once,
      at the end; a failure adds nothing. The draft is not involved. */
  function Added(st: AppState, r: Response<Contact>): (st': AppState)
    ensures st'.draft == st.draft && st'.session == st.session
    ensures r.Success? ==>
      |st'.contacts| == |st.contacts| + 1 &&
      st'.contacts[..|st.contacts|] == st.contacts &&
      st'.contacts[|st.contacts|] == r.data
    ensures r.Failure? ==> st' == st
  {
    match r
    case Success(created) => st.(contacts := Append(st.contacts, created))
    case Failure => st
  }

  /** `updateContact`, which reads the working copy and so runs only during
      an edit session: on success every entry carrying the working copy's
      identifier becomes the server's contact and the session ends; on
      failure store and session stay as they were. */
  function Updated(st: AppState, r: Response<Contact>): (st': AppState)
    requires st.session.Editing?
    ensures |st'.contacts| == |st.contacts|
    ensures st'.draft == st.draft
    ensures r.Success? ==> st'.session == Idle
    ensures r.Success? ==> forall i :: 0 <= i < |st.contacts| ==>
      st'.contacts[i] == (if st.contacts[i].id == st.session.copy.id then r.data else st.contacts[i])
    ensures r.Failure? ==> st' == st
  {
    match r
    case Success(updated) =>
      st.(contacts := ReplaceById(st.contacts, st.session.copy.id, updated), session := Idle)
    case Failure => st
  }

  /** `deleteContact(id)`: on success every entry with identifier `id` is
      gone and the rest keep their order; on failure nothing changes. The
      edit session is not touched either way. */
  function Deleted(st: AppState, id: Id, r: Response<()>): (st': AppState)
    ensures st'.draft == st.draft && st'.session == st.session
    ensures r.Success? ==> st'.contacts == RemoveById(st.contacts, id)
    ensures r.Success? ==> forall i :: 0 <= i < |st'.contacts| ==> st'.contacts[i].id != id
    ensures r.Failure? ==> st' == st
  {
    match r
    case Success(_) => st.(contacts := RemoveById(st.contacts, id))
    case Failure => st
  }

  /** `startEditing(c)`: `c` becomes the working copy, whatever was there. */
  function StartedEditing(st: AppState, c: Contact): (st': AppState)
    ensures st'.session == Editing(c)
    ensures st'.contacts == st.contacts && st'.draft == st.draft
  {
    st.(session := Editing(c))
  }

  /** `cancelEditing`: the working copy is dropped, nothing else changes. */
  function CancelledEditing(st: AppState): (st': AppState)
    ensures st'.session == Idle
    ensures st'.contacts == st.contacts && st'.draft == st.draft
  {
    st.(session := Idle)
  }

  /** The working copy's inputs: one field of the copy takes the typed value;
      its identifier, its other fields and the store stay as they were. */
  function CopyChanged(st: AppState, f: Field, v: string): (st': AppState)
    requires st.session.Editing?
    ensures st'.session.Editing?
    ensures st'.session.copy.id == st.session.copy.id
    ensures st'.session.copy.Get(f) == v
    ensures forall g :: g != f ==> st'.session.copy.Get(g) == st.session.copy.Get(g)
    ensures st'.contacts == st.contacts && st'.draft == st.draft
  {
    st.(session := Editing(st.session.copy.With(f, v)))
  }

  // ---------------------------------------------------------------------
  // One update function over every event the component reacts to

  datatype Event =
    | Fetched(list: Response<seq<Contact>>)
    | DraftInput(field: Field, value: string)
    | AddClicked
    | AddSettled(created: Response<Contact>)
    | UpdateSettled(updated: Response<Contact>)
    | DeleteSettled(target: Id, deleted: Response<()>)
    | EditClicked(contact: Contact)
    | CancelClicked
    | CopyInput(copyField: Field, copyValue: string)

  /** Update and the working-copy inputs exist only while a contact is being
      edited. */
  predicate Enabled(st: AppState, e: Event) {
    match e
    case UpdateSettled(_) => st.session.Editing?
    case CopyInput(_, _) => st.session.Editing?
    case _ => true
  }

  /** The handler that answers each event. The store changes only when a
      remote call is confirmed, the draft only by typing into it or adding,
      and the session only by the edit controls or a confirmed update. */
  function Step(st: AppState, e: Event): (st': AppState)
    requires Enabled(st, e)
    ensures Confirmed(e) || st'.contacts == st.contacts
    ensures e.DraftInput? || e.AddClicked? || st'.draft == st.draft
    ensures e.EditClicked? || e.CancelClicked? || e.CopyInput? || (e.UpdateSettled? && e.updated.Success?)
            || st'.session == st.session
  {
    match e
    case Fetched(r) => Loaded(st, r)
    case DraftInput(f, v) => DraftChanged(st, f, v)
    case AddClicked => AddRequested(st)
    case AddSettled(r) => Added(st, r)
    case UpdateSettled(r) => Updated(st, r)
    case DeleteSettled(id, r) => Deleted(st, id, r)
    case EditClicked(c) => StartedEditing(st, c)
    case CancelClicked => CancelledEditing(st)
    case CopyInput(f, v) => CopyChanged(st, f, v)
  }

  /** A remote call that came back with success. */
  predicate Confirmed(e: Event) {
    match e
    case Fetched(r) => r.Success?
    case AddSettled(r) => r.Success?
    case UpdateSettled(r) => r.Success?
    case DeleteSettled(_, r) => r.Success?
    case _ => false
  }

  /** `es` can be handled one event after another from `st`. */
  predicate Runnable(st: AppState, es: seq<Event>)
    decreases |es|
  {
    es == [] || (Enabled(st, es[0]) && Runnable(Step(st, es[0]), es[1..]))
  }

  function Run(st: AppState, es: seq<Event>): AppState
    requires Runnable(st, es)
    decreases |es|
  {
    if es == [] then st else Run(Step(st, es[0]), es[1..])
  }

  /** Any run of typing, editing, cancelling and failed remote calls leaves
      the store exactly as it was. */
  lemma {:induction false} UnconfirmedRunKeepsStore(st: AppState, es: seq<Event>)
    requires Runnable(st, es)
    requires forall i :: 0 <= i < |es| ==> !Confirmed(es[i])
    ensures Run(st, es).contacts == st.contacts
    decreases |es|
  {
    if es != [] {
      UnconfirmedRunKeepsStore(Step(st, es[0]), es[1..]);
    }
  }

  // ---------------------------------------------------------------------
  // Unique identifiers, when the server keeps its side of the contract

  /** What the server has to return for the store's identifiers to stay
      unique: a list without duplicates, a created contact with a fresh
      identifier, an updated contact that keeps its identifier or takes a
      fresh one. */
  ghost predicate Honest(st: AppState, e: Event) {
    match e
    case Fetched(Success(list)) => UniqueIds(list)
    case AddSettled(Success(c)) => !HasId(st.contacts, c.id)
    case UpdateSettled(Success(c)) =>
      st.session.Editing? && (c.id == st.session.copy.id || !HasId(st.contacts, c.id))
    case _ => true
  }

  ghost predicate HonestRun(st: AppState, es: seq<Event>)
    requires Runnable(st, es)
    decreases |es|
  {
    es == [] || (Honest(st, es[0]) && HonestRun(Step(st, es[0]), es[1..]))
  }

  /** Each handler keeps the identifiers unique when the server is honest. */
  lemma StepKeepsUniqueIds(st: AppState, e: Event)
    requires Enabled(st, e) && UniqueIds(st.contacts) && Honest(st, e)
    ensures UniqueIds(Step(st, e).contacts)
  {
    match e
    case AddSettled(Success(c)) => AppendKeepsUnique(st.contacts, c);
    case UpdateSettled(Success(c)) => ReplaceKeepsUnique(st.contacts, st.session.copy.id, c);
    case DeleteSettled(id, Success(_)) => RemoveKeepsUnique(st.contacts, id);
    case _ =>
  }

  /** From mount on, an honest server keeps every identifier in the store
      unique, through any sequence of events. */
  lemma {:induction false} RunKeepsUniqueIds(st: AppState, es: seq<Event>)
    requires Runnable(st, es) && HonestRun(st, es) && UniqueIds(st.contacts)
    ensures UniqueIds(Run(st, es).contacts)
    decreases |es|
  {
    if es != [] {
      StepKeepsUniqueIds(st, es[0]);
      RunKeepsUniqueIds(Step(st, es[0]), es[1..]);
    }
  }

  lemma MountedStoreIsUnique(es: seq<Event>)
    requires Runnable(Init(), es) && HonestRun(Init(), es)
    ensures UniqueIds(Run(Init(), es).contacts)
  {
    RunKeepsUniqueIds(Init(), es);
  }
}
