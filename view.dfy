/** Which handlers the rendered list lets the user reach. A row shows the
    editor (the working-copy inputs with Update and Cancel, lines 66-88 of
    src/Component/contactList.js) only when the row's contact "is" the
    working copy; every other row shows Edit and Delete.

    As written, line 66 compares object references. Values carry no object
    identity, so `Screen` records it as one bit: whether `editingContact` is
    still the very object some row holds. Each working-copy keystroke
    replaces `editingContact` by a fresh spread object, so the bit drops and
    the editor is gone after the first character typed.

    Corrected, a row shows the editor when its identifier is the working
    copy's; that needs no extra state, and typing keeps the editor open. */
module ContactView {
  import opened Contacts
  import opened ContactStore
  import opened ContactApp

  // ---------------------------------------------------------------------
  // As written: `editingContact === contact`

  /** The component's state plus whether `editingContact` is the object one
      of the rendered rows holds. */
  datatype Screen = Screen(app: AppState, editorOpen: bool)

  function Mounted(): Screen {
    Screen(Init(), false)
  }

  /** While the editor is open, the working copy is a row's own object, so
      it is a stored contact, unmodified. */
  ghost predicate Consistent(sc: Screen) {
    sc.editorOpen ==> sc.app.session.Editing? && sc.app.session.copy in sc.app.contacts
  }

  /** The events the rendered view can produce, as written. Edit and Delete
      sit on a row; Update, Cancel and the working-copy inputs only on the
      row showing the editor. */
  ghost predicate ShownAsWritten(sc: Screen, e: Event) {
    match e
    case EditClicked(c) => c in sc.app.contacts
    case DeleteSettled(id, _) => HasId(sc.app.contacts, id)
    case UpdateSettled(_) => sc.editorOpen
    case CancelClicked => sc.editorOpen
    case CopyInput(_, _) => sc.editorOpen
    case _ => true
  }

  /** Whether, after `e`, some row still holds the object `editingContact`
      refers to. */
  function EditorAfter(sc: Screen, e: Event): bool {
    match e
    case EditClicked(_) => true                        // line 51: the row's own object
    case CopyInput(_, _) => false                      // lines 72-84: a fresh spread object
    case CancelClicked => false                        // line 55: null
    case UpdateSettled(r) => sc.editorOpen && r.Failure?  // line 38: null on success
    case Fetched(r) => sc.editorOpen && r.Failure?     // line 13: all new row objects
    case DeleteSettled(id, r) =>                       // line 46: `filter` keeps the other objects
      sc.editorOpen && (r.Failure? || (sc.app.session.Editing? && sc.app.session.copy.id != id))
    case _ => sc.editorOpen                            // typing in the draft, add: rows kept
  }

  function ViewStep(sc: Screen, e: Event): (sc': Screen)
    requires Consistent(sc) && ShownAsWritten(sc, e)
    ensures sc'.app == Step(sc.app, e)
    ensures Consistent(sc')
  {
    match e
    case AddSettled(r) =>
      assert sc.editorOpen ==> sc.app.session.copy in Step(sc.app, e).contacts by {
        if sc.editorOpen && r.Success? {
          assert Step(sc.app, e).contacts == sc.app.contacts + [r.data];
        }
      }
      Screen(Step(sc.app, e), EditorAfter(sc, e))
    case DeleteSettled(id, r) =>
      assert EditorAfter(sc, e) ==> sc.app.session.copy in Step(sc.app, e).contacts by {
        if EditorAfter(sc, e) && r.Success? {
          RemoveMembers(sc.app.contacts, id, sc.app.session.copy);
        }
      }
      Screen(Step(sc.app, e), EditorAfter(sc, e))
    case _ => Screen(Step(sc.app, e), EditorAfter(sc, e))
  }

  /** As written, the first keystroke in the working copy closes the editor:
      neither Update nor Cancel nor a second keystroke can follow it. */
  lemma KeystrokeClosesEditor(sc: Screen, f: Field, v: string, r: Response<Contact>)
    requires Consistent(sc) && ShownAsWritten(sc, CopyInput(f, v))
    ensures
      var sc' := ViewStep(sc, CopyInput(f, v));
      !ShownAsWritten(sc', UpdateSettled(r)) && !ShownAsWritten(sc', CancelClicked) &&
      !ShownAsWritten(sc', CopyInput(f, v))
  {
  }

  /** As written, every update the view can issue sends a working copy that
      is a stored contact exactly as it was: a typed change never reaches
      the PUT. Store `[A]`, Edit A, type "B": Update is no longer shown. */
  lemma AsWrittenUpdateSendsStoredCopy(sc: Screen, r: Response<Contact>)
    requires Consistent(sc) && ShownAsWritten(sc, UpdateSettled(r))
    ensures sc.app.session.Editing? && sc.app.session.copy in sc.app.contacts
  {
  }

  lemma AsWrittenEditIsLost(email: string, phone: string, d: Draft, r: Response<Contact>)
    ensures
      var a := Contact(1, "A", email, phone);
      var s1 := ViewStep(Screen(AppState([a], d, Idle), false), EditClicked(a));
      var s2 := ViewStep(s1, CopyInput(Name, "B"));
      s2.app.session == Editing(Contact(1, "B", email, phone)) &&
      !ShownAsWritten(s2, UpdateSettled(r))
  {
  }

  // ---------------------------------------------------------------------
  // Corrected: `editingContact && editingContact.id === contact.id`

  /** Some row carries the working copy's identifier, so it shows the editor. */
  ghost predicate EditorShown(st: AppState) {
    st.session.Editing? && HasId(st.contacts, st.session.copy.id)
  }

  /** The events the rendered view can produce once line 66 compares
      identifiers. */
  ghost predicate Shown(st: AppState, e: Event) {
    match e
    case EditClicked(c) => c in st.contacts
    case DeleteSettled(id, _) => HasId(st.contacts, id)
    case UpdateSettled(_) => EditorShown(st)
    case CancelClicked => EditorShown(st)
    case CopyInput(_, _) => EditorShown(st)
    case _ => true
  }

  lemma ShownIsEnabled(st: AppState, e: Event)
    requires Shown(st, e)
    ensures Enabled(st, e)
  {
  }

  /** Corrected, typing into the working copy keeps the editor open, so the
      user can go on typing, cancel or update. */
  lemma KeystrokeKeepsEditor(st: AppState, f: Field, v: string, r: Response<Contact>)
    requires Shown(st, CopyInput(f, v))
    ensures
      var st' := Step(st, CopyInput(f, v));
      Shown(st', UpdateSettled(r)) && Shown(st', CancelClicked) && Shown(st', CopyInput(f, v))
  {
  }

  /** Corrected, an edit typed into the working copy of stored entry `k` can
      be sent; if the server echoes the PUT body, entry `k` then carries the
      typed value and the rest of that contact unchanged. */
  lemma TypedEditIsCommitted(st: AppState, k: nat, f: Field, v: string)
    requires k < |st.contacts|
    ensures
      var c := st.contacts[k];
      var s1 := Step(st, EditClicked(c));
      var s2 := Step(s1, CopyInput(f, v));
      var s3 := Step(s2, UpdateSettled(Success(s2.session.copy)));
      Shown(st, EditClicked(c)) && Shown(s1, CopyInput(f, v)) &&
      Shown(s2, UpdateSettled(Success(s2.session.copy))) &&
      s3.contacts[k] == c.With(f, v) && s3.session == Idle
  {
  }
}
