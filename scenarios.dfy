/** Short runs of the component's handlers, applied one event at a time,
    stated over all inputs where the run allows it and over concrete records
    otherwise. */
module ContactScenarios {
  import opened Contacts
  import opened ContactStore
  import opened ContactApp
  import opened ContactView

  /** The store starts empty; the initial fetch either installs the server's
      list in the server's order or, failing, leaves the store empty. */
  lemma InitialLoad(r: Response<seq<Contact>>)
    ensures Loaded(Init(), r).contacts == (if r.Success? then r.data else [])
    ensures Loaded(Init(), r).draft == EmptyDraft && Loaded(Init(), r).session == Idle
  {
  }

  /** Applying the same successful list twice is the same as applying it
      once, whatever the store held before. */
  lemma LoadReplay(st: AppState, list: seq<Contact>)
    ensures Loaded(Loaded(st, Success(list)), Success(list)) == Loaded(st, Success(list))
    ensures Loaded(st, Success(list)).contacts == list
  {
  }

  /** Typing into the working copy changes the copy only: the store shows the
      old name until the update is confirmed, and then shows the server's
      record while the session ends. This is a run of the handlers that the
      view reaches once its editor row is chosen by identifier (`Shown`); as
      written, the keystroke closes the editor first (`AsWrittenEditIsLost`). */
  lemma EditIsLocalUntilUpdate(email: string, phone: string, d: Draft)
    ensures
      var a := Contact(1, "A", email, phone);
      var b := Contact(1, "B", email, phone);
      var s0 := AppState([a], d, Idle);
      var s1 := Step(s0, EditClicked(a));
      var s2 := Step(s1, CopyInput(Name, "B"));
      Shown(s0, EditClicked(a)) && Shown(s1, CopyInput(Name, "B")) &&
      Shown(s2, UpdateSettled(Success(b))) &&
      s2.contacts == [a] && s2.session == Editing(b) &&
      Step(s2, UpdateSettled(Success(b))) == AppState([b], d, Idle)
  {
  }

  /** A failed create still clears what the user typed, and adds nothing:
      the draft is cleared when Add is clicked, before the POST settles. */
  lemma FailedAddLosesDraft(s: seq<Contact>, session: Session)
    ensures
      var st := AppState(s, Draft("X", "y@z", "1"), session);
      Step(Step(st, AddClicked), AddSettled(Failure)) == AppState(s, EmptyDraft, session)
  {
  }

  /** Starting to edit another contact drops the unsaved working copy of the
      first without merging anything from it. */
  lemma NewEditDiscardsOld(st: AppState, x: Contact, y: Contact, f: Field, v: string)
    ensures
      var editingX := Step(Step(st, EditClicked(x)), CopyInput(f, v));
      Step(editingX, EditClicked(y)).session == Editing(y) &&
      Step(editingX, EditClicked(y)).contacts == st.contacts
  {
  }

  /** When events are applied one at a time, an update that settles after
      the delete of the edited contact has settled finds no entry with its
      identifier: it changes nothing in the store and ends the session.
      This is a property of the sequential model only: in the source, the
      PUT's callback maps the store captured when Update was clicked, so a
      PUT issued before the DELETE settled brings the contact back. */
  lemma UpdateAfterDelete(st: AppState, server: Contact)
    requires st.session.Editing?
    ensures
      var afterDelete := Step(st, DeleteSettled(st.session.copy.id, Success(())));
      var afterUpdate := Step(afterDelete, UpdateSettled(Success(server)));
      afterUpdate.contacts == afterDelete.contacts && afterUpdate.session == Idle
  {
  }

  /** A failed update leaves the store and the working copy as they were, so
      the user can try again with the same edits. */
  lemma FailedUpdateKeepsSession(st: AppState)
    requires st.session.Editing?
    ensures Step(st, UpdateSettled(Failure)) == st
  {
  }
}
