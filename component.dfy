/** `ContactListApp` as a mounted object: the three `useState` slots are its
    fields and each handler is a method that sets them to the next state
    computed by the matching transition of `ContactApp`. Every method states
    the new value of every slot; the properties of those values are proved
    about the transitions and about the list operations of `ContactStore`. */
module ContactListComponent {
  import opened Contacts
  import opened ContactStore
  import opened ContactApp

  class ContactListApp {
    var contacts: seq<Contact>
    var newContact: Draft
    var editingContact: Session

    function State(): AppState
      reads this
    {
      AppState(contacts, newContact, editingContact)
    }

    /** Sets all three slots at once. */
    method SetState(s: AppState)
      modifies this
      ensures State() == s
    {
      contacts, newContact, editingContact := s.contacts, s.draft, s.session;
    }

    /** Mount: an empty store, an empty draft and no edit session. */
    constructor ()
      ensures contacts == [] && newContact == EmptyDraft && editingContact == Idle
      ensures State() == Init()
    {
      contacts, newContact, editingContact := [], EmptyDraft, Idle;
    }

    /** The fetch effect settles with the server's list or a failure. */
    method FetchSettled(response: Response<seq<Contact>>)
      modifies this
      ensures contacts == (if response.Success? then response.data else old(contacts))
      ensures newContact == old(newContact) && editingContact == old(editingContact)
      ensures State() == Loaded(old(State()), response)
    {
      SetState(Loaded(State(), response));
    }

    method HandleInputChange(name: Field, value: string)
      modifies this
      ensures newContact == old(newContact).With(name, value)
      ensures contacts == old(contacts) && editingContact == old(editingContact)
      ensures State() == DraftChanged(old(State()), name, value)
    {
      SetState(DraftChanged(State(), name, value));
    }

    /** The click on Add: the POST is issued and the draft cleared at once. */
    method AddContact()
      modifies this
      ensures newContact == EmptyDraft
      ensures contacts == old(contacts) && editingContact == old(editingContact)
      ensures State() == AddRequested(old(State()))
    {
      SetState(AddRequested(State()));
    }

    /** The POST issued by `AddContact` settles with `response`. */
    method AddSettled(response: Response<Contact>)
      modifies this
      ensures contacts == (if response.Success? then Append(old(contacts), response.data) else old(contacts))
      ensures newContact == old(newContact) && editingContact == old(editingContact)
      ensures State() == Added(old(State()), response)
    {
      SetState(Added(State(), response));
    }

    method UpdateContact(response: Response<Contact>)
      requires editingContact.Editing?
      modifies this
      ensures response.Success? ==>
        contacts == ReplaceById(old(contacts), old(editingContact).copy.id, response.data) &&
        editingContact == Idle
      ensures response.Failure? ==> contacts == old(contacts) && editingContact == old(editingContact)
      ensures newContact == old(newContact)
      ensures State() == Updated(old(State()), response)
    {
      SetState(Updated(State(), response));
    }

    method DeleteContact(id: Id, response: Response<()>)
      modifies this
      ensures contacts == (if response.Success? then RemoveById(old(contacts), id) else old(contacts))
      ensures newContact == old(newContact) && editingContact == old(editingContact)
      ensures State() == Deleted(old(State()), id, response)
    {
      SetState(Deleted(State(), id, response));
    }

    method StartEditing(contact: Contact)
      modifies this
      ensures editingContact == Editing(contact)
      ensures contacts == old(contacts) && newContact == old(newContact)
      ensures State() == StartedEditing(old(State()), contact)
    {
      SetState(StartedEditing(State(), contact));
    }

    method CancelEditing()
      modifies this
      ensures editingContact == Idle
      ensures contacts == old(contacts) && newContact == old(newContact)
      ensures State() == CancelledEditing(old(State()))
    {
      SetState(CancelledEditing(State()));
    }

    /** The `onChange` of the working copy's name, email and phone inputs. */
    method EditWorkingCopy(field: Field, value: string)
      requires editingContact.Editing?
      modifies this
      ensures editingContact == Editing(old(editingContact).copy.With(field, value))
      ensures contacts == old(contacts) && newContact == old(newContact)
      ensures State() == CopyChanged(old(State()), field, value)
    {
      SetState(CopyChanged(State(), field, value));
    }
  }
}
