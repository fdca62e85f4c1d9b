/** The values the contact list works on: a contact as the remote collection
    returns it, the new-contact draft that has no identifier yet, the three
    editable fields, and the outcome of a remote call. */
module Contacts {

  /** Identifiers are assigned by the remote collection and only compared. */
  type Id = int

  /** The three text inputs of a contact; the `name` attribute of each input. */
  datatype Field = Name | Email | Phone

  /** The new-contact draft: a contact without an identifier. */
  datatype Draft = Draft(name: string, email: string, phone: string) {

    function Get(f: Field): string {
      match f
      case Name => name
      case Email => email
      case Phone => phone
    }

    /** `{ ...prevContact, [name]: value }` in the draft's input handler. */
    function With(f: Field, v: string): (r: Draft)
      ensures r.Get(f) == v
      ensures forall g :: g != f ==> r.Get(g) == Get(g)
    {
      match f
      case Name => this.(name := v)
      case Email => this.(email := v)
      case Phone => this.(phone := v)
    }
  }

  /** A contact record with the four fields the component reads. */
  datatype Contact = Contact(id: Id, name: string, email: string, phone: string) {

    /** The three editable fields, in the draft's shape. */
    function Fields(): Draft {
      Draft(name, email, phone)
    }

    function Get(f: Field): string {
      Fields().Get(f)
    }

    /** Object spread with one field overwritten: `{ ...c, [f]: v }`. */
    function With(f: Field, v: string): (r: Contact)
      ensures r.Get(f) == v
      ensures forall g :: g != f ==> r.Get(g) == Get(g)
      ensures r.id == id
    {
      var d := Fields().With(f, v);
      Contact(id, d.name, d.email, d.phone)
    }
  }

  /** The draft with every field empty: the initial draft and the one left
      behind by every add. */
  const EmptyDraft: Draft := Draft("", "", "")

  /** How a remote call settles: its response body, or a failure of any kind
      (network error, error status, malformed body are not told apart). */
  datatype Response<T> = Success(data: T) | Failure
}
