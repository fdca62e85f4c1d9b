/** The contact store as an ordered sequence, and the three ways a remote
    response reshapes it: append on create, `map` by identifier on replace,
    `filter` by identifier on delete. */
module ContactStore {
  import opened Contacts

  /** Some entry of the store carries identifier `id`. */
  ghost predicate HasId(s: seq<Contact>, id: Id) {
    exists i :: 0 <= i < |s| && s[i].id == id
  }

  /** No two entries of the store share an identifier. */
  ghost predicate UniqueIds(s: seq<Contact>) {
    forall i, j :: 0 <= i < j < |s| ==> s[i].id != s[j].id
  }

  /** `t` is `s` with some entries dropped and the rest in their order. */
  ghost predicate IsSubsequence(t: seq<Contact>, s: seq<Contact>)
    decreases |s|
  {
    if t == [] then true
    else if s == [] then false
    else (t[0] == s[0] && IsSubsequence(t[1..], s[1..])) || IsSubsequence(t, s[1..])
  }

  /** `[...contacts, response.data]`: the created contact at the end. */
  function Append(s: seq<Contact>, c: Contact): (r: seq<Contact>)
    ensures |r| == |s| + 1
    ensures r[..|s|] == s && r[|s|] == c
    ensures multiset(r) == multiset(s) + multiset{c}
  {
    s + [c]
  }

  /** `contacts.map(x => x.id === id ? c : x)`: every entry whose identifier
      is `id` becomes `c`, every other entry stays where it was. */
  function ReplaceById(s: seq<Contact>, id: Id, c: Contact): (r: seq<Contact>)
    ensures |r| == |s|
    ensures forall i :: 0 <= i < |s| ==> r[i] == (if s[i].id == id then c else s[i])
  {
    if s == [] then []
    else [if s[0].id == id then c else s[0]] + ReplaceById(s[1..], id, c)
  }

  /** `contacts.filter(x => x.id !== id)`: every entry with identifier `id` is
      gone; the other entries keep their order. */
  function RemoveById(s: seq<Contact>, id: Id): (r: seq<Contact>)
    ensures |r| <= |s|
    ensures forall i :: 0 <= i < |r| ==> r[i].id != id
  {
    if s == [] then []
    else if s[0].id == id then RemoveById(s[1..], id)
    else [s[0]] + RemoveById(s[1..], id)
  }

  /** A delete keeps each entry with another identifier as often as it was,
      and no entry with the deleted one. */
  lemma {:induction false} RemoveCounts(s: seq<Contact>, id: Id)
    ensures forall x :: multiset(RemoveById(s, id))[x] == if x.id == id then 0 else multiset(s)[x]
  {
    if s != [] {
      RemoveCounts(s[1..], id);
      assert s == [s[0]] + s[1..];
    }
  }

  // ---------------------------------------------------------------------
  // Replace by identifier

  /** A replace whose identifier matches no entry leaves the store as it was
      (no insert on a miss). */
  lemma ReplaceMiss(s: seq<Contact>, id: Id, c: Contact)
    requires !HasId(s, id)
    ensures ReplaceById(s, id, c) == s
  {
  }

  /** With unique identifiers, a replace touches the single matching entry
      in place. */
  lemma ReplaceUnique(s: seq<Contact>, k: nat, c: Contact)
    requires UniqueIds(s) && k < |s|
    ensures ReplaceById(s, s[k].id, c) == s[k := c]
  {
  }

  /** Replacing an entry by a contact with the same identifier keeps the
      identifiers unique; so does one with an identifier not yet in use. */
  lemma ReplaceKeepsUnique(s: seq<Contact>, id: Id, c: Contact)
    requires UniqueIds(s)
    requires c.id == id || !HasId(s, c.id)
    ensures UniqueIds(ReplaceById(s, id, c))
  {
  }

  // ---------------------------------------------------------------------
  // Remove by identifier

  /** Membership after a delete: exactly the entries with another identifier. */
  lemma RemoveMembers(s: seq<Contact>, id: Id, x: Contact)
    ensures x in RemoveById(s, id) <==> x in s && x.id != id
  {
  }

  /** Delete distributes over concatenation. */
  lemma {:induction false} RemoveConcat(a: seq<Contact>, b: seq<Contact>, id: Id)
    ensures RemoveById(a + b, id) == RemoveById(a, id) + RemoveById(b, id)
  {
    if a == [] {
      assert a + b == b;
    } else {
      assert (a + b)[1..] == a[1..] + b;
      RemoveConcat(a[1..], b, id);
    }
  }

  /** Deleting an identifier no entry carries leaves the store as it was. */
  lemma {:induction false} RemoveMiss(s: seq<Contact>, id: Id)
    requires !HasId(s, id)
    ensures RemoveById(s, id) == s
  {
    if s != [] {
      assert s[0].id != id;
      forall i | 0 <= i < |s[1..]| ensures s[1..][i].id != id {
        assert s[1..][i] == s[i + 1];
      }
      RemoveMiss(s[1..], id);
      assert s == [s[0]] + s[1..];
    }
  }

  /** Deleting the same identifier twice is the same as deleting it once. */
  lemma RemoveTwice(s: seq<Contact>, id: Id)
    ensures RemoveById(RemoveById(s, id), id) == RemoveById(s, id)
  {
  }

  /** Deleting an identifier that only entry `k` carries removes exactly that
      entry and keeps all others in their order. */
  lemma {:induction false} RemoveUnique(s: seq<Contact>, k: nat)
    requires k < |s|
    requires forall j :: 0 <= j < |s| && j != k ==> s[j].id != s[k].id
    ensures RemoveById(s, s[k].id) == s[..k] + s[k + 1..]
  {
    var id := s[k].id;
    if k == 0 {
      forall i | 0 <= i < |s[1..]| ensures s[1..][i].id != id {
        assert s[1..][i] == s[i + 1];
      }
      RemoveMiss(s[1..], id);
    } else {
      var t := s[1..];
      assert t[k - 1] == s[k];
      forall j | 0 <= j < |t| && j != k - 1 ensures t[j].id != t[k - 1].id {
        assert t[j] == s[j + 1];
      }
      RemoveUnique(t, k - 1);
      assert s[..k] == [s[0]] + t[..k - 1];
      assert s[k + 1..] == t[k..];
    }
  }

  /** The entries a delete keeps are in their original relative order. */
  lemma {:induction false} RemoveIsSubsequence(s: seq<Contact>, id: Id)
    ensures IsSubsequence(RemoveById(s, id), s)
  {
    if s != [] {
      RemoveIsSubsequence(s[1..], id);
      var r := RemoveById(s, id);
      if s[0].id != id {
        assert r[0] == s[0] && r[1..] == RemoveById(s[1..], id);
      } else if r != [] {
        assert IsSubsequence(r, s[1..]);
      }
    }
  }

  /** A subsequence never holds an entry more often than the sequence. */
  lemma {:induction false} SubsequenceMultiset(t: seq<Contact>, s: seq<Contact>)
    requires IsSubsequence(t, s)
    ensures multiset(t) <= multiset(s)
    decreases |s|
  {
    if t != [] {
      assert s == [s[0]] + s[1..];
      if t[0] == s[0] && IsSubsequence(t[1..], s[1..]) {
        SubsequenceMultiset(t[1..], s[1..]);
        assert t == [t[0]] + t[1..];
      } else {
        SubsequenceMultiset(t, s[1..]);
      }
    }
  }

  /** Remove by identifier is the only order-keeping selection of entries
      that drops every entry with that identifier and keeps every other one:
      an independent characterisation of `filter`. */
  lemma {:induction false} RemoveIsTheFilter(s: seq<Contact>, id: Id, t: seq<Contact>)
    requires IsSubsequence(t, s)
    requires forall x :: multiset(t)[x] == if x.id == id then 0 else multiset(s)[x]
    ensures t == RemoveById(s, id)
    decreases |s|
  {
    if s == [] {
      assert t == [];
    } else {
      var a := s[0];
      assert s == [a] + s[1..];
      if a.id == id {
        if t != [] && t[0] == a {
          assert false;
        }
        assert IsSubsequence(t, s[1..]);
        RemoveIsTheFilter(s[1..], id, t);
      } else {
        assert multiset(t)[a] == multiset(s)[a] == multiset(s[1..])[a] + 1;
        if !(t != [] && t[0] == a && IsSubsequence(t[1..], s[1..])) {
          assert IsSubsequence(t, s[1..]);
          SubsequenceMultiset(t, s[1..]);
          assert false;
        }
        assert t == [a] + t[1..];
        RemoveIsTheFilter(s[1..], id, t[1..]);
      }
    }
  }

  /** A delete keeps the identifiers unique. */
  lemma RemoveKeepsUnique(s: seq<Contact>, id: Id)
    requires UniqueIds(s)
    ensures UniqueIds(RemoveById(s, id))
  {
    RemoveIsSubsequence(s, id);
    SubsequenceUnique(RemoveById(s, id), s);
  }

  lemma {:induction false} SubsequenceUnique(t: seq<Contact>, s: seq<Contact>)
    requires IsSubsequence(t, s) && UniqueIds(s)
    ensures UniqueIds(t)
    decreases |s|
  {
    if t != [] {
      assert UniqueIds(s[1..]) by {
        forall i, j | 0 <= i < j < |s[1..]| ensures s[1..][i].id != s[1..][j].id {
          assert s[i + 1].id != s[j + 1].id;
        }
      }
      if t[0] == s[0] && IsSubsequence(t[1..], s[1..]) {
        SubsequenceUnique(t[1..], s[1..]);
        SubsequenceMultiset(t[1..], s[1..]);
        forall j | 0 < j < |t| ensures t[0].id != t[j].id {
          var x := t[j];
          assert x in multiset(t[1..]) by { assert t[1..][j - 1] == x; }
          assert x in s[1..];
          var m :| 0 <= m < |s[1..]| && s[1..][m] == x;
          assert s[0].id != s[m + 1].id;
        }
      } else {
        SubsequenceUnique(t, s[1..]);
      }
    }
  }

  // ---------------------------------------------------------------------
  // Append

  /** An append keeps the identifiers unique exactly when the created
      contact's identifier is not yet in the store. */
  lemma AppendKeepsUnique(s: seq<Contact>, c: Contact)
    requires UniqueIds(s)
    ensures UniqueIds(Append(s, c)) <==> !HasId(s, c.id)
  {
  }
}
