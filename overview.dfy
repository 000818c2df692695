/** The dashboard's overview page: the contact list, the list the table is drawn from (the
    whole list under a blank search, the server's search result otherwise), the list updates
    after each server call, and the first five rows the table shows. */
module Overview {
  import opened Wrappers
  import opened JsText
  import Seqs
  import Contacts
  import ServerSearch

  /** `filteredContacts.slice(0, 5)`: the rows of the table. */
  function Shown(filtered: seq<Contacts.Contact>): (rows: seq<Contacts.Contact>)
    ensures |rows| == (if |filtered| <= 5 then |filtered| else 5)
    ensures rows == filtered[..|rows|]
  {
    Seqs.Slice0(filtered, 5)
  }

  /** The note under the table, present only when more than five contacts are listed. */
  function CountNote(filtered: seq<Contacts.Contact>): (note: Option<string>)
    ensures note.Some? <==> |filtered| > 5
    ensures note.Some? ==> note.value == "Mostrando 5 de " + DecimalString(|filtered|) + " contatos"
  {
    if |filtered| > 5 then Some("Mostrando 5 de " + DecimalString(|filtered|) + " contatos") else None
  }

  /** The note appears exactly when the table leaves rows out, and then the table shows five. */
  lemma NoteIffRowsHidden(filtered: seq<Contacts.Contact>)
    ensures CountNote(filtered).Some? <==> |Shown(filtered)| < |filtered|
    ensures CountNote(filtered).Some? ==> |Shown(filtered)| == 5
    ensures CountNote(filtered).None? ==> Shown(filtered) == filtered
  {
    assert filtered[..|filtered|] == filtered;
  }

  /** The overview's state besides the table's list. */
  datatype OverviewView = OverviewView(
    contacts: seq<Contacts.Contact>,
    searchTerm: string,
    selected: Option<Contacts.Contact>,
    loading: bool)

  class OverviewPage {
    var view: OverviewView
    var filteredContacts: seq<Contacts.Contact>

    /** Under a blank search the table's list is the contact list. */
    predicate Valid()
      reads this
    {
      IsBlank(view.searchTerm) ==> filteredContacts == view.contacts
    }

    constructor ()
      ensures view == OverviewView([], "", None, true) && filteredContacts == []
      ensures Valid()
    {
      view := OverviewView([], "", None, true);
      filteredContacts := [];
    }

    /** Stores a new state; when `refresh` holds, the list or the term changed and the
        search effect runs with `search`, the server's answer for a non-blank term. */
    method Show(v: OverviewView, refresh: bool, search: Outcome<seq<Contacts.Contact>>, previous: seq<Contacts.Contact>)
      requires !refresh ==> (IsBlank(v.searchTerm) ==> previous == v.contacts)
      modifies this
      ensures view == v && Valid()
      ensures filteredContacts == if refresh then ServerSearch.Refreshed(v.contacts, v.searchTerm, search, previous) else previous
    {
      view := v;
      filteredContacts := if refresh then ServerSearch.Refreshed(v.contacts, v.searchTerm, search, previous) else previous;
    }

    /** `loadContacts()` given the listing (or `Threw`): a listing becomes both lists and the
        effect then runs for the current term; a failure changes no list; loading ends. */
    method LoadContacts(listing: Outcome<seq<Contacts.Contact>>, search: Outcome<seq<Contacts.Contact>>)
      requires Valid()
      modifies this
      ensures Valid()
      ensures view == old(view).(contacts := if listing.Returned? then listing.value else old(view.contacts), loading := false)
      ensures listing.Returned? ==>
        filteredContacts == ServerSearch.Refreshed(listing.value, old(view.searchTerm), search, listing.value)
      ensures listing.Threw? ==> filteredContacts == old(filteredContacts)
    {
      var v := view;
      Show(v.(contacts := if listing.Returned? then listing.value else v.contacts, loading := false),
           listing.Returned?, search, if listing.Returned? then listing.value else filteredContacts);
    }

    /** Typing into the search box; the effect runs when the term changes. */
    method SetSearchTerm(term: string, search: Outcome<seq<Contacts.Contact>>)
      requires Valid()
      modifies this
      ensures Valid() && view == old(view).(searchTerm := term)
      ensures filteredContacts == if term != old(view.searchTerm)
                                  then ServerSearch.Refreshed(old(view.contacts), term, search, old(filteredContacts))
                                  else old(filteredContacts)
    {
      var v := view;
      Show(v.(searchTerm := term), term != v.searchTerm, search, filteredContacts);
    }

    method Select(c: Contacts.Contact)
      requires Valid()
      modifies this
      ensures Valid() && view == old(view).(selected := Some(c)) && filteredContacts == old(filteredContacts)
    {
      Show(view.(selected := Some(c)), false, Threw, filteredContacts);
    }

    /** `handleAddContact` given the created row (or `Threw`): it goes first and the effect runs. */
    method AddContact(created: Outcome<Contacts.Contact>, search: Outcome<seq<Contacts.Contact>>)
      requires Valid()
      modifies this
      ensures Valid()
      ensures created.Returned? ==>
        view == old(view).(contacts := [created.value] + old(view.contacts))
        && filteredContacts == ServerSearch.Refreshed([created.value] + old(view.contacts), old(view.searchTerm), search, old(filteredContacts))
      ensures created.Threw? ==> view == old(view) && filteredContacts == old(filteredContacts)
    {
      var v := view;
      Show(v.(contacts := if created.Returned? then [created.value] + v.contacts else v.contacts),
           created.Returned?, search, filteredContacts);
    }

    /** `handleEditContact` given the updated row (or `Threw`): without a selection nothing
        happens; otherwise the rows with the selected id become the updated row, the
        selection is cleared and the effect runs. */
    method EditContact(updated: Outcome<Contacts.Contact>, search: Outcome<seq<Contacts.Contact>>)
      requires Valid()
      modifies this
      ensures Valid()
      ensures old(view.selected).Some? && updated.Returned? ==>
        var edited := Contacts.Edited(old(view.contacts), old(view.selected).value.id, updated.value);
        view == old(view).(contacts := edited, selected := None)
        && filteredContacts == ServerSearch.Refreshed(edited, old(view.searchTerm), search, old(filteredContacts))
      ensures old(view.selected).None? || updated.Threw? ==> view == old(view) && filteredContacts == old(filteredContacts)
    {
      var v := view;
      var applies := v.selected.Some? && updated.Returned?;
      Show(if applies then v.(contacts := Contacts.Edited(v.contacts, v.selected.value.id, updated.value), selected := None) else v,
           applies, search, filteredContacts);
    }

    /** `handleDeleteContact(id)` given whether the server deleted it. */
    method DeleteContact(id: string, deleted: bool, search: Outcome<seq<Contacts.Contact>>)
      requires Valid()
      modifies this
      ensures Valid()
      ensures deleted ==>
        view == old(view).(contacts := Contacts.Deleted(old(view.contacts), id))
        && filteredContacts == ServerSearch.Refreshed(Contacts.Deleted(old(view.contacts), id), old(view.searchTerm), search, old(filteredContacts))
      ensures !deleted ==> view == old(view) && filteredContacts == old(filteredContacts)
    {
      var v := view;
      Show(v.(contacts := if deleted then Contacts.Deleted(v.contacts, id) else v.contacts), deleted, search, filteredContacts);
    }
  }
}
