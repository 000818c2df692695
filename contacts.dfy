/** Leads (contacts) as the dashboard stores them, the closed value sets their fields draw
    on, the labels and badge colours the dashboard shows for them, and the contacts page:
    its search and status filters and the list updates after each server call. */
module Contacts {
  import opened Wrappers
  import opened JsText
  import Seqs

  /** A contact's status, the union `"novo" | "contatado" | "cliente" | "perdido"`. */
  datatype Status = Novo | Contatado | Cliente | Perdido

  function StatusName(s: Status): (name: string)
    ensures name != ""
  {
    match s
    case Novo => "novo"
    case Contatado => "contatado"
    case Cliente => "cliente"
    case Perdido => "perdido"
  }

  function ParseStatus(name: string): (s: Option<Status>)
    ensures s.Some? ==> StatusName(s.value) == name
    ensures s.None? ==> forall st: Status :: StatusName(st) != name
  {
    if name == "novo" then Some(Novo)
    else if name == "contatado" then Some(Contatado)
    else if name == "cliente" then Some(Cliente)
    else if name == "perdido" then Some(Perdido)
    else None
  }

  lemma ParseStatusName(s: Status)
    ensures ParseStatus(StatusName(s)) == Some(s)
  {
  }

  /** The business categories the public form offers, by their option value. */
  datatype Category = Mei | Microempresa | PequenaEmpresa | MediaEmpresa | GrandeEmpresa | PessoaFisica

  const OfferedCategories: seq<Category> := [Mei, Microempresa, PequenaEmpresa, MediaEmpresa, GrandeEmpresa, PessoaFisica]

  /** The option value stored in a contact's `category`. */
  function CategoryKey(c: Category): (key: string)
    ensures key != "" && ' ' !in key
  {
    match c
    case Mei => "mei"
    case Microempresa => "microempresa"
    case PequenaEmpresa => "pequena-empresa"
    case MediaEmpresa => "media-empresa"
    case GrandeEmpresa => "grande-empresa"
    case PessoaFisica => "pessoa-fisica"
  }

  /** The text of the option in the public form. */
  function CategoryTitle(c: Category): (title: string)
    ensures title != "" && title != CategoryKey(c)
  {
    match c
    case Mei => "MEI"
    case Microempresa => "Microempresa"
    case PequenaEmpresa => "Pequena Empresa"
    case MediaEmpresa => "Média Empresa"
    case GrandeEmpresa => "Grande Empresa"
    case PessoaFisica => "Pessoa Física"
  }

  function ParseCategory(key: string): (c: Option<Category>)
    ensures c.Some? ==> CategoryKey(c.value) == key
    ensures c.None? ==> forall d: Category :: CategoryKey(d) != key
  {
    if key == "mei" then Some(Mei)
    else if key == "microempresa" then Some(Microempresa)
    else if key == "pequena-empresa" then Some(PequenaEmpresa)
    else if key == "media-empresa" then Some(MediaEmpresa)
    else if key == "grande-empresa" then Some(GrandeEmpresa)
    else if key == "pessoa-fisica" then Some(PessoaFisica)
    else None
  }

  /** `getCategoryLabel(category)`: the label of a known key, and any other string as it is. */
  function CategoryLabel(category: string): (shown: string)
    ensures ParseCategory(category).None? ==> shown == category
    ensures ParseCategory(category).Some? ==> shown == CategoryTitle(ParseCategory(category).value)
  {
    match ParseCategory(category)
    case Some(c) => CategoryTitle(c)
    case None => category
  }

  /** The dashboard labels a stored category exactly as the public form titled it. */
  lemma CategoryLabelOfKey(c: Category)
    ensures ParseCategory(CategoryKey(c)) == Some(c)
    ensures CategoryLabel(CategoryKey(c)) == CategoryTitle(c)
  {
  }

  /** The form offers each category once, and every category is offered. */
  lemma OfferedCategoriesAreAll()
    ensures |OfferedCategories| == 6 && Seqs.NoDuplicates(OfferedCategories)
    ensures forall c: Category :: c in OfferedCategories
  {
    forall c: Category ensures c in OfferedCategories {
      match c
      case Mei => assert OfferedCategories[0] == c;
      case Microempresa => assert OfferedCategories[1] == c;
      case PequenaEmpresa => assert OfferedCategories[2] == c;
      case MediaEmpresa => assert OfferedCategories[3] == c;
      case GrandeEmpresa => assert OfferedCategories[4] == c;
      case PessoaFisica => assert OfferedCategories[5] == c;
    }
  }

  /** The employee-count brackets the public form offers. */
  datatype EmployeeBracket = NoEmployees | From1To5 | From6To10 | From11To20 | From21To50 | From51To100 | Over100

  const OfferedBrackets: seq<EmployeeBracket> := [NoEmployees, From1To5, From6To10, From11To20, From21To50, From51To100, Over100]

  /** The option value stored in a contact's `employees`. */
  function BracketKey(b: EmployeeBracket): (key: string)
    ensures key != ""
  {
    match b
    case NoEmployees => "0"
    case From1To5 => "1-5"
    case From6To10 => "6-10"
    case From11To20 => "11-20"
    case From21To50 => "21-50"
    case From51To100 => "51-100"
    case Over100 => "100+"
  }

  /** Seven brackets, each offered once, with seven different stored values. */
  lemma OfferedBracketsAreAll()
    ensures |OfferedBrackets| == 7 && Seqs.NoDuplicates(OfferedBrackets)
    ensures forall b: EmployeeBracket :: b in OfferedBrackets
    ensures forall a: EmployeeBracket, b: EmployeeBracket :: a != b ==> BracketKey(a) != BracketKey(b)
  {
    forall b: EmployeeBracket ensures b in OfferedBrackets {
      match b
      case NoEmployees => assert OfferedBrackets[0] == b;
      case From1To5 => assert OfferedBrackets[1] == b;
      case From6To10 => assert OfferedBrackets[2] == b;
      case From11To20 => assert OfferedBrackets[3] == b;
      case From21To50 => assert OfferedBrackets[4] == b;
      case From51To100 => assert OfferedBrackets[5] == b;
      case Over100 => assert OfferedBrackets[6] == b;
    }
  }

  /** A contact row. `category` and `employees` hold option values, though the type does
      not restrict them. */
  datatype Contact = Contact(
    id: string,
    name: string,
    email: string,
    category: string,
    employees: string,
    status: Status,
    notes: Option<string>,
    createdAt: string,
    updatedAt: string)

  /** A contact as it is sent for creation: without the id and the timestamps the database
      assigns. */
  datatype NewContact = NewContact(
    name: string,
    email: string,
    category: string,
    employees: string,
    status: Status,
    notes: Option<string>)

  function ContactId(c: Contact): string {
    c.id
  }

  const GrayBadge := "bg-gray-100 text-gray-800"

  /** `getStatusColor(status)`: the badge classes, switched on the status string. */
  function StatusColor(status: string): (classes: string)
    ensures ParseStatus(status).None? ==> classes == GrayBadge
  {
    if status == "novo" then "bg-blue-100 text-blue-800"
    else if status == "contatado" then "bg-yellow-100 text-yellow-800"
    else if status == "cliente" then "bg-green-100 text-green-800"
    else if status == "perdido" then "bg-red-100 text-red-800"
    else GrayBadge
  }

  /** The four statuses have four different colours, none of them the fallback gray. */
  lemma StatusColorsDistinct(a: Status, b: Status)
    ensures StatusColor(StatusName(a)) != GrayBadge
    ensures a != b ==> StatusColor(StatusName(a)) != StatusColor(StatusName(b))
  {
  }

  /** The search of the contacts page: the lowercased name, email or category contains
      the lowercased term. */
  function ContactMatches(t: Tables, term: string): Contact -> bool {
    (c: Contact) =>
      Contains(ToLower(t, c.name), ToLower(t, term))
      || Contains(ToLower(t, c.email), ToLower(t, term))
      || Contains(ToLower(t, c.category), ToLower(t, term))
  }

  function StatusIs(statusFilter: string): Contact -> bool {
    (c: Contact) => StatusName(c.status) == statusFilter
  }

  /** `filterContacts()`: the search step when the term is not blank, then the status step
      unless the filter is `"all"`. */
  function FilterContacts(t: Tables, contacts: seq<Contact>, term: string, statusFilter: string): (r: seq<Contact>)
    ensures |r| <= |contacts|
  {
    var bySearch := Seqs.FilterWhen(!IsBlank(term), contacts, ContactMatches(t, term));
    Seqs.FilterWhen(statusFilter != "all", bySearch, StatusIs(statusFilter))
  }

  /** A contact passes both filters. */
  predicate Selected(t: Tables, c: Contact, term: string, statusFilter: string) {
    (IsBlank(term) || ContactMatches(t, term)(c)) && (statusFilter == "all" || StatusName(c.status) == statusFilter)
  }

  /** The filtered list keeps, in order, exactly the contacts that pass both filters; a
      blank term with the `"all"` filter keeps the whole list. */
  lemma FilterContactsSelects(t: Tables, contacts: seq<Contact>, term: string, statusFilter: string)
    ensures Seqs.IsSubsequence(FilterContacts(t, contacts, term, statusFilter), contacts)
    ensures forall i :: 0 <= i < |FilterContacts(t, contacts, term, statusFilter)| ==>
      Selected(t, FilterContacts(t, contacts, term, statusFilter)[i], term, statusFilter)
    ensures forall i :: 0 <= i < |contacts| && Selected(t, contacts[i], term, statusFilter) ==>
      contacts[i] in FilterContacts(t, contacts, term, statusFilter)
    ensures IsBlank(term) && statusFilter == "all" ==> FilterContacts(t, contacts, term, statusFilter) == contacts
  {
    var bySearch := Seqs.FilterWhen(!IsBlank(term), contacts, ContactMatches(t, term));
    var byStatus := Seqs.FilterWhen(statusFilter != "all", bySearch, StatusIs(statusFilter));
    Seqs.FilterWhenSelects(!IsBlank(term), contacts, ContactMatches(t, term));
    Seqs.FilterWhenSelects(statusFilter != "all", bySearch, StatusIs(statusFilter));
    Seqs.SubsequenceTransitive(byStatus, bySearch, contacts);
    Seqs.SubsequenceMembers(byStatus, bySearch);
    Seqs.SubsequenceMembers(bySearch, contacts);
  }

  /** The list the edit handler stores: entries with the selected contact's id become the
      contact the server returned. */
  function Edited(contacts: seq<Contact>, id: string, updated: Contact): (r: seq<Contact>)
    ensures |r| == |contacts|
    ensures forall i :: 0 <= i < |contacts| ==> r[i] == if contacts[i].id == id then updated else contacts[i]
  {
    Seqs.ReplaceByKey(contacts, ContactId, id, updated)
  }

  /** The list the delete handler stores: the entries with that id are gone. */
  function Deleted(contacts: seq<Contact>, id: string): (r: seq<Contact>)
    ensures |r| <= |contacts|
    ensures forall i :: 0 <= i < |r| ==> r[i].id != id
  {
    Seqs.RemoveByKey(contacts, ContactId, id)
  }

  /** Deleting keeps every other contact, in order; deleting an edited contact is the same
      as deleting the original; an id nobody has changes nothing. */
  lemma DeleteAndEdit(contacts: seq<Contact>, id: string, updated: Contact)
    ensures Seqs.IsSubsequence(Deleted(contacts, id), contacts)
    ensures forall i :: 0 <= i < |contacts| && contacts[i].id != id ==> contacts[i] in Deleted(contacts, id)
    ensures updated.id == id ==> Deleted(Edited(contacts, id, updated), id) == Deleted(contacts, id)
    ensures (forall i :: 0 <= i < |contacts| ==> contacts[i].id != id) ==>
      Deleted(contacts, id) == contacts && Edited(contacts, id, updated) == contacts
  {
    Seqs.RemoveByKeyKeepsOthers(contacts, ContactId, id);
    if updated.id == id {
      Seqs.RemoveAfterReplace(contacts, ContactId, id, updated);
    }
    if forall i :: 0 <= i < |contacts| ==> contacts[i].id != id {
      Seqs.RemoveAbsentKey(contacts, ContactId, id);
      Seqs.ReplaceAbsentKey(contacts, ContactId, id, updated);
    }
  }

  /** The contacts page's state besides the filtered list. */
  datatype ContactsView = ContactsView(
    contacts: seq<Contact>,
    searchTerm: string,
    statusFilter: string,
    selected: Option<Contact>,
    loading: bool)

  class ContactsPage {
    const tables: Tables
    var view: ContactsView
    var filteredContacts: seq<Contact>

    /** The page's effect has run on the current list and filters. */
    predicate Valid()
      reads this
    {
      filteredContacts == FilterContacts(tables, view.contacts, view.searchTerm, view.statusFilter)
    }

    constructor (t: Tables)
      ensures tables == t && view == ContactsView([], "", "all", None, true)
      ensures Valid()
    {
      tables := t;
      view := ContactsView([], "", "all", None, true);
      filteredContacts := [];
    }

    /** Stores a new state and reruns the filter effect. */
    method Show(v: ContactsView)
      modifies this
      ensures view == v && Valid()
    {
      view := v;
      filteredContacts := FilterContacts(tables, v.contacts, v.searchTerm, v.statusFilter);
    }

    /** `loadContacts()` given the listing (or `Threw`): a listing replaces the list, a
        failure keeps it, and loading ends. */
    method LoadContacts(listing: Outcome<seq<Contact>>)
      modifies this
      ensures Valid()
      ensures view == old(view).(contacts := if listing.Returned? then listing.value else old(view.contacts), loading := false)
    {
      Show(view.(contacts := if listing.Returned? then listing.value else view.contacts, loading := false));
    }

    method SetSearchTerm(term: string)
      modifies this
      ensures Valid() && view == old(view).(searchTerm := term)
    {
      Show(view.(searchTerm := term));
    }

    method SetStatusFilter(statusFilter: string)
      modifies this
      ensures Valid() && view == old(view).(statusFilter := statusFilter)
    {
      Show(view.(statusFilter := statusFilter));
    }

    /** Opening a contact's details or edit dialog. */
    method Select(c: Contact)
      modifies this
      ensures Valid() && view == old(view).(selected := Some(c))
    {
      Show(view.(selected := Some(c)));
    }

    /** `handleAddContact` given the created row (or `Threw`): it goes first. */
    method AddContact(created: Outcome<Contact>)
      modifies this
      ensures Valid()
      ensures created.Returned? ==> view == old(view).(contacts := [created.value] + old(view.contacts))
      ensures created.Threw? ==> view == old(view)
    {
      Show(view.(contacts := if created.Returned? then [created.value] + view.contacts else view.contacts));
    }

    /** `handleEditContact` given the updated row (or `Threw`): nothing happens without a
        selected contact; otherwise the rows with its id become the updated row and the
        selection is cleared. A failure changes nothing. */
    method EditContact(updated: Outcome<Contact>)
      modifies this
      ensures Valid()
      ensures old(view.selected).Some? && updated.Returned? ==>
        view == old(view).(contacts := Edited(old(view.contacts), old(view.selected).value.id, updated.value), selected := None)
      ensures old(view.selected).None? || updated.Threw? ==> view == old(view)
    {
      var v := view;
      Show(if v.selected.Some? && updated.Returned?
           then v.(contacts := Edited(v.contacts, v.selected.value.id, updated.value), selected := None)
           else v);
    }

    /** `handleDeleteContact(id)` given whether the server deleted it. */
    method DeleteContact(id: string, deleted: bool)
      modifies this
      ensures Valid()
      ensures view == old(view).(contacts := if deleted then Deleted(old(view.contacts), id) else old(view.contacts))
    {
      Show(view.(contacts := if deleted then Deleted(view.contacts, id) else view.contacts));
    }
  }
}
