/** The lead form of the public home page: its four fields, the record each submission
    creates, and the submitting and submitted flags around the call. */
module Hero {
  import opened Wrappers
  import Contacts

  /** The form's `formState`. */
  datatype LeadForm = LeadForm(name: string, email: string, category: string, employees: string)

  const BlankLead := LeadForm("", "", "", "")

  /** The form's fields: the two text inputs by their `name` attribute and the two selects. */
  datatype LeadField = Name | Email | Category | Employees

  function FieldValue(f: LeadForm, field: LeadField): string {
    match field
    case Name => f.name
    case Email => f.email
    case Category => f.category
    case Employees => f.employees
  }

  /** `{ ...prev, [name]: value }`. */
  function SetField(f: LeadForm, field: LeadField, value: string): (r: LeadForm)
    ensures FieldValue(r, field) == value
    ensures forall other: LeadField :: other != field ==> FieldValue(r, other) == FieldValue(f, other)
  {
    match field
    case Name => f.(name := value)
    case Email => f.(email := value)
    case Category => f.(category := value)
    case Employees => f.(employees := value)
  }

  const LeadNote := "Contato enviado pelo formulário do site"

  /** The record a submission sends to `createContact`: the four fields as typed, status
      `novo` and the fixed note. */
  function LeadRecord(f: LeadForm): (c: Contacts.NewContact)
    ensures c.status == Contacts.Novo && c.notes == Some(LeadNote)
    ensures c.name == f.name && c.email == f.email && c.category == f.category && c.employees == f.employees
  {
    Contacts.NewContact(f.name, f.email, f.category, f.employees, Contacts.Novo, Some(LeadNote))
  }

  /** A lead whose category was picked from the form's options is labelled on the dashboard
      with the option's own text, and carries the badge of a new contact. */
  lemma LeadAsDashboardShowsIt(f: LeadForm, c: Contacts.Category)
    requires f.category == Contacts.CategoryKey(c)
    ensures Contacts.CategoryLabel(LeadRecord(f).category) == Contacts.CategoryTitle(c)
    ensures Contacts.StatusColor(Contacts.StatusName(LeadRecord(f).status)) == "bg-blue-100 text-blue-800"
  {
    Contacts.CategoryLabelOfKey(c);
  }

  /** The section's state. */
  datatype HeroState = HeroState(form: LeadForm, isSubmitting: bool, submitted: bool)

  class HeroSection {
    var state: HeroState

    constructor ()
      ensures state == HeroState(BlankLead, false, false)
    {
      state := HeroState(BlankLead, false, false);
    }

    /** `handleChange` and `handleSelectChange`: only the named field changes. */
    method Change(field: LeadField, value: string)
      modifies this
      ensures state == old(state).(form := SetField(old(state.form), field, value))
    {
      state := state.(form := SetField(state.form, field, value));
    }

    /** `handleSubmit` given whether `createContact` succeeded: the lead record is sent; on
        success the form shows as submitted, on failure that flag and the form are kept;
        submitting ends either way. */
    method Submit(created: bool) returns (sent: Contacts.NewContact)
      modifies this
      ensures sent == LeadRecord(old(state.form))
      ensures state == old(state).(isSubmitting := false, submitted := old(state.submitted) || created)
    {
      var s := state.(isSubmitting := true);
      sent := LeadRecord(s.form);
      state := s.(isSubmitting := false, submitted := s.submitted || created);
    }

    /** The step the reset timer takes three seconds after a success. */
    method ResetAfterSuccess()
      modifies this
      ensures state == old(state).(form := BlankLead, submitted := false)
    {
      state := state.(form := BlankLead, submitted := false);
    }
  }
}
