/**
 * The appointments page: an ordered list of appointments that the
 * receptionist extends through a form and shrinks through a confirmed
 * cancel button, with status counts over the whole list.
 */
module Appointments {
  import opened Lists

  /** One appointment; `kind` holds the record's `type` field. */
  datatype Appointment = Appointment(
    id: int,
    patient: string,
    doctor: string,
    date: string,
    time: string,
    status: string,
    kind: string)

  /** The form's fields. */
  datatype DraftField = Patient | Doctor | Date | Time | Kind

  /** The contents of the new-appointment form. */
  datatype Draft = Draft(patient: string, doctor: string, date: string, time: string, kind: string)
  {
    function Get(f: DraftField): string
    {
      match f
      case Patient => patient
      case Doctor => doctor
      case Date => date
      case Time => time
      case Kind => kind
    }

    /** `{ ...formData, [f]: v }`. */
    function With(f: DraftField, v: string): (d: Draft)
      ensures d.Get(f) == v
      ensures forall g :: g != f ==> d.Get(g) == Get(g)
    {
      match f
      case Patient => this.(patient := v)
      case Doctor => this.(doctor := v)
      case Date => this.(date := v)
      case Time => this.(time := v)
      case Kind => this.(kind := v)
    }
  }

  /** Two drafts that agree on every field are the same draft. */
  lemma DraftsAgree(a: Draft, b: Draft)
    requires forall f :: a.Get(f) == b.Get(f)
    ensures a == b
  {
    assert a.Get(Patient) == b.Get(Patient) && a.Get(Doctor) == b.Get(Doctor) && a.Get(Date) == b.Get(Date);
    assert a.Get(Time) == b.Get(Time) && a.Get(Kind) == b.Get(Kind);
  }

  /** Writing a field's own value back leaves the draft as it was. */
  lemma WithOwnValue(d: Draft, f: DraftField)
    ensures d.With(f, d.Get(f)) == d
  {
    DraftsAgree(d.With(f, d.Get(f)), d);
  }

  const EmptyDraft := Draft("", "", "", "", "General")

  const Confirmed := "Confirmed"
  const Pending := "Pending"
  const Cancelled := "Cancelled"

  /** The four appointments the page starts with. */
  const Seed: seq<Appointment> := [
    Appointment(1, "John Doe", "Dr. Smith", "2024-01-15", "10:00 AM", Confirmed, "General"),
    Appointment(2, "Jane Smith", "Dr. Johnson", "2024-01-15", "11:00 AM", Pending, "Cardiology"),
    Appointment(3, "Mike Brown", "Dr. Williams", "2024-01-16", "09:00 AM", Confirmed, "Dental"),
    Appointment(4, "Sarah Wilson", "Dr. Smith", "2024-01-16", "02:00 PM", Cancelled, "General")
  ]

  function IdOf(a: Appointment): int { a.id }

  // ---------------------------------------------------------------------------
  // Create and remove
  // ---------------------------------------------------------------------------

  /**
   * The list after submitting the form: one appointment appended, numbered
   * one past the old length, its fields copied from the form and its status
   * forced to "Pending".
   */
  function Create(list: seq<Appointment>, d: Draft): (r: seq<Appointment>)
    ensures |r| == |list| + 1
    ensures r[..|list|] == list
    ensures r[|list|].id == |list| + 1 && r[|list|].status == Pending
    ensures r[|list|].patient == d.patient && r[|list|].doctor == d.doctor
    ensures r[|list|].date == d.date && r[|list|].time == d.time && r[|list|].kind == d.kind
  {
    list + [Appointment(|list| + 1, d.patient, d.doctor, d.date, d.time, Pending, d.kind)]
  }

  /**
   * While nothing has been removed the ids are the positions 1..n, and a
   * create keeps them so: the new appointment's id is distinct from every other.
   */
  lemma CreateKeepsPositions(list: seq<Appointment>, d: Draft)
    requires IdsArePositions(list, IdOf)
    ensures IdsArePositions(Create(list, d), IdOf)
    ensures forall i, j :: 0 <= i < j < |Create(list, d)| ==> Create(list, d)[i].id != Create(list, d)[j].id
  {
    var r := Create(list, d);
    forall i | 0 <= i < |r| ensures IdOf(r[i]) == i + 1 {
      if i < |list| {
        assert r[i] == r[..|list|][i];
      }
    }
    PositionIdsDistinct(r, IdOf);
  }

  /** The filter that keeps every appointment whose id differs from `id`. */
  function Keeps(id: int): Appointment -> bool
  {
    (a: Appointment) => a.id != id
  }

  /**
   * The list after a confirmed cancel of `id`: every appointment with another
   * id, in the original order, and none with that id.
   */
  function Remove(list: seq<Appointment>, id: int): (r: seq<Appointment>)
    ensures IsSubsequence(r, list)
    ensures forall i :: 0 <= i < |r| ==> r[i].id != id && r[i] in list
    ensures forall i :: 0 <= i < |list| && list[i].id != id ==> list[i] in r
  {
    FilterShape(list, Keeps(id));
    FilterBy(list, Keeps(id))
  }

  /** The removal keeps every copy of each appointment with another id, and none with that id. */
  lemma RemoveKeepsCopies(list: seq<Appointment>, id: int)
    ensures forall a :: multiset(Remove(list, id))[a] == if a.id != id then multiset(list)[a] else 0
  {
    FilterMultiplicity(list, Keeps(id));
  }

  /** Cancelling an id no appointment has changes nothing. */
  lemma RemoveAbsent(list: seq<Appointment>, id: int)
    requires forall i :: 0 <= i < |list| ==> list[i].id != id
    ensures Remove(list, id) == list
  {
    FilterAllTrue(list, Keeps(id));
  }

  /**
   * Because ids are the list length plus one, cancelling any appointment but
   * the last and then creating one repeats the id of the old last appointment.
   */
  lemma IdCollision(list: seq<Appointment>, d: Draft, k: int)
    requires IdsArePositions(list, IdOf)
    requires 1 <= k < |list|
    ensures Remove(list, k) == list[..k - 1] + list[k..]
    ensures |Create(Remove(list, k), d)| == |list|
    ensures Create(Remove(list, k), d)[|list| - 2] == list[|list| - 1]
    ensures Create(Remove(list, k), d)[|list| - 2].id == |list|
    ensures Create(Remove(list, k), d)[|list| - 1].id == |list|
  {
    var kept := Remove(list, k);
    var r := Create(kept, d);
    assert forall y :: Keeps(k)(y) == (IdOf(y) != k);
    LengthIdCollision(list, IdOf, Keeps(k), k, r[|kept|]);
    assert r == kept + [r[|kept|]];
  }

  /** On the starting list, cancelling #2 and creating one leaves two appointments numbered 4. */
  lemma SeedIdCollision(d: Draft)
    ensures var r := Create(Remove(Seed, 2), d);
      |r| == 4 && r[2] == Seed[3] && r[2].id == 4 && r[3].id == 4 && r[3].status == Pending
  {
    assert IdsArePositions(Seed, IdOf);
    IdCollision(Seed, d, 2);
  }

  // ---------------------------------------------------------------------------
  // Summary counts
  // ---------------------------------------------------------------------------

  function HasStatus(status: string): Appointment -> bool
  {
    (a: Appointment) => a.status == status
  }

  /** `appointments.filter((a) => a.status === status).length`. */
  function StatusCount(list: seq<Appointment>, status: string): (n: nat)
    ensures n <= |list|
  {
    CountBy(list, HasStatus(status))
  }

  /** Every status is one of the three the summary counts. */
  ghost predicate KnownStatuses(list: seq<Appointment>)
  {
    forall i :: 0 <= i < |list| ==> list[i].status in {Confirmed, Pending, Cancelled}
  }

  /**
   * The three status counts never exceed the total, and add up to it when
   * every status is one of the three.
   */
  lemma SummaryBound(list: seq<Appointment>)
    ensures StatusCount(list, Confirmed) + StatusCount(list, Pending) + StatusCount(list, Cancelled) <= |list|
    ensures KnownStatuses(list) ==>
      StatusCount(list, Confirmed) + StatusCount(list, Pending) + StatusCount(list, Cancelled) == |list|
  {
    CountPartition3(list, HasStatus(Confirmed), HasStatus(Pending), HasStatus(Cancelled));
  }

  /** Creating an appointment adds one to the pending count and leaves the others. */
  lemma CreateCounts(list: seq<Appointment>, d: Draft, status: string)
    ensures StatusCount(Create(list, d), status) ==
      StatusCount(list, status) + (if status == Pending then 1 else 0)
  {
    var r := Create(list, d);
    assert r == list + [r[|list|]];
    FilterConcat(list, [r[|list|]], HasStatus(status));
  }

  // ---------------------------------------------------------------------------
  // The page's state
  // ---------------------------------------------------------------------------

  class AppointmentsPage {
    var appointments: seq<Appointment>
    var showForm: bool
    var formData: Draft

    /** Every appointment has a status the summary counts. */
    ghost predicate Valid()
      reads this
    {
      KnownStatuses(appointments)
    }

    constructor ()
      ensures Valid()
      ensures appointments == Seed && !showForm && formData == EmptyDraft
    {
      appointments := Seed;
      showForm := false;
      formData := EmptyDraft;
    }

    /** `handleChange`: field `name` of the form now reads `value`. */
    method HandleChange(name: DraftField, value: string)
      modifies this`formData
      ensures formData == old(formData).With(name, value)
    {
      formData := formData.With(name, value);
    }

    /** `handleSubmit`: append the form as a pending appointment, reset the form and hide it. */
    method HandleSubmit()
      modifies this
      ensures appointments == Create(old(appointments), old(formData))
      ensures formData == EmptyDraft && !showForm
      ensures old(Valid()) ==> Valid()
    {
      var newAppointment := Appointment(|appointments| + 1, formData.patient, formData.doctor,
        formData.date, formData.time, Pending, formData.kind);
      appointments := appointments + [newAppointment];
      formData := EmptyDraft;
      showForm := false;
    }

    /** `handleDelete`: when the user confirms, drop every appointment numbered `id`. */
    method HandleDelete(id: int, confirmed: bool)
      modifies this`appointments
      ensures confirmed ==> appointments == Remove(old(appointments), id)
      ensures !confirmed ==> appointments == old(appointments)
      ensures old(Valid()) ==> Valid()
    {
      if confirmed {
        appointments := FilterBy(appointments, Keeps(id));
      }
    }

    /** The add button: show the form when hidden, hide it when shown. */
    method ToggleForm()
      modifies this`showForm
      ensures showForm == !old(showForm)
    {
      showForm := !showForm;
    }
  }
}
