/**
 * The patients page: a patient register that starts empty, grows through a
 * registration form stamped with the day of registration, shrinks through a
 * confirmed delete, and is searched by name, phone or email.
 */
module Patients {
  import opened Strings
  import opened Lists

  /** One patient record; the form stores the age as the text typed into it. */
  datatype Patient = Patient(
    id: int,
    name: string,
    age: string,
    gender: string,
    phone: string,
    email: string,
    address: string,
    joinDate: string)

  /** The form's fields. */
  datatype DraftField = Name | Age | Gender | Phone | Email | Address

  /** The contents of the registration form. */
  datatype Draft = Draft(name: string, age: string, gender: string, phone: string, email: string, address: string)
  {
    function Get(f: DraftField): string
    {
      match f
      case Name => name
      case Age => age
      case Gender => gender
      case Phone => phone
      case Email => email
      case Address => address
    }

    /** `{ ...formData, [f]: v }`. */
    function With(f: DraftField, v: string): (d: Draft)
      ensures d.Get(f) == v
      ensures forall g :: g != f ==> d.Get(g) == Get(g)
    {
      match f
      case Name => this.(name := v)
      case Age => this.(age := v)
      case Gender => this.(gender := v)
      case Phone => this.(phone := v)
      case Email => this.(email := v)
      case Address => this.(address := v)
    }
  }

  /** Two drafts that agree on every field are the same draft. */
  lemma DraftsAgree(a: Draft, b: Draft)
    requires forall f :: a.Get(f) == b.Get(f)
    ensures a == b
  {
    assert a.Get(Name) == b.Get(Name) && a.Get(Age) == b.Get(Age) && a.Get(Gender) == b.Get(Gender);
    assert a.Get(Phone) == b.Get(Phone) && a.Get(Email) == b.Get(Email) && a.Get(Address) == b.Get(Address);
  }

  /** Writing a field's own value back leaves the draft as it was. */
  lemma WithOwnValue(d: Draft, f: DraftField)
    ensures d.With(f, d.Get(f)) == d
  {
    DraftsAgree(d.With(f, d.Get(f)), d);
  }

  const Male := "Male"
  const Female := "Female"

  const EmptyDraft := Draft("", "", Male, "", "", "")

  /** The day part of an ISO timestamp: `iso.split("T")[0]`. */
  function DatePart(iso: string): string
  {
    Split(iso, 'T')[0]
  }

  /** For a timestamp of the form `<date>T<rest>`, the day part is `<date>`. */
  lemma DatePartOfIso(date: string, rest: string)
    requires 'T' !in date
    ensures DatePart(date + "T" + rest) == date
  {
    var iso := date + "T" + rest;
    assert iso[|date|] == 'T';
    assert iso[..|date|] == date;
    assert IndexOf(iso, 'T') == |date|;
    SplitFirst(iso, 'T');
  }

  // ---------------------------------------------------------------------------
  // Create and remove
  // ---------------------------------------------------------------------------

  /**
   * The register after submitting the form at the moment whose ISO timestamp
   * is `now`: one record appended, numbered one past the old length, with the
   * form's fields and the day part of `now` as its join date.
   */
  function Create(list: seq<Patient>, d: Draft, now: string): (r: seq<Patient>)
    ensures |r| == |list| + 1
    ensures r[..|list|] == list
    ensures r[|list|].id == |list| + 1 && r[|list|].joinDate == DatePart(now)
    ensures r[|list|].name == d.name && r[|list|].age == d.age && r[|list|].gender == d.gender
    ensures r[|list|].phone == d.phone && r[|list|].email == d.email && r[|list|].address == d.address
  {
    list + [Patient(|list| + 1, d.name, d.age, d.gender, d.phone, d.email, d.address, DatePart(now))]
  }

  function IdOf(p: Patient): int { p.id }

  /**
   * While nothing has been removed the ids are the positions 1..n, and a
   * registration keeps them so: the new record's id is distinct from every other.
   */
  lemma CreateKeepsPositions(list: seq<Patient>, d: Draft, now: string)
    requires IdsArePositions(list, IdOf)
    ensures IdsArePositions(Create(list, d, now), IdOf)
    ensures forall i, j :: 0 <= i < j < |Create(list, d, now)| ==>
      Create(list, d, now)[i].id != Create(list, d, now)[j].id
  {
    var r := Create(list, d, now);
    forall i | 0 <= i < |r| ensures IdOf(r[i]) == i + 1 {
      if i < |list| {
        assert r[i] == r[..|list|][i];
      }
    }
    PositionIdsDistinct(r, IdOf);
  }

  function Keeps(id: int): Patient -> bool
  {
    (p: Patient) => p.id != id
  }

  /** The register after a confirmed delete of `id`: every record with another id, in order. */
  function Remove(list: seq<Patient>, id: int): (r: seq<Patient>)
    ensures IsSubsequence(r, list)
    ensures forall i :: 0 <= i < |r| ==> r[i].id != id && r[i] in list
    ensures forall i :: 0 <= i < |list| && list[i].id != id ==> list[i] in r
  {
    FilterShape(list, Keeps(id));
    FilterBy(list, Keeps(id))
  }

  /** The removal keeps every copy of each record with another id, and none with that id. */
  lemma RemoveKeepsCopies(list: seq<Patient>, id: int)
    ensures forall p :: multiset(Remove(list, id))[p] == if p.id != id then multiset(list)[p] else 0
  {
    FilterMultiplicity(list, Keeps(id));
  }

  /** Deleting an id no record has changes nothing. */
  lemma RemoveAbsent(list: seq<Patient>, id: int)
    requires forall i :: 0 <= i < |list| ==> list[i].id != id
    ensures Remove(list, id) == list
  {
    FilterAllTrue(list, Keeps(id));
  }

  // ---------------------------------------------------------------------------
  // Search
  // ---------------------------------------------------------------------------

  /**
   * The search test: the name or the email contains the term ignoring case,
   * or the phone contains the term exactly as typed.
   */
  predicate Matches(p: Patient, term: string)
  {
    ContainsIgnoringCase(p.name, term) || Contains(p.phone, term) || ContainsIgnoringCase(p.email, term)
  }

  function MatchesTerm(term: string): Patient -> bool
  {
    (p: Patient) => Matches(p, term)
  }

  /** `filteredPatients`: the records the search keeps, in register order. */
  function FilteredPatients(list: seq<Patient>, term: string): (r: seq<Patient>)
    ensures IsSubsequence(r, list)
    ensures forall i :: 0 <= i < |r| ==> Matches(r[i], term) && r[i] in list
    ensures forall i :: 0 <= i < |list| && Matches(list[i], term) ==> list[i] in r
  {
    FilterShape(list, MatchesTerm(term));
    FilterBy(list, MatchesTerm(term))
  }

  /** The search keeps every copy of each matching record and none of any other. */
  lemma SearchKeepsCopies(list: seq<Patient>, term: string)
    ensures forall p :: multiset(FilteredPatients(list, term))[p] == if Matches(p, term) then multiset(list)[p] else 0
  {
    FilterMultiplicity(list, MatchesTerm(term));
  }

  /** An empty search shows the whole register. */
  lemma EmptySearchShowsAll(list: seq<Patient>)
    ensures FilteredPatients(list, "") == list
  {
    forall i | 0 <= i < |list| ensures Matches(list[i], "") {
      EmptyTermMatches(list[i].name);
    }
    FilterAllTrue(list, MatchesTerm(""));
  }

  /**
   * The phone is matched with the term's own case, so the search is not
   * case-insensitive as a whole: a record found by "B" through its phone is
   * not found by "b".
   */
  lemma PhoneSearchIsCaseSensitive(p: Patient)
    requires p.name == "Ann" && p.phone == "B-12" && p.email == "ann@mail.com"
    ensures Matches(p, "B")
    ensures !Matches(p, "b")
  {
    assert OccursAt(p.phone, "B", 0);
    assert Lower("b") == "b";
    AbsentChar(p.phone, 'b');
    AbsentChar(Lower(p.name), 'b');
    AbsentChar(Lower(p.email), 'b');
  }

  // ---------------------------------------------------------------------------
  // Summary counts
  // ---------------------------------------------------------------------------

  function HasGender(gender: string): Patient -> bool
  {
    (p: Patient) => p.gender == gender
  }

  /** `patients.filter((p) => p.gender === gender).length`, over the whole register. */
  function GenderCount(list: seq<Patient>, gender: string): (n: nat)
    ensures n <= |list|
  {
    CountBy(list, HasGender(gender))
  }

  /**
   * The male and female counts never exceed the total; any other gender is
   * counted in neither, so they add up to it only when nobody has another gender.
   */
  lemma GenderSummary(list: seq<Patient>)
    ensures GenderCount(list, Male) + GenderCount(list, Female) <= |list|
    ensures (forall i :: 0 <= i < |list| ==> list[i].gender == Male || list[i].gender == Female) ==>
      GenderCount(list, Male) + GenderCount(list, Female) == |list|
    ensures (exists i :: 0 <= i < |list| && list[i].gender != Male && list[i].gender != Female) ==>
      GenderCount(list, Male) + GenderCount(list, Female) < |list|
  {
    CountPartition2(list, HasGender(Male), HasGender(Female));
  }

  /** Registering a patient adds one to the count of the form's gender and leaves the others. */
  lemma CreateCounts(list: seq<Patient>, d: Draft, now: string, gender: string)
    ensures GenderCount(Create(list, d, now), gender) ==
      GenderCount(list, gender) + (if d.gender == gender then 1 else 0)
  {
    var r := Create(list, d, now);
    assert r == list + [r[|list|]];
    FilterConcat(list, [r[|list|]], HasGender(gender));
  }

  // ---------------------------------------------------------------------------
  // The page's state
  // ---------------------------------------------------------------------------

  class PatientsPage {
    var patients: seq<Patient>
    var showForm: bool
    var formData: Draft
    var searchTerm: string

    constructor ()
      ensures patients == [] && !showForm && formData == EmptyDraft && searchTerm == ""
    {
      patients := [];
      showForm := false;
      formData := EmptyDraft;
      searchTerm := "";
    }

    /** `handleChange`: field `name` of the form now reads `value`. */
    method HandleChange(name: DraftField, value: string)
      modifies this`formData
      ensures formData == old(formData).With(name, value)
    {
      formData := formData.With(name, value);
    }

    /** `handleSubmit` at the moment whose ISO timestamp is `now`: register the form, reset it and hide it. */
    method HandleSubmit(now: string)
      modifies this`patients, this`formData, this`showForm
      ensures patients == Create(old(patients), old(formData), now)
      ensures formData == EmptyDraft && !showForm
    {
      var newPatient := Patient(|patients| + 1, formData.name, formData.age, formData.gender,
        formData.phone, formData.email, formData.address, Split(now, 'T')[0]);
      patients := patients + [newPatient];
      formData := EmptyDraft;
      showForm := false;
    }

    /** `handleDelete`: when the user confirms, drop every record numbered `id`. */
    method HandleDelete(id: int, confirmed: bool)
      modifies this`patients
      ensures confirmed ==> patients == Remove(old(patients), id)
      ensures !confirmed ==> patients == old(patients)
    {
      if confirmed {
        patients := FilterBy(patients, Keeps(id));
      }
    }

    /** The add button: show the form when hidden, hide it when shown; the draft is kept either way. */
    method ToggleForm()
      modifies this`showForm
      ensures showForm == !old(showForm)
    {
      showForm := !showForm;
    }

    /** Typing in the search box. */
    method SetSearchTerm(term: string)
      modifies this`searchTerm
      ensures searchTerm == term
    {
      searchTerm := term;
    }
  }
}
