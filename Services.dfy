/**
 * The services page: a fixed catalogue of twelve hospital services, searched
 * by name or description, with the total and available counts.
 */
module Services {
  import opened Strings
  import opened Lists

  datatype Service = Service(
    id: int,
    name: string,
    description: string,
    price: string,
    duration: string,
    available: bool)

  /** The catalogue; the page keeps it in state without a setter, so it never changes. */
  const Catalogue: seq<Service> := [
    Service(1, "General Checkup", "Routine health examination and diagnosis", "$50", "30 min", true),
    Service(2, "Cardiology Consultation", "Heart health assessment and treatment", "$150", "45 min", true),
    Service(3, "Dental Care", "Complete dental examination and treatment", "$80", "30 min", true),
    Service(4, "Neurology Consultation", "Brain and nervous system specialist care", "$180", "60 min", true),
    Service(5, "Orthopedics", "Bone and joint treatment and surgery", "$200", "45 min", true),
    Service(6, "Pediatrics", "Child healthcare and development monitoring", "$70", "30 min", true),
    Service(7, "Laboratory Tests", "Blood tests, urine tests, and diagnostics", "$40", "15 min", true),
    Service(8, "X-Ray & Imaging", "X-ray, MRI, CT scan services", "$100", "20 min", true),
    Service(9, "Emergency Care", "24/7 emergency medical services", "$300", "Variable", true),
    Service(10, "Pharmacy", "On-site pharmacy for medications", "Varies", "10 min", true),
    Service(11, "Physical Therapy", "Rehabilitation and physical recovery", "$120", "60 min", true),
    Service(12, "Vaccination", "Immunization and vaccine services", "$30", "15 min", true)
  ]

  // ---------------------------------------------------------------------------
  // Search
  // ---------------------------------------------------------------------------

  /** The search test: the name or the description contains the term, ignoring case. */
  predicate Matches(s: Service, term: string)
  {
    ContainsIgnoringCase(s.name, term) || ContainsIgnoringCase(s.description, term)
  }

  function MatchesTerm(term: string): Service -> bool
  {
    (s: Service) => Matches(s, term)
  }

  /** `filteredServices`: the services the search keeps, in catalogue order. */
  function FilteredServices(list: seq<Service>, term: string): (r: seq<Service>)
    ensures IsSubsequence(r, list)
    ensures forall i :: 0 <= i < |r| ==> Matches(r[i], term) && r[i] in list
    ensures forall i :: 0 <= i < |list| && Matches(list[i], term) ==> list[i] in r
  {
    FilterShape(list, MatchesTerm(term));
    FilterBy(list, MatchesTerm(term))
  }

  /** The search keeps every copy of each matching service and none of any other. */
  lemma SearchKeepsCopies(list: seq<Service>, term: string)
    ensures forall s :: multiset(FilteredServices(list, term))[s] == if Matches(s, term) then multiset(list)[s] else 0
  {
    FilterMultiplicity(list, MatchesTerm(term));
  }

  /** An empty search shows every service. */
  lemma EmptySearchShowsAll(list: seq<Service>)
    ensures FilteredServices(list, "") == list
  {
    forall i | 0 <= i < |list| ensures Matches(list[i], "") {
      EmptyTermMatches(list[i].name);
    }
    FilterAllTrue(list, MatchesTerm(""));
  }

  /** The search ignores the case of the term. */
  lemma SearchIgnoresTermCase(list: seq<Service>, term: string)
    ensures FilteredServices(list, term) == FilteredServices(list, Lower(term))
  {
    forall i | 0 <= i < |list| ensures Matches(list[i], term) == Matches(list[i], Lower(term)) {
      ContainsIgnoringCaseInsensitive(list[i].name, term);
      ContainsIgnoringCaseInsensitive(list[i].description, term);
    }
    FilterAgree(list, MatchesTerm(term), MatchesTerm(Lower(term)));
  }

  // ---------------------------------------------------------------------------
  // Summary counts
  // ---------------------------------------------------------------------------

  function IsAvailable(s: Service): bool { s.available }

  /** "Available Now": `services.filter((s) => s.available).length`. */
  function AvailableCount(list: seq<Service>): (n: nat)
    ensures n <= |list|
  {
    CountBy(list, IsAvailable)
  }

  /** The available count reaches the total exactly when every service is available. */
  lemma AvailableCountIsTotalIff(list: seq<Service>)
    ensures AvailableCount(list) == |list| <==> forall i :: 0 <= i < |list| ==> list[i].available
  {
    if forall i :: 0 <= i < |list| ==> list[i].available {
      FilterAllTrue(list, IsAvailable);
    } else {
      var i :| 0 <= i < |list| && !list[i].available;
      AvailableBelowTotal(list, i);
    }
  }

  /** One unavailable service keeps the available count below the total. */
  lemma {:induction false} AvailableBelowTotal(list: seq<Service>, i: nat)
    requires i < |list| && !list[i].available
    ensures AvailableCount(list) < |list|
  {
    if i > 0 {
      AvailableBelowTotal(list[1..], i - 1);
    }
  }

  /** The catalogue holds twelve services, every one of them available. */
  lemma CatalogueContents(list: seq<Service>)
    requires list == Catalogue
    ensures |list| == 12 && forall i :: 0 <= i < |list| ==> list[i].available
  {
  }

  /**
   * On the catalogue: twelve services, all of them available, and all twelve
   * shown by the empty search.
   */
  lemma CatalogueSummary(list: seq<Service>)
    requires list == Catalogue
    ensures |list| == 12
    ensures AvailableCount(list) == 12
    ensures |FilteredServices(list, "")| == 12
  {
    CatalogueContents(list);
    FullCounts(list);
  }

  lemma FullCounts(list: seq<Service>)
    requires forall i :: 0 <= i < |list| ==> list[i].available
    ensures AvailableCount(list) == |list|
    ensures |FilteredServices(list, "")| == |list|
  {
    AvailableCountIsTotalIff(list);
    EmptySearchShowsAll(list);
  }
}
